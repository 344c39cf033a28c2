/** The send handler as it drives the idempotency table, and its place in the protocol. */
module SendHandler {
  import opened Idempotency
  import opened SendProtocol

  ghost predicate Runs(m: Machine, steps: seq<Step>, m': Machine)
    decreases |steps|
  {
    if steps == [] then m == m' else Enabled(m, steps[0]) && Runs(Apply(m, steps[0]), steps[1..], m')
  }

  /** The machine while request 0 is the only one underway. */
  function Alone(rows: Rows, accepted: map<RowKey, nat>, resendable: map<RowKey, nat>, q: Request): Machine {
    Machine(rows, map[0 := q], accepted, resendable)
  }

  lemma MoveAlone(rows: Rows, accepted: map<RowKey, nat>, resendable: map<RowKey, nat>, q: Request, phase: Phase)
    ensures Move(Alone(rows, accepted, resendable, q), 0, phase)
         == Alone(rows, accepted, resendable, q.(phase := phase))
  {}

  function AfterStart(start: Start): Phase {
    match start
    case Proceed => Sending
    case Found(lookup) => AfterRead(lookup)
    case DatabaseError => Answered(Error)
  }

  /** The steps a request takes, given what the database and the mail server do. */
  ghost function Opening(rows: Rows, k: RowKey, hash: string, commit: Commit): seq<Step> {
    [Arrive(0, k, hash), Read(0)] + if Find(rows, k, hash).Absent? then [Reserve(0, commit)] else []
  }

  ghost function Closing(outcome: Outcome, written: bool): seq<Step> {
    [Serve(0, outcome), if AfterServe(outcome).Recording? then Record(0, written) else Release(0, written)]
  }

  class Handler {
    const store: Repository
    var accepted: map<RowKey, nat>
    ghost var resendable: map<RowKey, nat>

    constructor (store: Repository)
      ensures this.store == store && accepted == map[]
    {
      this.store := store;
      accepted := map[];
      resendable := map[];
    }

    /** The protocol's machine while no request is underway. */
    ghost function Idle(): Machine
      reads this, store
    {
      Machine(store.rows, map[], accepted, resendable)
    }

    ghost function Busy(k: RowKey, hash: string, phase: Phase): Machine
      reads this, store
    {
      Alone(store.rows, accepted, resendable, Request(k, hash, phase))
    }

    /** The start of a request: arrival, lookup and, if nobody holds the key, its reservation. */
    method Acquire(k: RowKey, hash: string, commit: Commit)
      returns (start: Start, ghost steps: seq<Step>)
      modifies this, store
      ensures accepted == old(accepted)
      ensures Runs(old(Idle()), steps, Busy(k, hash, AfterStart(start)))
      ensures steps == Opening(old(store.rows), k, hash, commit)
      ensures start.Proceed? <==> Find(old(store.rows), k, hash).Absent? && commit.Acknowledged?
      ensures start.Found? ==> !start.lookup.Absent?
      ensures store.rows == if k in old(store.rows) || commit.Refused? then old(store.rows)
                            else old(store.rows)[k := Row(hash, InProgress, Response(0, ""))]
      ensures k !in old(store.rows) ==> start == if commit.Acknowledged? then Proceed else DatabaseError
      ensures k in old(store.rows) ==>
                var row := old(store.rows)[k];
                start == Found(if row.hash != hash then Mismatched
                               else if row.status.InProgress? then Lookup.Busy else Cached(row.response))
    {
      hide Runs, Opening, Alone;
      ghost var rows := store.rows;
      start := store.StartIdempotentRequest(k, hash, commit);
      steps := Opening(rows, k, hash, commit);
      OpeningRuns(rows, store.rows, accepted, resendable, k, hash, commit, start);
    }

    /** The rest of a request that holds the key: what the mail server did is recorded, or the key is released. */
    method Conclude(k: RowKey, hash: string, outcome: Outcome, written: bool)
      returns (answer: Answer, ghost steps: seq<Step>)
      modifies this, store
      ensures accepted == Plus(old(accepted), k, Accepts(outcome))
      ensures Runs(old(Busy(k, hash, Sending)), steps, Busy(k, hash, Answered(answer)))
      ensures steps == Closing(outcome, written)
      ensures outcome.Submitted? ==>
                && answer == Sent(Completed, Response(200, outcome.body), written)
                && store.rows == if written && k in old(store.rows)
                                 then old(store.rows)[k := Row(old(store.rows)[k].hash, Completed,
                                                               Response(200, outcome.body))]
                                 else old(store.rows)
      ensures outcome.SubmitError? && IsTimeoutOrNetworkError(outcome.error) ==>
                && answer == Sent(Ambiguous, Response(202, outcome.pending), written)
                && store.rows == if written && k in old(store.rows)
                                 then old(store.rows)[k := Row(old(store.rows)[k].hash, Ambiguous,
                                                               Response(202, outcome.pending))]
                                 else old(store.rows)
      ensures outcome.NotSubmitted? || (outcome.SubmitError? && !IsTimeoutOrNetworkError(outcome.error)) ==>
                answer == Error && store.rows == if written then old(store.rows) - {k} else old(store.rows)
    {
      hide Runs, IsTimeoutOrNetworkError, Closing, Alone, Apply;
      ghost var before, taken := store.rows, accepted;
      ghost var lied := resendable;
      ClosingRuns(before, taken, lied, k, hash, outcome, written);
      accepted := Plus(accepted, k, Accepts(outcome));
      steps := Closing(outcome, written);
      if outcome.Submitted? || (outcome.SubmitError? && IsTimeoutOrNetworkError(outcome.error)) {
        var status := if outcome.Submitted? then Completed else Ambiguous;
        var response := if outcome.Submitted? then Response(200, outcome.body) else Response(202, outcome.pending);
        answer := Sent(status, response, written);
        store.CompleteIdempotentRequest(k, status, response, written);
      } else {
        answer := Error;
        resendable := Plus(resendable, k, written && Accepts(outcome));
        store.ClearIdempotentRequest(k, written);
      }
    }

    /**
     One send request, run to its end; commit, outcome and written are what the database and the mail server do.
     The call is a run of the protocol in which this is the only request.
     */
    method SendMessage(k: RowKey, hash: string, commit: Commit, outcome: Outcome, written: bool)
      returns (answer: Answer, ghost steps: seq<Step>)
      modifies this, store
      ensures Runs(old(Idle()), steps, Busy(k, hash, Answered(answer)))
      ensures steps == Opening(old(store.rows), k, hash, commit) +
                       if Find(old(store.rows), k, hash).Absent? && commit.Acknowledged? then Closing(outcome, written)
                       else []
      ensures k in old(store.rows) ==>
                var row := old(store.rows)[k];
                && store.rows == old(store.rows)
                && answer == if row.hash != hash then Refusal(Mismatched)
                             else if row.status.InProgress? then Refusal(Lookup.Busy) else Replayed(row.response)
      ensures k !in old(store.rows) && !commit.Acknowledged? ==>
                && answer == Error
                && store.rows == if commit.Refused? then old(store.rows)
                                 else old(store.rows)[k := Row(hash, InProgress, Response(0, ""))]
      ensures k !in old(store.rows) && commit.Acknowledged? && outcome.Submitted? ==>
                && answer == Sent(Completed, Response(200, outcome.body), written)
                && store.rows == old(store.rows)[k := if written then Row(hash, Completed, Response(200, outcome.body))
                                                      else Row(hash, InProgress, Response(0, ""))]
      ensures k !in old(store.rows) && commit.Acknowledged?
              && outcome.SubmitError? && IsTimeoutOrNetworkError(outcome.error) ==>
                && answer == Sent(Ambiguous, Response(202, outcome.pending), written)
                && store.rows == old(store.rows)[k := if written
                                                      then Row(hash, Ambiguous, Response(202, outcome.pending))
                                                      else Row(hash, InProgress, Response(0, ""))]
      ensures k !in old(store.rows) && commit.Acknowledged?
              && (outcome.NotSubmitted? || (outcome.SubmitError? && !IsTimeoutOrNetworkError(outcome.error))) ==>
                && answer == Error
                && store.rows == if written then old(store.rows)
                                 else old(store.rows)[k := Row(hash, InProgress, Response(0, ""))]
      ensures Count(accepted, k) ==
              Count(old(accepted), k)
              + if k !in old(store.rows) && commit.Acknowledged?
                   && (outcome.Submitted? || (outcome.SubmitError? && outcome.taken)) then 1 else 0
      ensures forall other | other != k :: Count(accepted, other) == Count(old(accepted), other)
    {
      hide Runs, IsTimeoutOrNetworkError;
      ghost var m := Idle();
      var start, first := Acquire(k, hash, commit);
      steps := first;
      match start {
        case Found(lookup) =>
          answer := if lookup.Cached? then Replayed(lookup.response) else Refusal(lookup);
        case DatabaseError =>
          answer := Error;
        case Proceed =>
          ghost var middle := Busy(k, hash, Sending);
          var a, rest := Conclude(k, hash, outcome, written);
          RunsJoin(m, first, middle, rest, Busy(k, hash, Answered(a)));
          answer, steps := a, first + rest;
      }
    }
  }

  lemma {:induction false} RunsJoin(m: Machine, first: seq<Step>, middle: Machine, rest: seq<Step>, last: Machine)
    requires Runs(m, first, middle) && Runs(middle, rest, last)
    ensures Runs(m, first + rest, last)
    decreases |first|
  {
    if first == [] {
      assert first + rest == rest;
    } else {
      assert (first + rest)[0] == first[0] && (first + rest)[1..] == first[1..] + rest;
      RunsJoin(Apply(m, first[0]), first[1..], middle, rest, last);
    }
  }

  lemma Once(m: Machine, step: Step)
    requires Enabled(m, step)
    ensures Runs(m, [step], Apply(m, step))
  {
    assert [step][1..] == [] && Runs(Apply(m, step), [], Apply(m, step));
  }

  lemma OpeningRuns(rows: Rows, rows': Rows, accepted: map<RowKey, nat>, resendable: map<RowKey, nat>,
                    k: RowKey, hash: string, commit: Commit, start: Start)
    requires var lookup := Find(rows, k, hash);
             && rows' == (if lookup.Absent? && !commit.Refused? then Reserved(rows, k, hash) else rows)
             && start == if !lookup.Absent? then Found(lookup)
                         else if commit.Acknowledged? then Proceed else DatabaseError
    ensures Runs(Machine(rows, map[], accepted, resendable), Opening(rows, k, hash, commit),
                 Alone(rows', accepted, resendable, Request(k, hash, AfterStart(start))))
  {
    hide Runs;
    var m := Machine(rows, map[], accepted, resendable);
    var lookup := Find(rows, k, hash);
    var m1 := Alone(rows, accepted, resendable, Request(k, hash, Received));
    var m2 := Alone(rows, accepted, resendable, Request(k, hash, AfterRead(lookup)));
    assert Apply(m, Arrive(0, k, hash)) == m1;
    Once(m, Arrive(0, k, hash));
    MoveAlone(rows, accepted, resendable, Request(k, hash, Received), AfterRead(lookup));
    Once(m1, Read(0));
    RunsJoin(m, [Arrive(0, k, hash)], m1, [Read(0)], m2);
    assert [Arrive(0, k, hash)] + [Read(0)] == [Arrive(0, k, hash), Read(0)];
    if lookup.Absent? {
      MoveAlone(rows, accepted, resendable, Request(k, hash, Reserving), AfterStart(start));
      Once(m2, Reserve(0, commit));
      RunsJoin(m, [Arrive(0, k, hash), Read(0)], m2, [Reserve(0, commit)], Apply(m2, Reserve(0, commit)));
    } else {
      assert Opening(rows, k, hash, commit) == [Arrive(0, k, hash), Read(0)];
    }
  }

  /** What the closing steps leave behind: the recorded row or the released key, and the answer. */
  lemma ClosingRuns(rows: Rows, accepted: map<RowKey, nat>, resendable: map<RowKey, nat>,
                    k: RowKey, hash: string, outcome: Outcome, written: bool)
    ensures var phase := AfterServe(outcome);
            var taken := Plus(accepted, k, Accepts(outcome));
            var m := Alone(rows, accepted, resendable, Request(k, hash, Sending));
            if phase.Recording? then
              Runs(m, Closing(outcome, written),
                   Alone(if written then Recorded(rows, k, phase.status, phase.response) else rows, taken, resendable,
                         Request(k, hash, Answered(Sent(phase.status, phase.response, written)))))
            else
              Runs(m, Closing(outcome, written),
                   Alone(if written then Released(rows, k) else rows, taken,
                         Plus(resendable, k, written && Accepts(outcome)),
                         Request(k, hash, Answered(Error))))
  {
    hide Runs, IsTimeoutOrNetworkError;
    var phase := AfterServe(outcome);
    var taken := Plus(accepted, k, Accepts(outcome));
    var m := Alone(rows, accepted, resendable, Request(k, hash, Sending));
    var m1 := Alone(rows, taken, resendable, Request(k, hash, phase));
    MoveAlone(rows, accepted, resendable, Request(k, hash, Sending), phase);
    assert Apply(m, Serve(0, outcome)) == m1;
    Once(m, Serve(0, outcome));
    var last := Closing(outcome, written)[1];
    var answer := if phase.Recording? then Sent(phase.status, phase.response, written) else Error;
    MoveAlone(rows, taken, resendable, Request(k, hash, phase), Answered(answer));
    Once(m1, last);
    RunsJoin(m, [Serve(0, outcome)], m1, [last], Apply(m1, last));
    assert [Serve(0, outcome)] + [last] == Closing(outcome, written);
  }
}
