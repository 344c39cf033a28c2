/**
 The outbox: any number of processors take pending events, publish them and mark them. An event is published at most
 once; one whose processor stops between taking and marking it is never published or marked again.
 */
module Outbox {

  datatype Status = Pending | Processing | Published | Failed

  /** What a processor holds: the events of its batch still to publish, and the one tried but not yet marked. */
  datatype Batch = Batch(todo: seq<nat>, marking: seq<nat>, success: bool)

  /** The table, the live processors by name, and every publication that reached the database's notification channel. */
  datatype State = State(rows: map<nat, Status>, batches: map<nat, Batch>, published: seq<nat>)

  const BATCH_SIZE := 100

  /** How publishing ends: the payload cannot be read, the call fails before or after it took effect, or it succeeds. */
  datatype Outcome = Unreadable | NotSent | SentButFailed | Sent

  predicate Reaches(o: Outcome) {
    o.SentButFailed? || o.Sent?
  }

  datatype Step =
    | Insert(id: nat)
    | Take(p: nat, ids: seq<nat>)
    | Publish(p: nat, outcome: Outcome)
    | Mark(p: nat, written: bool)
    | Finish(p: nat)
    | Stop(p: nat)

  predicate Distinct(ids: seq<nat>) {
    forall i, j :: 0 <= i < j < |ids| ==> ids[i] != ids[j]
  }

  predicate Enabled(s: State, step: Step) {
    match step
    case Insert(id) => id !in s.rows
    case Take(p, ids) =>
      && p !in s.batches && |ids| <= BATCH_SIZE && Distinct(ids)
      && forall id <- ids :: id in s.rows && s.rows[id].Pending?
    case Publish(p, _) => p in s.batches && s.batches[p].todo != [] && s.batches[p].marking == []
    case Mark(p, _) => p in s.batches && s.batches[p].marking != []
    case Finish(p) => p in s.batches && s.batches[p].todo == s.batches[p].marking == []
    case Stop(p) => p in s.batches
  }

  function Taken(rows: map<nat, Status>, ids: seq<nat>): map<nat, Status> {
    map id <- rows :: if id in ids then Processing else rows[id]
  }

  function Apply(s: State, step: Step): State
    requires Enabled(s, step)
  {
    match step
    case Insert(id) => s.(rows := s.rows[id := Pending])
    case Take(p, ids) => s.(rows := Taken(s.rows, ids), batches := s.batches[p := Batch(ids, [], false)])
    case Publish(p, outcome) =>
      var b := s.batches[p];
      s.(batches := s.batches[p := Batch(b.todo[1..], [b.todo[0]], outcome.Sent?)],
      published := s.published + if Reaches(outcome) then [b.todo[0]] else [])
    case Mark(p, written) =>
      var b := s.batches[p];
      s.(rows := if written then s.rows[b.marking[0] := if b.success then Published else Failed] else s.rows,
      batches := s.batches[p := b.(marking := [])])
    case Finish(p) => s.(batches := s.batches - {p})
    case Stop(p) => s.(batches := s.batches - {p})
  }

  predicate Runs(s: State, steps: seq<Step>, last: State)
    decreases |steps|
  {
    if steps == [] then s == last
    else Enabled(s, steps[0]) && Runs(Apply(s, steps[0]), steps[1..], last)
  }

  const START := State(map[], map[], [])

  // ---------------------------------------------------------------- at most once

  predicate Holds(b: Batch, id: nat) {
    id in b.todo || id in b.marking
  }

  ghost predicate Held(s: State, id: nat) {
    exists p <- s.batches :: Holds(s.batches[p], id)
  }

  ghost predicate Inv(s: State) {
    && (forall p <- s.batches :: BatchInv(s, s.batches[p]))
    && Apart(s.batches)
    && Distinct(s.published)
    && (forall id <- s.published :: id in s.rows && !s.rows[id].Pending?)
    && (forall id <- s.rows :: s.rows[id].Published? ==> id in s.published)
  }

  /** No event is with two processors. */
  ghost predicate Apart(batches: map<nat, Batch>) {
    forall p <- batches, q <- batches, id: nat :: p != q && Holds(batches[p], id) ==> !Holds(batches[q], id)
  }

  ghost predicate BatchInv(s: State, b: Batch) {
    && Distinct(b.todo) && |b.marking| <= 1
    && (forall id: nat :: Holds(b, id) ==> id in s.rows && s.rows[id].Processing?)
    && (forall id <- b.todo :: id !in s.published && id !in b.marking)
    && (b.success ==> forall id <- b.marking :: id in s.published)
  }

  lemma TakeKeeps(s: State, p: nat, ids: seq<nat>)
    requires Inv(s) && Enabled(s, Take(p, ids))
    ensures Inv(Apply(s, Take(p, ids)))
  {
    var s' := Apply(s, Take(p, ids));
    forall q <- s'.batches ensures BatchInv(s', s'.batches[q]) {
      if q != p {
        assert BatchInv(s, s.batches[q]);
      }
    }
    forall q <- s.batches, id: nat | Holds(s.batches[q], id) ensures id !in ids {
      assert BatchInv(s, s.batches[q]);
    }
  }

  lemma PublishKeeps(s: State, p: nat, outcome: Outcome)
    requires Inv(s) && Enabled(s, Publish(p, outcome))
    ensures Inv(Apply(s, Publish(p, outcome)))
  {
    var s' := Apply(s, Publish(p, outcome));
    var b, b' := s.batches[p], s'.batches[p];
    var id := b.todo[0];
    assert BatchInv(s, b) && Holds(b, id);
    assert id !in s.published;
    forall k: nat | Holds(b', k) ensures Holds(b, k) {
      if k in b'.todo {
        assert k in b.todo;
      }
    }
    forall q <- s'.batches ensures BatchInv(s', s'.batches[q]) {
      assert BatchInv(s, s.batches[q]);
      if q != p {
        assert !Holds(s.batches[q], id);
      } else {
        forall k <- b'.todo ensures k in b.todo && k != id {
          var i :| 0 <= i < |b'.todo| && b'.todo[i] == k;
          assert k == b.todo[i + 1];
        }
      }
    }
  }

  lemma MarkKeeps(s: State, p: nat, written: bool)
    requires Inv(s) && Enabled(s, Mark(p, written))
    ensures Inv(Apply(s, Mark(p, written)))
  {
    var s' := Apply(s, Mark(p, written));
    var b := s.batches[p];
    var id := b.marking[0];
    assert BatchInv(s, b) && Holds(b, id);
    assert s'.batches[p].todo == b.todo;
    forall k: nat | Holds(s'.batches[p], k) ensures Holds(b, k) {}
    forall q <- s'.batches ensures BatchInv(s', s'.batches[q]) {
      assert BatchInv(s, s.batches[q]);
      if q != p {
        assert !Holds(s.batches[q], id);
      }
    }
  }

  lemma StepKeeps(s: State, step: Step)
    requires Inv(s) && Enabled(s, step)
    ensures Inv(Apply(s, step))
  {
    match step {
      case Take(p, ids) => TakeKeeps(s, p, ids);
      case Publish(p, outcome) => PublishKeeps(s, p, outcome);
      case Mark(p, written) => MarkKeeps(s, p, written);
      case _ =>
        var s' := Apply(s, step);
        forall q <- s'.batches ensures BatchInv(s', s'.batches[q]) {
          assert BatchInv(s, s.batches[q]);
        }
    }
  }

  lemma {:induction false} RunKeeps(s: State, steps: seq<Step>, last: State)
    requires Inv(s) && Runs(s, steps, last)
    ensures Inv(last)
    decreases |steps|
  {
    if steps != [] {
      StepKeeps(s, steps[0]);
      RunKeeps(Apply(s, steps[0]), steps[1..], last);
    }
  }

  /** However many processors there are, and wherever they stop, no event is published twice. */
  lemma PublishedAtMostOnce(steps: seq<Step>, last: State)
    requires Runs(START, steps, last)
    ensures forall i, j :: 0 <= i < j < |last.published| ==> last.published[i] != last.published[j]
    ensures forall id <- last.rows :: last.rows[id].Published? ==> id in last.published
    ensures forall id <- last.rows :: last.rows[id].Pending? ==> id !in last.published
  {
    RunKeeps(START, steps, last);
  }

  // ---------------------------------------------------------------- settled, or stuck

  /** Nothing will ever happen to this event again. */
  ghost predicate Over(s: State, id: nat) {
    id in s.rows && !s.rows[id].Pending? && !Held(s, id)
  }

  lemma StepOver(s: State, step: Step, id: nat)
    requires Enabled(s, step) && Over(s, id)
    ensures var s' := Apply(s, step);
            && Over(s', id) && s'.rows[id] == s.rows[id] && (id in s'.published <==> id in s.published)
  {
    var s' := Apply(s, step);
    forall p <- s'.batches ensures !Holds(s'.batches[p], id) {
      if p in s.batches {
        assert !Holds(s.batches[p], id);
        forall k <- s'.batches[p].todo ensures k in s.batches[p].todo {}
        assert step.Publish? && step.p == p ==> Holds(s.batches[p], s.batches[p].todo[0]);
      }
    }
    if step.Publish? || step.Mark? {
      var b := s.batches[step.p];
      assert !Holds(b, id);
    }
  }

  /** An event marked, or taken by a processor that stopped, keeps its status and is not published any more. */
  lemma {:induction false} OverForGood(s: State, steps: seq<Step>, last: State, id: nat)
    requires Runs(s, steps, last) && Over(s, id)
    ensures Over(last, id) && last.rows[id] == s.rows[id]
    ensures id in last.published <==> id in s.published
    decreases |steps|
  {
    if steps != [] {
      StepOver(s, steps[0], id);
      OverForGood(Apply(s, steps[0]), steps[1..], last, id);
    }
  }

  // ---------------------------------------------------------------- the processor

  lemma {:induction false} RunsOn(s: State, steps: seq<Step>, last: State, step: Step)
    requires Runs(s, steps, last) && Enabled(last, step)
    ensures Runs(s, steps + [step], Apply(last, step))
    decreases |steps|
  {
    if steps == [] {
      assert Runs(Apply(s, step), [step][1..], Apply(s, step));
    } else {
      assert (steps + [step])[0] == steps[0] && (steps + [step])[1..] == steps[1..] + [step];
      RunsOn(Apply(s, steps[0]), steps[1..], last, step);
    }
  }

  function Marked(outcome: Outcome, written: bool): Status {
    if !written then Processing else if outcome.Sent? then Published else Failed
  }

  /** The steps the first events of a batch take. */
  ghost function Script(outcomes: seq<Outcome>, written: seq<bool>, n: nat): seq<Step>
    requires n <= |outcomes| == |written|
  {
    if n == 0 then [] else Script(outcomes, written, n - 1) + [Publish(0, outcomes[n - 1]), Mark(0, written[n - 1])]
  }

  class Processor {
    var rows: map<nat, Status>
    var published: seq<nat>

    /** The table while this processor holds what is left of its batch, and while it holds nothing. */
    ghost function Busy(todo: seq<nat>, marking: seq<nat>, success: bool): State
      reads this
    {
      State(rows, map[0 := Batch(todo, marking, success)], published)
    }

    ghost function Idle(): State
      reads this
    {
      State(rows, map[], published)
    }

    /** One event of the batch: publish it, or fail to read it, and mark it. */
    method PublishOne(todo: seq<nat>, outcome: Outcome, written: bool, ghost success: bool)
      requires todo != []
      modifies this
      ensures var before := old(Busy(todo, [], success));
              && Enabled(before, Publish(0, outcome))
              && Enabled(Apply(before, Publish(0, outcome)), Mark(0, written))
              && Busy(todo[1..], [], outcome.Sent?) == Apply(Apply(before, Publish(0, outcome)), Mark(0, written))
      ensures rows == if written then old(rows)[todo[0] := if outcome.Sent? then Published else Failed] else old(rows)
      ensures published == old(published) + if outcome.Sent? || outcome.SentButFailed? then [todo[0]] else []
    {
      if Reaches(outcome) {
        published := published + [todo[0]];
      }
      if written {
        rows := rows[todo[0] := if outcome.Sent? then Published else Failed];
      }
    }

    /** One turn of the loop over the batch, added to the run so far. */
    method PublishNext(ids: seq<nat>, i: nat, outcomes: seq<Outcome>, written: seq<bool>,
                       ghost start: State, ghost run: seq<Step>, ghost success: bool)
      returns (ghost steps: seq<Step>)
      requires i < |ids| == |outcomes| == |written| && Distinct(ids)
      requires Runs(start, run, Busy(ids[i..], [], success)) && MarkedUpto(start.rows, rows, ids, outcomes, written, i)
      requires run == [Take(0, ids)] + Script(outcomes, written, i)
      modifies this
      ensures Runs(start, steps, Busy(ids[i + 1..], [], outcomes[i].Sent?))
      ensures MarkedUpto(start.rows, rows, ids, outcomes, written, i + 1)
      ensures published ==
              old(published) + if outcomes[i].Sent? || outcomes[i].SentButFailed? then [ids[i]] else []
      ensures steps == [Take(0, ids)] + Script(outcomes, written, i + 1)
    {
      hide Runs, Apply, Enabled, MarkedUpto, Distinct;
      ghost var before := Busy(ids[i..], [], success);
      assert ids[i..][0] == ids[i] && ids[i..][1..] == ids[i + 1..];
      MarkedNext(start.rows, rows, ids, outcomes, written, i);
      PublishOne(ids[i..], outcomes[i], written[i], success);
      steps := RunsOnTwice(start, run, before, Publish(0, outcomes[i]), Mark(0, written[i]));
    }

    /**
     One batch: the ids the database hands out, and how publishing and marking each of them ends. The call is a run of
     the machine in which this is the only processor.
     */
    method ProcessBatch(ids: seq<nat>, outcomes: seq<Outcome>, written: seq<bool>) returns (ghost steps: seq<Step>)
      requires Enabled(Idle(), Take(0, ids)) && |outcomes| == |written| == |ids|
      modifies this
      ensures Runs(old(Idle()), steps, Idle())
      ensures steps == [Take(0, ids)] + Script(outcomes, written, |ids|) + [Finish(0)]
      ensures forall j :: 0 <= j < |ids| ==>
                            ids[j] in rows && rows[ids[j]] == if !written[j] then Processing
                                                              else if outcomes[j].Sent? then Published else Failed
      ensures forall id <- old(rows) :: id in rows && (id !in ids ==> rows[id] == old(rows)[id])
      ensures old(published) <= published
      ensures forall id: nat ::
                id in published <==>
                id in old(published)
                || exists j :: 0 <= j < |ids| && ids[j] == id && (outcomes[j].Sent? || outcomes[j].SentButFailed?)
    {
      ghost var start := Idle();
      rows := Taken(rows, ids);
      ghost var success := false;
      steps := Started(start, ids, Busy(ids[0..], [], success));
      for i := 0 to |ids|
        invariant Runs(start, steps, Busy(ids[i..], [], success))
        invariant MarkedUpto(start.rows, rows, ids, outcomes, written, i)
        invariant steps == [Take(0, ids)] + Script(outcomes, written, i)
        invariant old(published) <= published
        invariant forall id: nat ::
                    id in published <==>
                    id in old(published)
                    || exists j :: 0 <= j < i && ids[j] == id && (outcomes[j].Sent? || outcomes[j].SentButFailed?)
      {
        hide Runs, MarkedUpto, Enabled;
        steps := PublishNext(ids, i, outcomes, written, start, steps, success);
        success := outcomes[i].Sent?;
      }
      steps := Ended(start, steps, Busy(ids[|ids|..], [], success), Idle());
    }
  }

  /** The first events of a batch marked, the others taken, and the rest of the table as it was. */
  ghost predicate MarkedUpto(was: map<nat, Status>, now: map<nat, Status>, ids: seq<nat>, outcomes: seq<Outcome>,
                             written: seq<bool>, n: nat)
    requires |outcomes| == |written| == |ids|
  {
    && (forall id <- was :: id in now && (id !in ids ==> now[id] == was[id]))
    && (forall j :: 0 <= j < |ids| ==>
                      ids[j] in now && now[ids[j]] == if j < n then Marked(outcomes[j], written[j]) else Processing)
  }

  lemma MarkedNext(was: map<nat, Status>, now: map<nat, Status>, ids: seq<nat>, outcomes: seq<Outcome>,
                   written: seq<bool>, n: nat)
    requires |outcomes| == |written| == |ids| && n < |ids| && Distinct(ids)
    requires MarkedUpto(was, now, ids, outcomes, written, n)
    ensures MarkedUpto(was, if written[n] then now[ids[n] := Marked(outcomes[n], true)] else now,
                       ids, outcomes, written, n + 1)
  {
  }

  lemma RunsOnTwice(s: State, steps: seq<Step>, last: State, a: Step, b: Step) returns (more: seq<Step>)
    requires Runs(s, steps, last) && Enabled(last, a) && Enabled(Apply(last, a), b)
    ensures Runs(s, more, Apply(Apply(last, a), b)) && more == steps + [a, b]
  {
    RunsOn(s, steps, last, a);
    RunsOn(s, steps + [a], Apply(last, a), b);
    more := steps + [a] + [b];
  }

  lemma Started(s: State, ids: seq<nat>, busy: State) returns (steps: seq<Step>)
    requires Enabled(s, Take(0, ids)) && s.batches == map[]
    requires busy == State(Taken(s.rows, ids), map[0 := Batch(ids[0..], [], false)], s.published)
    ensures Runs(s, steps, busy) && steps == [Take(0, ids)] && Distinct(ids)
    ensures forall id <- ids :: id in s.rows && busy.rows[id] == Processing
  {
    assert ids[0..] == ids && Runs(s, [], s);
    RunsOn(s, [], s, Take(0, ids));
    steps := [] + [Take(0, ids)];
  }

  lemma Ended(s: State, run: seq<Step>, busy: State, idle: State) returns (steps: seq<Step>)
    requires Runs(s, run, busy) && busy.batches.Keys == {0} && busy.batches[0].todo == busy.batches[0].marking == []
    requires idle == busy.(batches := map[])
    ensures Runs(s, steps, idle) && steps == run + [Finish(0)]
  {
    RunsOn(s, run, busy, Finish(0));
    assert busy.batches - {0} == map[];
    steps := run + [Finish(0)];
  }
}
