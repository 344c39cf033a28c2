/**
 The send protocol. Any number of requests, under any keys, interleave at every database statement and at the call to
 the mail server; any of them may crash, and any write may be lost. A counter per key records what the server accepted.
 */
module SendProtocol {
  import opened Idempotency

  // ----- Classifying a failed submission -----

  predicate Contains(s: string, part: string) {
    exists i {:trigger s[i..]} :: 0 <= i <= |s| - |part| && part <= s[i..]
  }

  method SearchString(s: string, part: string) returns (found: bool)
    ensures found <==> Contains(s, part)
  {
    var i := 0;
    while i <= |s| - |part|
      invariant 0 <= i
      invariant forall j {:trigger s[j..]} :: 0 <= j < i && j <= |s| - |part| ==> !(part <= s[j..])
    {
      if part <= s[i..] {
        return true;
      }
      i := i + 1;
    }
    return false;
  }

  const AMBIGUOUS: seq<string> := ["timeout", "deadline exceeded", "connection refused", "connection reset", "EOF"]

  /** Containing is being a part of, wherever it is. */
  lemma ContainsMeans(s: string, part: string)
    ensures Contains(s, part) <==> exists before: string, after: string :: s == before + part + after
  {
    if Contains(s, part) {
      var i :| 0 <= i <= |s| - |part| && part <= s[i..];
      assert s == s[..i] + part + s[i + |part|..];
    }
    if before: string, after: string :| s == before + part + after {
      assert s[|before|..] == part + after;
    }
  }

  /** Errors after which the server may or may not have accepted the submission. */
  predicate IsTimeoutOrNetworkError(error: string) {
    exists part <- AMBIGUOUS :: Contains(error, part)
  }

  /** The texts by which an error is recognised, and no others. */
  lemma RecognisedTexts(error: string)
    ensures IsTimeoutOrNetworkError(error) <==>
            || Contains(error, "timeout") || Contains(error, "deadline exceeded")
            || Contains(error, "connection refused") || Contains(error, "connection reset") || Contains(error, "EOF")
  {
    hide Contains;
    assert AMBIGUOUS[0] == "timeout" && AMBIGUOUS[1] == "deadline exceeded" && AMBIGUOUS[2] == "connection refused"
           && AMBIGUOUS[3] == "connection reset" && AMBIGUOUS[4] == "EOF";
  }

  /** How the service call ends, and whether the server accepted the submission. */
  datatype Outcome =
    | NotSubmitted
    | Submitted(body: string)
    | SubmitError(error: string, pending: string, taken: bool)

  predicate Accepts(o: Outcome) {
    o.Submitted? || (o.SubmitError? && o.taken)
  }

  // ----- The machine -----

  datatype Answer = Replayed(response: Response) | Sent(status: Status, response: Response, written: bool)
                  | Refusal(lookup: Lookup) | Error

  datatype Phase =
    | Received
    | Reserving
    | Sending
    | Recording(status: Status, response: Response, taken: bool)
    | Releasing(taken: bool)
    | Answered(answer: Answer)
    | Crashed

  datatype Request = Request(k: RowKey, hash: string, phase: Phase)

  /** accepted counts the server's acceptances per key; resendable counts accepted ones whose key was then released. */
  datatype Machine = Machine(
    rows: Rows, requests: map<nat, Request>, accepted: map<RowKey, nat>, resendable: map<RowKey, nat>)

  datatype Step =
    | Arrive(r: nat, k: RowKey, hash: string)
    | Read(r: nat)
    | ReadFails(r: nat)
    | Reserve(r: nat, commit: Commit)
    | Serve(r: nat, outcome: Outcome)
    | Record(r: nat, written: bool)
    | Release(r: nat, written: bool)
    | Crash(r: nat)

  const START := Machine(map[], map[], map[], map[])

  function Count(counts: map<RowKey, nat>, k: RowKey): nat {
    if k in counts then counts[k] else 0
  }

  function Plus(counts: map<RowKey, nat>, k: RowKey, more: bool): map<RowKey, nat> {
    if more then counts[k := Count(counts, k) + 1] else counts
  }

  predicate Enabled(m: Machine, step: Step) {
    if step.Arrive? then step.r !in m.requests
    else
      && step.r in m.requests
      && var phase := m.requests[step.r].phase;
         match step
         case Read(_) => phase.Received?
         case ReadFails(_) => phase.Received?
         case Reserve(_, _) => phase.Reserving?
         case Serve(_, _) => phase.Sending?
         case Record(_, _) => phase.Recording?
         case Release(_, _) => phase.Releasing?
         case Crash(_) => !phase.Answered?
  }

  function Move(m: Machine, r: nat, phase: Phase): Machine
    requires r in m.requests
  {
    m.(requests := m.requests[r := m.requests[r].(phase := phase)])
  }

  function AfterRead(lookup: Lookup): Phase {
    match lookup
    case Absent => Reserving
    case Cached(response) => Answered(Replayed(response))
    case _ => Answered(Refusal(lookup))
  }

  /** What the handler does with the service's outcome: record success or ambiguity, release the key otherwise. */
  function AfterServe(o: Outcome): Phase {
    match o
    case NotSubmitted => Releasing(false)
    case Submitted(body) => Recording(Completed, Response(200, body), true)
    case SubmitError(error, pending, taken) =>
      if IsTimeoutOrNetworkError(error) then Recording(Ambiguous, Response(202, pending), taken) else Releasing(taken)
  }

  function Apply(m: Machine, step: Step): Machine
    requires Enabled(m, step)
  {
    match step
    case Arrive(r, k, hash) => m.(requests := m.requests[r := Request(k, hash, Received)])
    case Read(r) => Move(m, r, AfterRead(Find(m.rows, m.requests[r].k, m.requests[r].hash)))
    case ReadFails(r) => Move(m, r, Answered(Error))
    case Reserve(r, commit) =>
      // The insert fails on the unique key if another request reserved it since the read.
      var q := m.requests[r];
      if q.k in m.rows || commit.Refused? then Move(m, r, Answered(Error))
      else Move(m, r, if commit.Acknowledged? then Sending else Answered(Error)).(rows := Reserved(m.rows, q.k, q.hash))
    case Serve(r, o) =>
      Move(m, r, AfterServe(o)).(accepted := Plus(m.accepted, m.requests[r].k, Accepts(o)))
    case Record(r, written) =>
      var q := m.requests[r];
      Move(m, r, Answered(Sent(q.phase.status, q.phase.response, written)))
      .(rows := if written then Recorded(m.rows, q.k, q.phase.status, q.phase.response) else m.rows)
    case Release(r, written) =>
      var q := m.requests[r];
      Move(m, r, Answered(Error))
      .(rows := if written then Released(m.rows, q.k) else m.rows,
        resendable := Plus(m.resendable, q.k, written && q.phase.taken))
    case Crash(r) => Move(m, r, Crashed)
  }

  /** Errors for which canLie holds may be reported although the server accepted the submission. */
  predicate Truthful(step: Step, canLie: string -> bool) {
    step.Serve? && step.outcome.SubmitError? && step.outcome.taken ==> canLie(step.outcome.error)
  }

  ghost predicate IsBehavior(states: seq<Machine>, steps: seq<Step>, canLie: string -> bool) {
    && |states| == |steps| + 1 && states[0] == START
    && forall i {:trigger steps[i]} :: 0 <= i < |steps| ==>
         Truthful(steps[i], canLie) && Enabled(states[i], steps[i]) && states[i + 1] == Apply(states[i], steps[i])
  }

  // ----- The invariant -----

  predicate Settled(m: Machine, k: RowKey) {
    k in m.rows && !m.rows[k].status.InProgress?
  }

  predicate Owns(q: Request) {
    q.phase.Sending? || q.phase.Recording? || q.phase.Releasing?
  }

  /** Whoever executes a send holds the key's row, in progress and under its own hash. */
  predicate Holds(m: Machine, q: Request) {
    Owns(q) ==> q.k in m.rows && m.rows[q.k] == Row(q.hash, InProgress, NO_RESPONSE)
  }

  predicate Unshared(m: Machine) {
    forall r <- m.requests, s <- m.requests ::
      Owns(m.requests[r]) && Owns(m.requests[s]) && m.requests[r].k == m.requests[s].k ==> r == s
  }

  predicate Exclusive(m: Machine) {
    Unshared(m) && forall r <- m.requests :: Holds(m, m.requests[r])
  }

  /** Acceptances under a key: those made resendable, and at most one that the row still guards. */
  predicate Balanced(m: Machine, k: RowKey) {
    var guarded := Count(m.accepted, k) - Count(m.resendable, k);
    && 0 <= guarded <= 1
    && (k !in m.rows ==> guarded == 0)
    && (k in m.rows && m.rows[k].status.Completed? ==> guarded == 1)
  }

  predicate OwnerBalanced(m: Machine, q: Request) {
    var guarded := Count(m.accepted, q.k) - Count(m.resendable, q.k);
    match q.phase
    case Sending => guarded == 0
    case Recording(status, _, taken) =>
      guarded == (if taken then 1 else 0) && !status.InProgress? && (status.Completed? ==> taken)
    case Releasing(taken) => guarded == if taken then 1 else 0
    case _ => true
  }

  /** An answer given from the row, or recorded in it, is the row's for good. */
  predicate AnswerKept(m: Machine, q: Request) {
    q.phase.Answered? ==>
      match q.phase.answer
      case Replayed(response) =>
        && q.k in m.rows && !m.rows[q.k].status.InProgress?
        && m.rows[q.k].hash == q.hash && m.rows[q.k].response == response
      case Sent(status, response, written) =>
        written ==> (q.k in m.rows && m.rows[q.k] == Row(q.hash, status, response) && !status.InProgress?)
      case _ => true
  }

  ghost predicate Inv(m: Machine) {
    && Exclusive(m)
    && (forall k: RowKey :: Balanced(m, k))
    && (forall r <- m.requests :: OwnerBalanced(m, m.requests[r]) && AnswerKept(m, m.requests[r]))
  }

  lemma StepKeepsInv(m: Machine, step: Step)
    requires Inv(m) && Enabled(m, step)
    ensures Inv(Apply(m, step))
  {
    var m' := Apply(m, step);
    StepUnshared(m, step);
    forall r <- m'.requests
      ensures Holds(m', m'.requests[r])
    {
      StepHolds(m, step, r);
    }
    forall k: RowKey
      ensures Balanced(m', k)
    {
      assert Balanced(m, k);
      StepBalanced(m, step, k);
    }
    forall r <- m'.requests
      ensures OwnerBalanced(m', m'.requests[r]) && AnswerKept(m', m'.requests[r])
    {
      if r == step.r {
        StepActor(m, step);
      } else {
        StepOther(m, step, r);
      }
    }
  }

  lemma StepUnshared(m: Machine, step: Step)
    requires Exclusive(m) && Enabled(m, step)
    ensures Unshared(Apply(m, step))
  {
    var m' := Apply(m, step);
    forall r <- m'.requests, s <- m'.requests |
      Owns(m'.requests[r]) && Owns(m'.requests[s]) && m'.requests[r].k == m'.requests[s].k
      ensures r == s
    {
      NewOwnerFindsNoRow(m, step, r);
      NewOwnerFindsNoRow(m, step, s);
    }
  }

  lemma NewOwnerFindsNoRow(m: Machine, step: Step, r: nat)
    requires Exclusive(m) && Enabled(m, step) && r in Apply(m, step).requests && Owns(Apply(m, step).requests[r])
    ensures r in m.requests && m.requests[r].k == Apply(m, step).requests[r].k
    ensures Owns(m.requests[r]) || (r == step.r && m.requests[r].k !in m.rows)
    ensures Owns(m.requests[r]) ==> Holds(m, m.requests[r])
  {}

  lemma StepHolds(m: Machine, step: Step, r: nat)
    requires Exclusive(m) && Enabled(m, step) && r in Apply(m, step).requests
    ensures Holds(Apply(m, step), Apply(m, step).requests[r])
  {
    if r in m.requests {
      assert Holds(m, m.requests[r]);
    }
  }

  lemma StepBalanced(m: Machine, step: Step, k: RowKey)
    requires Inv(m) && Enabled(m, step)
    ensures Balanced(Apply(m, step), k)
  {
    assert Balanced(m, k);
  }

  lemma StepActor(m: Machine, step: Step)
    requires Inv(m) && Enabled(m, step)
    ensures var m' := Apply(m, step);
            OwnerBalanced(m', m'.requests[step.r]) && AnswerKept(m', m'.requests[step.r])
  {
    if !step.Arrive? {
      assert Balanced(m, m.requests[step.r].k);
      assert OwnerBalanced(m, m.requests[step.r]);
    }
  }

  /** A step changes the row and the counts of its own key only, and of no key that someone else holds. */
  lemma StepFrame(m: Machine, step: Step, k: RowKey)
    requires Inv(m) && Enabled(m, step)
    requires (!step.Arrive? ==> m.requests[step.r].k != k) || step.Arrive?
             || (exists r <- m.requests :: r != step.r && m.requests[r].k == k && Owns(m.requests[r])) || Settled(m, k)
    ensures var m' := Apply(m, step);
            && Count(m'.accepted, k) == Count(m.accepted, k) && Count(m'.resendable, k) == Count(m.resendable, k)
            && (k in m'.rows <==> k in m.rows) && (k in m.rows ==> m'.rows[k] == m.rows[k])
  {}

  lemma StepOther(m: Machine, step: Step, r: nat)
    requires Inv(m) && Enabled(m, step) && r in m.requests && r != step.r
    ensures OwnerBalanced(Apply(m, step), m.requests[r]) && AnswerKept(Apply(m, step), m.requests[r])
  {
    hide Enabled;
    var q := m.requests[r];
    assert OwnerBalanced(m, q) && AnswerKept(m, q);
    if Owns(q) || Settled(m, q.k) {
      StepFrame(m, step, q.k);
    }
  }

  lemma {:induction false} InvAt(states: seq<Machine>, steps: seq<Step>, canLie: string -> bool, n: nat)
    requires IsBehavior(states, steps, canLie) && n <= |steps|
    ensures Inv(states[n])
  {
    if n > 0 {
      InvAt(states, steps, canLie, n - 1);
      assert Truthful(steps[n - 1], canLie);
      StepKeepsInv(states[n - 1], steps[n - 1]);
    }
  }

  // ----- At most once -----

  /** In every run, at most one request at a time executes the send of a key. */
  lemma OneAtATime(states: seq<Machine>, steps: seq<Step>, canLie: string -> bool, n: nat, r: nat, s: nat)
    requires IsBehavior(states, steps, canLie) && n <= |steps|
    requires r in states[n].requests && s in states[n].requests && states[n].requests[r].k == states[n].requests[s].k
    requires Owns(states[n].requests[r]) && Owns(states[n].requests[s])
    ensures r == s
  {
    InvAt(states, steps, canLie, n);
  }

  /** The server accepts at most one submission more than were released for resending; a completed key, exactly one. */
  lemma AcceptedBound(states: seq<Machine>, steps: seq<Step>, canLie: string -> bool, n: nat, k: RowKey)
    requires IsBehavior(states, steps, canLie) && n <= |steps|
    ensures var m := states[n];
            && Count(m.accepted, k) <= Count(m.resendable, k) + 1
            && (k in m.rows && m.rows[k].status.Completed? ==> Count(m.accepted, k) == Count(m.resendable, k) + 1)
  {
    InvAt(states, steps, canLie, n);
    assert Balanced(states[n], k);
  }

  ghost predicate AlwaysOnce(canLie: string -> bool) {
    forall states: seq<Machine>, steps: seq<Step>, k: RowKey | IsBehavior(states, steps, canLie) ::
      Count(states[|steps|].accepted, k) <= 1
  }

  /** Where lies are all recognised as ambiguous, a request that is to release its key was never accepted. */
  predicate NothingLost(m: Machine) {
    && m.resendable == map[]
    && forall r <- m.requests :: m.requests[r].phase.Releasing? ==> !m.requests[r].phase.taken
  }

  lemma {:induction false} NothingLostAt(states: seq<Machine>, steps: seq<Step>, canLie: string -> bool, n: nat)
    requires IsBehavior(states, steps, canLie) && n <= |steps|
    requires forall error :: canLie(error) ==> IsTimeoutOrNetworkError(error)
    ensures NothingLost(states[n])
  {
    if n > 0 {
      NothingLostAt(states, steps, canLie, n - 1);
      assert Truthful(steps[n - 1], canLie);
    }
  }

  ghost predicate Reachable(m: Machine, canLie: string -> bool) {
    exists states, steps :: IsBehavior(states, steps, canLie) && states[|steps|] == m
  }

  lemma ReachesStart(canLie: string -> bool)
    ensures Reachable(START, canLie)
  {
    assert IsBehavior([START], [], canLie);
  }

  lemma ReachesNext(m: Machine, step: Step, canLie: string -> bool) returns (m': Machine)
    requires Reachable(m, canLie) && Enabled(m, step) && Truthful(step, canLie)
    ensures m' == Apply(m, step) && Reachable(m', canLie)
  {
    m' := Apply(m, step);
    var states, steps :| IsBehavior(states, steps, canLie) && states[|steps|] == m;
    var states', steps' := states + [m'], steps + [step];
    forall i {:trigger steps'[i]} | 0 <= i < |steps'|
      ensures Truthful(steps'[i], canLie) && Enabled(states'[i], steps'[i])
      ensures states'[i + 1] == Apply(states'[i], steps'[i])
    {
      if i < |steps| {
        assert steps'[i] == steps[i];
      }
    }
    assert IsBehavior(states', steps', canLie);
  }

  /** An error text that can hide an acceptance and is not recognised lets the client send twice. */
  lemma UnrecognisedLieResends(canLie: string -> bool, error: string, k: RowKey, hash: string)
    requires canLie(error) && !IsTimeoutOrNetworkError(error)
    ensures !AlwaysOnce(canLie)
  {
    ReachesStart(canLie);
    var m := ReachesNext(START, Arrive(0, k, hash), canLie);
    m := ReachesNext(m, Read(0), canLie);
    m := ReachesNext(m, Reserve(0, Acknowledged), canLie);
    m := ReachesNext(m, Serve(0, SubmitError(error, "", true)), canLie);
    m := ReachesNext(m, Release(0, true), canLie);
    m := ReachesNext(m, Arrive(1, k, hash), canLie);
    m := ReachesNext(m, Read(1), canLie);
    m := ReachesNext(m, Reserve(1, Acknowledged), canLie);
    m := ReachesNext(m, Serve(1, Submitted("")), canLie);
    assert Count(m.accepted, k) == 2;
  }

  /**
   At most once, exactly: in every interleaving with crashes and lost writes the server accepts at most one submission
   per key, if and only if every error that can hide an acceptance is one the classifier recognises as ambiguous.
   */
  lemma AtMostOnceIffLiesRecognised(canLie: string -> bool)
    ensures AlwaysOnce(canLie) <==> forall error :: canLie(error) ==> IsTimeoutOrNetworkError(error)
  {
    if forall error :: canLie(error) ==> IsTimeoutOrNetworkError(error) {
      forall states: seq<Machine>, steps: seq<Step>, k: RowKey | IsBehavior(states, steps, canLie)
        ensures Count(states[|steps|].accepted, k) <= 1
      {
        NothingLostAt(states, steps, canLie, |steps|);
        AcceptedBound(states, steps, canLie, |steps|, k);
      }
    } else {
      var error :| canLie(error) && !IsTimeoutOrNetworkError(error);
      UnrecognisedLieResends(canLie, error, RowKey("", ""), "");
    }
  }

  // ----- Replays -----

  lemma StepKeepsSettled(m: Machine, step: Step, k: RowKey)
    requires Inv(m) && Enabled(m, step) && Settled(m, k)
    ensures k in Apply(m, step).rows && Apply(m, step).rows[k] == m.rows[k]
  {}

  /** Once completed or ambiguous, a row never changes again. */
  lemma {:induction false} SettledForGood(
      states: seq<Machine>, steps: seq<Step>, canLie: string -> bool, m: nat, n: nat, k: RowKey)
    requires IsBehavior(states, steps, canLie) && m <= n <= |steps| && Settled(states[m], k)
    ensures k in states[n].rows && states[n].rows[k] == states[m].rows[k]
  {
    if m < n {
      SettledForGood(states, steps, canLie, m, n - 1, k);
      InvAt(states, steps, canLie, n - 1);
      assert Truthful(steps[n - 1], canLie);
      StepKeepsSettled(states[n - 1], steps[n - 1], k);
    }
  }

  /** The response a request's client received, if it was replayed from the row or is recorded in it. */
  predicate Gave(q: Request, response: Response) {
    q.phase.Answered? && (q.phase.answer == Replayed(response)
                          || (q.phase.answer.Sent? && q.phase.answer.written && q.phase.answer.response == response))
  }

  /** All recorded and replayed answers under a key carry one and the same response, and were asked with one hash. */
  lemma AnswersAgree(states: seq<Machine>, steps: seq<Step>, canLie: string -> bool, n: nat, r: nat, s: nat,
                     a: Response, b: Response)
    requires IsBehavior(states, steps, canLie) && n <= |steps|
    requires r in states[n].requests && s in states[n].requests && states[n].requests[r].k == states[n].requests[s].k
    requires Gave(states[n].requests[r], a) && Gave(states[n].requests[s], b)
    ensures a == b && states[n].requests[r].hash == states[n].requests[s].hash
  {
    InvAt(states, steps, canLie, n);
    assert AnswerKept(states[n], states[n].requests[r]) && AnswerKept(states[n], states[n].requests[s]);
  }

  /** After a row settles, requests are answered from it: its response for its hash, a mismatch otherwise. */
  lemma SettledAnswers(states: seq<Machine>, steps: seq<Step>, canLie: string -> bool, m: nat, n: nat, r: nat)
    requires IsBehavior(states, steps, canLie) && m <= n < |steps| && steps[n] == Read(r) && r in states[n].requests
    requires Settled(states[m], states[n].requests[r].k)
    ensures var q, row := states[n].requests[r], states[m].rows[states[n].requests[r].k];
            states[n + 1].requests[r].phase ==
            Answered(if q.hash == row.hash then Replayed(row.response) else Refusal(Mismatched))
  {
    assert Truthful(steps[n], canLie);
    SettledForGood(states, steps, canLie, m, n, states[n].requests[r].k);
  }

  // ----- What the answers say -----

  /** The step serves the request of that key and hash, with an outcome to be recorded as this status and response. */
  predicate Serves(m: Machine, step: Step, k: RowKey, hash: string, status: Status, response: Response) {
    && step.Serve? && step.r in m.requests && m.requests[step.r].k == k && m.requests[step.r].hash == hash
    && match step.outcome
       case NotSubmitted => false
       case Submitted(body) => status == Completed && response == Response(200, body)
       case SubmitError(error, pending, _) =>
         IsTimeoutOrNetworkError(error) && status == Ambiguous && response == Response(202, pending)
  }

  ghost predicate Served(states: seq<Machine>, steps: seq<Step>, n: nat,
                         k: RowKey, hash: string, status: Status, response: Response)
    requires n <= |steps| < |states|
  {
    exists i :: 0 <= i < n && Serves(states[i], steps[i], k, hash, status, response)
  }

  /** The request is about to record this, or answered it. */
  predicate Bears(q: Request, status: Status, response: Response) {
    || (q.phase.Recording? && q.phase.status == status && q.phase.response == response)
    || (q.phase.Answered? && q.phase.answer.Sent?
        && q.phase.answer.status == status && q.phase.answer.response == response)
  }

  lemma StepBears(m: Machine, step: Step, r: nat, status: Status, response: Response)
    requires Enabled(m, step) && r in Apply(m, step).requests && Bears(Apply(m, step).requests[r], status, response)
    ensures var q := Apply(m, step).requests[r];
            || (r in m.requests && m.requests[r].k == q.k && m.requests[r].hash == q.hash
                && Bears(m.requests[r], status, response))
            || Serves(m, step, q.k, q.hash, status, response)
  {
    hide IsTimeoutOrNetworkError;
  }

  lemma StepSettles(m: Machine, step: Step, k: RowKey)
    requires Inv(m) && Enabled(m, step) && Settled(Apply(m, step), k) && !Settled(m, k)
    ensures var row := Apply(m, step).rows[k];
            && step.Record? && step.r in m.requests && m.requests[step.r].k == k && m.requests[step.r].hash == row.hash
            && Bears(m.requests[step.r], row.status, row.response)
  {
    hide IsTimeoutOrNetworkError;
  }

  /** What is about to be recorded or was answered was served. */
  ghost predicate BearersServed(states: seq<Machine>, steps: seq<Step>, n: nat)
    requires n <= |steps| < |states|
  {
    forall r <- states[n].requests, status, response | Bears(states[n].requests[r], status, response) ::
      Served(states, steps, n, states[n].requests[r].k, states[n].requests[r].hash, status, response)
  }

  lemma {:induction false} BearersServedAt(states: seq<Machine>, steps: seq<Step>, canLie: string -> bool, n: nat)
    requires IsBehavior(states, steps, canLie) && n <= |steps|
    ensures BearersServed(states, steps, n)
  {
    hide Enabled, Apply, Serves, Bears;
    if n > 0 {
      BearersServedAt(states, steps, canLie, n - 1);
      var m, step := states[n - 1], steps[n - 1];
      assert Truthful(step, canLie) && Enabled(m, step) && states[n] == Apply(m, step);
      forall r <- states[n].requests, status, response | Bears(states[n].requests[r], status, response)
        ensures Served(states, steps, n, states[n].requests[r].k, states[n].requests[r].hash, status, response)
      {
        StepBears(m, step, r, status, response);
      }
    } else {
      assert states[0].requests == map[];
    }
  }

  lemma {:induction false} SettledServed(
      states: seq<Machine>, steps: seq<Step>, canLie: string -> bool, n: nat, k: RowKey)
    requires IsBehavior(states, steps, canLie) && n <= |steps| && Settled(states[n], k)
    ensures var row := states[n].rows[k]; Served(states, steps, n, k, row.hash, row.status, row.response)
  {
    hide Enabled, Apply, Serves, Bears;
    assert n > 0;
    var m, step := states[n - 1], steps[n - 1];
    InvAt(states, steps, canLie, n - 1);
    assert Truthful(step, canLie) && Enabled(m, step) && states[n] == Apply(m, step);
    if Settled(m, k) {
      StepKeepsSettled(m, step, k);
      SettledServed(states, steps, canLie, n - 1, k);
    } else {
      StepSettles(m, step, k);
      BearersServedAt(states, steps, canLie, n - 1);
    }
  }

  /**
   What stands in a settled row was earned in the run: a completed one holds 200 and the body of a submission that
   succeeded for its key and hash, an ambiguous one 202 and the body of one that ended in a recognised error.
   */
  lemma SettledWereServed(states: seq<Machine>, steps: seq<Step>, canLie: string -> bool, n: nat, k: RowKey)
    requires IsBehavior(states, steps, canLie) && n <= |steps| && Settled(states[n], k)
    ensures var row := states[n].rows[k];
            exists i :: 0 <= i < n && steps[i].Serve? && steps[i].r in states[i].requests
              && states[i].requests[steps[i].r].k == k && states[i].requests[steps[i].r].hash == row.hash
              && match row.status
                 case Completed => steps[i].outcome.Submitted? && row.response == Response(200, steps[i].outcome.body)
                 case Ambiguous =>
                   && steps[i].outcome.SubmitError? && IsTimeoutOrNetworkError(steps[i].outcome.error)
                   && row.response == Response(202, steps[i].outcome.pending)
                 case InProgress => false
  {
    hide IsTimeoutOrNetworkError;
    SettledServed(states, steps, canLie, n, k);
    var row := states[n].rows[k];
    var i :| 0 <= i < n && Serves(states[i], steps[i], k, row.hash, row.status, row.response);
  }

  /** And so is every answer that was not a replay, whether or not it could be recorded. */
  lemma AnsweredWereServed(states: seq<Machine>, steps: seq<Step>, canLie: string -> bool, n: nat, r: nat)
    requires IsBehavior(states, steps, canLie) && n <= |steps| && r in states[n].requests
    requires states[n].requests[r].phase.Answered? && states[n].requests[r].phase.answer.Sent?
    ensures var q, answer := states[n].requests[r], states[n].requests[r].phase.answer;
            exists i :: 0 <= i < n && steps[i].Serve? && steps[i].r in states[i].requests
              && states[i].requests[steps[i].r].k == q.k && states[i].requests[steps[i].r].hash == q.hash
              && match steps[i].outcome
                 case Submitted(body) => answer.status == Completed && answer.response == Response(200, body)
                 case SubmitError(error, pending, _) =>
                   && IsTimeoutOrNetworkError(error)
                   && answer.status == Ambiguous && answer.response == Response(202, pending)
                 case NotSubmitted => false
  {
    hide IsTimeoutOrNetworkError;
    BearersServedAt(states, steps, canLie, n);
    var q, answer := states[n].requests[r], states[n].requests[r].phase.answer;
    assert Bears(q, answer.status, answer.response);
    var i :| 0 <= i < n && Serves(states[i], steps[i], q.k, q.hash, answer.status, answer.response);
  }
}
