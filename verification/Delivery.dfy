/**
 Delivery tracking: workers read the recipients still under way, ask the mail server about them, record a changed
 status together with its event, and send a bounce for a permanent failure, claiming it first.
 */
module Delivery {
  import opened Wrappers

  datatype Status = Submitted | Queued | Sending | TemporaryFailure | Unknown | Delivered | Failed | Bounced

  predicate UnderWay(s: Status) {
    s.Submitted? || s.Queued? || s.Sending? || s.TemporaryFailure? || s.Unknown?
  }

  /** What the mail server reports of one recipient. */
  datatype Report = Report(delivered: string, smtpReply: string)

  // ---------------------------------------------------------------- reading a report

  predicate IsDigit(c: char) {
    '0' <= c <= '9'
  }

  /** The first digit anywhere in the reply is a 5. */
  ghost predicate FirstDigitIsFive(reply: string) {
    exists i :: 0 <= i < |reply| && reply[i] == '5' && forall j :: 0 <= j < i ==> !IsDigit(reply[j])
  }

  method IsPermanentError(reply: string) returns (permanent: bool)
    ensures permanent <==> FirstDigitIsFive(reply)
    ensures permanent <==>
            exists i :: 0 <= i < |reply| && reply[i] == '5' && forall j :: 0 <= j < i ==> !('0' <= reply[j] <= '9')
  {
    for i := 0 to |reply|
      invariant forall j :: 0 <= j < i ==> !IsDigit(reply[j])
    {
      if IsDigit(reply[i]) {
        return reply[i] == '5';
      }
    }
    return false;
  }

  /** The status a report stands for. No report, or a word not known, counts as sending. */
  ghost function Parsed(report: Option<Report>): Status {
    if report.None? then Sending
    else if report.value.delivered == "yes" then Delivered
    else if report.value.delivered == "no" then
      if FirstDigitIsFive(report.value.smtpReply) then Failed else TemporaryFailure
    else if report.value.delivered == "queued" then Queued
    else Sending
  }

  method ParseDeliveryStatus(report: Option<Report>) returns (status: Status)
    ensures status == Parsed(report)
    ensures report.None? || report.value.delivered !in {"yes", "no", "queued"} ==> status == Sending
    ensures report.Some? && report.value.delivered == "yes" ==> status == Delivered
    ensures report.Some? && report.value.delivered == "queued" ==> status == Queued
    ensures report.Some? && report.value.delivered == "no" ==>
              var reply := report.value.smtpReply;
              status == if exists i :: 0 <= i < |reply| && reply[i] == '5'
                                       && forall j :: 0 <= j < i ==> !('0' <= reply[j] <= '9')
                        then Failed else TemporaryFailure
  {
    if report.None? {
      return Sending;
    }
    match report.value.delivered {
      case "yes" => status := Delivered;
      case "no" =>
        var permanent := IsPermanentError(report.value.smtpReply);
        status := if permanent then Failed else TemporaryFailure;
      case "queued" => status := Queued;
      case _ => status := Sending;
    }
  }

  // ---------------------------------------------------------------- the machine

  datatype Pair = Pair(submission: string, recipient: string)

  datatype Row = Row(status: Status, bounceGenerated: bool)

  datatype Event = Event(pair: Pair, status: Status)

  /** A worker's batch: the statuses read, less the recipients dealt with, and the bounce to be claimed or sent. */
  datatype Poll = Poll(seen: map<Pair, Status>, toClaim: Option<Pair>, toSend: Option<Pair>)

  /** The rows, the workers in a poll, the events in the outbox, and the bounces the mail server was given. */
  datatype State = State(rows: map<Pair, Row>, polls: map<nat, Poll>, events: seq<Event>, bounces: seq<Pair>)

  datatype Step =
    | Send(pair: Pair)
    | Read(w: nat, batch: set<Pair>)
    | Skip(w: nat, pair: Pair)
    | Settle(w: nat, pair: Pair, status: Status, written: bool)
    | Claim(w: nat, written: bool)
    | Bounce(w: nat, created: bool)
    | Leave(w: nat)

  predicate Free(p: Poll) {
    p.toClaim.None? && p.toSend.None?
  }

  predicate Enabled(s: State, step: Step) {
    match step
    case Send(pair) => pair !in s.rows
    case Read(w, batch) => w !in s.polls && forall p <- batch :: p in s.rows && UnderWay(s.rows[p].status)
    case Skip(w, pair) => w in s.polls && pair in s.polls[w].seen && Free(s.polls[w])
    case Settle(w, pair, _, _) => w in s.polls && pair in s.polls[w].seen && Free(s.polls[w]) && pair in s.rows
    case Claim(w, _) => w in s.polls && s.polls[w].toClaim.Some? && s.polls[w].toClaim.value in s.rows
    case Bounce(w, _) => w in s.polls && s.polls[w].toSend.Some?
    case Leave(w) => w in s.polls
  }

  function Seen(rows: map<Pair, Row>, batch: set<Pair>): map<Pair, Status>
    requires batch <= rows.Keys
  {
    map p <- batch :: rows[p].status
  }

  /** A changed status is written with its event in one transaction; a permanent failure is bounced either way. */
  function Apply(s: State, step: Step): State
    requires Enabled(s, step)
  {
    match step
    case Send(pair) => s.(rows := s.rows[pair := Row(Submitted, false)])
    case Read(w, batch) =>
      s.(polls := s.polls[w := Poll(Seen(s.rows, batch), None, None)])
    case Skip(w, pair) => s.(polls := s.polls[w := Poll(s.polls[w].seen - {pair}, None, None)])
    case Settle(w, pair, status, written) =>
      var changed := status != s.polls[w].seen[pair];
      State(if changed && written then s.rows[pair := s.rows[pair].(status := status)] else s.rows,
            s.polls[w := Poll(s.polls[w].seen - {pair}, if changed && status.Failed? then Some(pair) else None, None)],
            s.events + if changed && written then [Event(pair, status)] else [],
            s.bounces)
    case Claim(w, written) =>
      var pair := s.polls[w].toClaim.value;
      var won := written && !s.rows[pair].bounceGenerated;
      s.(rows := if won then s.rows[pair := s.rows[pair].(bounceGenerated := true)] else s.rows,
      polls := s.polls[w := s.polls[w].(toClaim := None, toSend := if won then Some(pair) else None)])
    case Bounce(w, created) =>
      s.(polls := s.polls[w := s.polls[w].(toSend := None)],
      bounces := s.bounces + if created then [s.polls[w].toSend.value] else [])
    case Leave(w) => s.(polls := s.polls - {w})
  }

  predicate Runs(s: State, steps: seq<Step>, last: State)
    decreases |steps|
  {
    if steps == [] then s == last
    else Enabled(s, steps[0]) && Runs(Apply(s, steps[0]), steps[1..], last)
  }

  const START := State(map[], map[], [], [])

  /** A free worker may read a recipient exactly until it is delivered, failed or bounced. */
  lemma PolledUntilOver(s: State, w: nat, pair: Pair)
    requires w !in s.polls && pair in s.rows
    ensures Enabled(s, Read(w, {pair})) <==> s.rows[pair].status !in {Delivered, Failed, Bounced}
  {
    assert pair in {pair};
  }

  // ---------------------------------------------------------------- one bounce at most

  predicate Distinct(pairs: seq<Pair>) {
    forall i, j :: 0 <= i < j < |pairs| ==> pairs[i] != pairs[j]
  }

  /** Bounces, sent or about to be, were claimed, each by one worker. */
  ghost predicate BounceInv(s: State) {
    && Distinct(s.bounces)
    && (forall p <- s.bounces :: p in s.rows && s.rows[p].bounceGenerated)
    && (forall w <- s.polls | s.polls[w].toSend.Some? ::
          var p := s.polls[w].toSend.value; p in s.rows && s.rows[p].bounceGenerated && p !in s.bounces)
    && (forall w <- s.polls, v <- s.polls | w != v && s.polls[w].toSend.Some? :: s.polls[v].toSend != s.polls[w].toSend)
  }

  lemma StepBounces(s: State, step: Step)
    requires BounceInv(s) && Enabled(s, step)
    ensures BounceInv(Apply(s, step))
  {
  }

  lemma {:induction false} RunBounces(s: State, steps: seq<Step>, last: State)
    requires BounceInv(s) && Runs(s, steps, last)
    ensures BounceInv(last)
    decreases |steps|
  {
    if steps != [] {
      StepBounces(s, steps[0]);
      RunBounces(Apply(s, steps[0]), steps[1..], last);
    }
  }

  /** Some worker in the run saw this recipient fail for good. */
  ghost predicate Condemned(steps: seq<Step>, pair: Pair) {
    exists i :: 0 <= i < |steps| && steps[i].Settle? && steps[i].pair == pair && steps[i].status.Failed?
  }

  /** Bounced, or on the way to it. */
  ghost predicate Slated(s: State, pair: Pair) {
    pair in s.bounces || exists w <- s.polls :: s.polls[w].toClaim == Some(pair) || s.polls[w].toSend == Some(pair)
  }

  lemma StepSlates(s: State, step: Step, pair: Pair)
    requires Enabled(s, step) && Slated(Apply(s, step), pair) && !Slated(s, pair)
    ensures step.Settle? && step.pair == pair && step.status.Failed?
  {
    var s' := Apply(s, step);
    if pair !in s'.bounces {
      var w :| w in s'.polls && (s'.polls[w].toClaim == Some(pair) || s'.polls[w].toSend == Some(pair));
      assert w in s.polls ==> s.polls[w].toClaim != Some(pair) && s.polls[w].toSend != Some(pair);
    }
  }

  lemma {:induction false} SlatedWereCondemned(s: State, steps: seq<Step>, last: State, pair: Pair)
    requires Runs(s, steps, last) && Slated(last, pair) && !Slated(s, pair)
    ensures Condemned(steps, pair)
    decreases |steps|
  {
    if steps != [] {
      var s' := Apply(s, steps[0]);
      if Slated(s', pair) {
        StepSlates(s, steps[0], pair);
      } else {
        SlatedWereCondemned(s', steps[1..], last, pair);
        var rest := steps[1..];
        var i :| 0 <= i < |rest| && rest[i].Settle? && rest[i].pair == pair && rest[i].status.Failed?;
        assert rest[i] == steps[i + 1];
      }
    }
  }

  /** However many workers there are, and wherever they stop: no two bounces for a recipient, and none uncalled for. */
  lemma BouncedAtMostOnce(steps: seq<Step>, last: State)
    requires Runs(START, steps, last)
    ensures forall i, j :: 0 <= i < j < |last.bounces| ==> last.bounces[i] != last.bounces[j]
    ensures forall p <- last.bounces :: Condemned(steps, p)
  {
    RunBounces(START, steps, last);
    forall p <- last.bounces ensures Condemned(steps, p) {
      SlatedWereCondemned(START, steps, last, p);
    }
  }

  // ---------------------------------------------------------------- the events of a recipient

  /** The statuses a recipient went through, according to its events. */
  function Trail(events: seq<Event>, pair: Pair): (t: seq<Status>)
    ensures t != []
  {
    if events == [] then [Submitted]
    else
      var e := events[|events| - 1];
      Trail(events[..|events| - 1], pair) + if e.pair == pair then [e.status] else []
  }

  function Latest(events: seq<Event>, pair: Pair): Status {
    Trail(events, pair)[|Trail(events, pair)| - 1]
  }

  lemma TrailOn(events: seq<Event>, e: Event, pair: Pair)
    ensures Trail(events + [e], pair) == Trail(events, pair) + if e.pair == pair then [e.status] else []
    ensures Latest(events + [e], pair) == if e.pair == pair then e.status else Latest(events, pair)
  {
    assert (events + [e])[..|events|] == events;
  }

  /** Row and events always agree, whoever wrote them. */
  ghost predicate Agree(s: State) {
    && (forall p <- s.rows :: s.rows[p].status == Latest(s.events, p))
    && (forall e <- s.events :: e.pair in s.rows)
  }

  lemma {:induction false} NoEvents(events: seq<Event>, pair: Pair)
    requires forall e <- events :: e.pair != pair
    ensures Trail(events, pair) == [Submitted]
  {
    if events != [] {
      assert events[|events| - 1] in events;
      assert forall e <- events[..|events| - 1] :: e in events;
      NoEvents(events[..|events| - 1], pair);
    }
  }

  lemma StepAgrees(s: State, step: Step)
    requires Agree(s) && Enabled(s, step)
    ensures Agree(Apply(s, step))
  {
    hide Trail, Latest;
    var s' := Apply(s, step);
    match step {
      case Send(pair) =>
        NoEvents(s.events, pair);
        assert Latest(s.events, pair) == Submitted by { LatestOfOne(s.events, pair); }
      case Settle(w, pair, status, written) =>
        if s'.events != s.events {
          forall p <- s'.rows ensures s'.rows[p].status == Latest(s'.events, p) {
            TrailOn(s.events, Event(pair, status), p);
          }
        }
      case _ =>
    }
  }

  lemma LatestOfOne(events: seq<Event>, pair: Pair)
    requires Trail(events, pair) == [Submitted]
    ensures Latest(events, pair) == Submitted
  {
  }

  lemma {:induction false} RunAgrees(s: State, steps: seq<Step>, last: State)
    requires Agree(s) && Runs(s, steps, last)
    ensures Agree(last)
    decreases |steps|
  {
    if steps != [] {
      StepAgrees(s, steps[0]);
      RunAgrees(Apply(s, steps[0]), steps[1..], last);
    }
  }

  /** Every step of the trail is a change, and a change of a recipient still under way. */
  predicate Proper(trail: seq<Status>) {
    forall i :: 0 <= i < |trail| - 1 ==> UnderWay(trail[i]) && trail[i] != trail[i + 1]
  }

  lemma ProperOn(trail: seq<Status>, next: Status)
    requires trail != []
    ensures Proper(trail + [next]) <==> Proper(trail) && UnderWay(trail[|trail| - 1]) && next != trail[|trail| - 1]
  {
    var more := trail + [next];
    assert more[|trail| - 1] == trail[|trail| - 1] && more[|trail|] == next;
    if Proper(more) {
      forall i | 0 <= i < |trail| - 1 ensures UnderWay(trail[i]) && trail[i] != trail[i + 1] {
        assert more[i] == trail[i] && more[i + 1] == trail[i + 1];
      }
    }
    if Proper(trail) {
      forall i | 0 <= i < |trail| - 1 ensures UnderWay(more[i]) && more[i] != more[i + 1] {
        assert more[i] == trail[i] && more[i + 1] == trail[i + 1];
      }
    }
  }

  /** A settlement of the recipient that is written as a change is one, and of a recipient still under way. */
  predicate Current(s: State, step: Step, pair: Pair)
    requires Enabled(s, step)
  {
    step.Settle? && step.pair == pair && step.written && step.status != s.polls[step.w].seen[pair] ==>
      UnderWay(s.rows[pair].status) && step.status != s.rows[pair].status
  }

  /** Exactly which steps leave a recipient's trail proper, whatever their workers had read. */
  lemma SettleProperIff(s: State, step: Step, pair: Pair)
    requires Agree(s) && Enabled(s, step)
    ensures Proper(Trail(Apply(s, step).events, pair)) <==> Proper(Trail(s.events, pair)) && Current(s, step, pair)
  {
    hide Trail, Proper;
    if step.Settle? && step.written && step.status != s.polls[step.w].seen[step.pair] {
      TrailOn(s.events, Event(step.pair, step.status), pair);
      if step.pair == pair {
        ProperOn(Trail(s.events, pair), step.status);
      } else {
        assert Trail(s.events, pair) + [] == Trail(s.events, pair);
      }
    } else {
      assert s.events + [] == s.events;
    }
  }

  /** No settlement of the recipient in the run was stale. */
  predicate AllCurrent(s: State, steps: seq<Step>, last: State, pair: Pair)
    requires Runs(s, steps, last)
    decreases |steps|
  {
    steps == [] || (Current(s, steps[0], pair) && AllCurrent(Apply(s, steps[0]), steps[1..], last, pair))
  }

  lemma {:induction false} RunProperIff(s: State, steps: seq<Step>, last: State, pair: Pair)
    requires Agree(s) && Runs(s, steps, last)
    ensures Proper(Trail(last.events, pair)) <==> Proper(Trail(s.events, pair)) && AllCurrent(s, steps, last, pair)
    decreases |steps|
  {
    hide Trail, Proper, Current, Agree;
    if steps != [] {
      StepAgrees(s, steps[0]);
      SettleProperIff(s, steps[0], pair);
      RunProperIff(Apply(s, steps[0]), steps[1..], last, pair);
    }
  }

  /**
   With any number of workers, stopping anywhere: a recipient's events are a sequence of changes that nothing follows
   once it is delivered or failed, if and only if every update written for it was current when it was written.
   */
  lemma ProperIffCurrent(steps: seq<Step>, last: State, pair: Pair)
    requires Runs(START, steps, last)
    ensures var t := Trail(last.events, pair);
            (forall i :: 0 <= i < |t| - 1 ==> t[i] !in {Delivered, Failed, Bounced} && t[i] != t[i + 1])
            <==> AllCurrent(START, steps, last, pair)
  {
    RunProperIff(START, steps, last, pair);
    assert Trail(START.events, pair) == [Submitted];
  }

  // ---------------------------------------------------------------- one worker

  /** A run in which a worker reads its batch only when no other is in a poll. */
  predicate RunsAlone(s: State, steps: seq<Step>, last: State)
    decreases |steps|
  {
    if steps == [] then s == last
    else
      && Enabled(s, steps[0]) && (steps[0].Read? ==> s.polls == map[])
      && RunsAlone(Apply(s, steps[0]), steps[1..], last)
  }

  /** What the worker read is still so. */
  ghost predicate UpToDate(s: State) {
    && (forall w <- s.polls, v <- s.polls :: w == v)
    && (forall w <- s.polls, p <- s.polls[w].seen ::
          p in s.rows && s.rows[p].status == s.polls[w].seen[p] && UnderWay(s.rows[p].status))
  }

  ghost predicate AllProper(s: State) {
    forall p <- s.rows :: Proper(Trail(s.events, p))
  }

  lemma StepAlone(s: State, step: Step)
    requires Agree(s) && UpToDate(s) && AllProper(s) && Enabled(s, step) && (step.Read? ==> s.polls == map[])
    ensures UpToDate(Apply(s, step)) && AllProper(Apply(s, step))
  {
    hide Trail, Proper, Latest;
    var s' := Apply(s, step);
    match step {
      case Send(pair) =>
        NoEvents(s.events, pair);
        assert Proper([Submitted]) by { OneIsProper(); }
      case Settle(w, pair, status, written) =>
        forall p <- s'.rows ensures Proper(Trail(s'.events, p)) {
          SettleProperIff(s, step, p);
        }
      case _ =>
    }
  }

  lemma OneIsProper()
    ensures Proper([Submitted])
  {
  }

  lemma {:induction false} RunAlone(s: State, steps: seq<Step>, last: State)
    requires Agree(s) && UpToDate(s) && AllProper(s) && RunsAlone(s, steps, last)
    ensures AllProper(last) && Agree(last)
    decreases |steps|
  {
    if steps != [] {
      StepAgrees(s, steps[0]);
      StepAlone(s, steps[0]);
      RunAlone(Apply(s, steps[0]), steps[1..], last);
    }
  }

  /**
   With one worker a recipient's events are exactly its status changes: each differs from the one before, none follows
   delivered or failed, and the last is the status in the row.
   */
  lemma EventsAreChanges(steps: seq<Step>, last: State, pair: Pair)
    requires RunsAlone(START, steps, last) && pair in last.rows
    ensures var t := Trail(last.events, pair);
            && (forall i :: 0 <= i < |t| - 1 ==> t[i] !in {Delivered, Failed, Bounced} && t[i] != t[i + 1])
            && t[|t| - 1] == last.rows[pair].status
  {
    RunAlone(START, steps, last);
  }

  lemma {:induction false} RunsOn(s: State, steps: seq<Step>, last: State, step: Step)
    requires Runs(s, steps, last) && Enabled(last, step)
    ensures Runs(s, steps + [step], Apply(last, step))
    decreases |steps|
  {
    if steps == [] {
      assert Runs(Apply(s, step), [step][1..], Apply(s, step));
    } else {
      assert (steps + [step])[0] == steps[0] && (steps + [step])[1..] == steps[1..] + [step];
      RunsOn(Apply(s, steps[0]), steps[1..], last, step);
    }
  }

  /** With two workers a recipient once delivered can be under way again. */
  lemma TwoWorkersReopen(pair: Pair) returns (steps: seq<Step>, last: State)
    ensures Runs(START, steps, last)
    ensures Trail(last.events, pair) == [Submitted, Delivered, Queued]
  {
    var sent := State(map[pair := Row(Submitted, false)], map[], [], []);
    var both := Poll(map[pair := Submitted], None, None);
    var reading := sent.(polls := map[0 := both]);
    var read := sent.(polls := map[0 := both, 1 := both]);
    assert Runs(START, [], START);
    RunsOn(START, [], START, Send(pair));
    assert Apply(START, Send(pair)) == sent;
    RunsOn(START, [] + [Send(pair)], sent, Read(0, {pair}));
    assert Seen(sent.rows, {pair}) == map[pair := Submitted];
    assert Apply(sent, Read(0, {pair})) == reading;
    RunsOn(START, [] + [Send(pair)] + [Read(0, {pair})], reading, Read(1, {pair}));
    assert Apply(reading, Read(1, {pair})) == read;
    steps, last := SettleBoth([] + [Send(pair)] + [Read(0, {pair})] + [Read(1, {pair})], read, pair);
  }

  lemma SettleBoth(run: seq<Step>, read: State, pair: Pair) returns (steps: seq<Step>, last: State)
    requires Runs(START, run, read) && pair in read.rows && read.events == []
    requires var poll := Poll(map[pair := Submitted], None, None); read.polls == map[0 := poll, 1 := poll]
    ensures Runs(START, steps, last)
    ensures Trail(last.events, pair) == [Submitted, Delivered, Queued]
  {
    hide Runs, Trail;
    var one, two := Settle(0, pair, Delivered, true), Settle(1, pair, Queued, true);
    RunsOn(START, run, read, one);
    var between := Apply(read, one);
    assert between.events == [Event(pair, Delivered)];
    RunsOn(START, run + [one], between, two);
    steps, last := run + [one] + [two], Apply(between, two);
    NoEvents([], pair);
    TrailOn([], Event(pair, Delivered), pair);
    TrailOn([Event(pair, Delivered)], Event(pair, Queued), pair);
    assert [] + [Event(pair, Delivered)] == [Event(pair, Delivered)];
  }

  // ---------------------------------------------------------------- the worker

  /** How the database and the mail server answer while one recipient is dealt with. */
  datatype Fate = Missing | Reported(report: Option<Report>, written: bool, claimWritten: bool, created: bool)

  /** The steps dealing with one recipient takes. */
  ghost function Script(row: Row, current: Status, pair: Pair, fate: Fate): seq<Step> {
    if fate.Missing? then [Skip(0, pair)] else Following(row, current, pair, Parsed(fate.report), fate)
  }

  ghost function Following(row: Row, current: Status, pair: Pair, status: Status, fate: Fate): seq<Step>
    requires fate.Reported?
  {
    [Settle(0, pair, status, fate.written)] +
    if status != current && status.Failed? then
      [Claim(0, fate.claimWritten)] +
      if fate.claimWritten && !row.bounceGenerated then [Bounce(0, fate.created)] else []
    else []
  }

  /** And the first of a batch. */
  ghost function Scripts(rows: map<Pair, Row>, batch: seq<Pair>, fates: seq<Fate>, n: nat): seq<Step>
    requires n <= |batch| == |fates| && forall p <- batch :: p in rows
  {
    if n == 0 then []
    else
      var p := batch[n - 1];
      Scripts(rows, batch, fates, n - 1) + Script(rows[p], rows[p].status, p, fates[n - 1])
  }

  predicate OnlyChanges(was: map<Pair, Row>, now: map<Pair, Row>, pair: Pair) {
    now.Keys == was.Keys && forall p <- was :: p != pair ==> now[p] == was[p]
  }

  class Worker {
    var rows: map<Pair, Row>
    var events: seq<Event>
    var bounces: seq<Pair>

    ghost function Busy(p: Poll): State
      reads this
    {
      State(rows, map[0 := p], events, bounces)
    }

    ghost function Idle(): State
      reads this
    {
      State(rows, map[], events, bounces)
    }

    method TryClaimBounceGeneration(pair: Pair, written: bool) returns (claimed: bool)
      requires pair in rows
      modifies this`rows
      ensures claimed == (written && !old(rows)[pair].bounceGenerated)
      ensures rows == if claimed then old(rows)[pair := old(rows)[pair].(bounceGenerated := true)] else old(rows)
    {
      claimed := written && !rows[pair].bounceGenerated;
      if claimed {
        rows := rows[pair := rows[pair].(bounceGenerated := true)];
      }
    }

    /** Claim first, then create: a bounce that fails after its claim is not tried again. */
    method GenerateBounce(pair: Pair, claimWritten: bool, created: bool, ghost seen: map<Pair, Status>)
      requires pair in rows
      modifies this`rows, this`bounces
      ensures OnlyChanges(old(rows), rows, pair)
      ensures rows[pair] == Row(old(rows)[pair].status, old(rows)[pair].bounceGenerated || claimWritten)
      ensures bounces == old(bounces) + if claimWritten && !old(rows)[pair].bounceGenerated && created then [pair]
                                        else []
      ensures var before := old(Busy(Poll(seen, Some(pair), None)));
              && Enabled(before, Claim(0, claimWritten))
              && var between := Apply(before, Claim(0, claimWritten));
                 Busy(Poll(seen, None, None))
                 == if between.polls[0].toSend.Some? then Apply(between, Bounce(0, created)) else between
    {
      var claimed := TryClaimBounceGeneration(pair, claimWritten);
      if claimed && created {
        bounces := bounces + [pair];
      }
    }

    /** A status and its event, in one transaction, if the status changed. */
    method UpdateDeliveryStatusWithOutbox(pair: Pair, current: Status, status: Status, written: bool,
                                          ghost seen: map<Pair, Status>)
      requires pair in rows && pair in seen && seen[pair] == current
      modifies this`rows, this`events
      ensures OnlyChanges(old(rows), rows, pair)
      ensures rows[pair] == Row(if written && status != current then status else old(rows)[pair].status,
                                old(rows)[pair].bounceGenerated)
      ensures events == old(events) + if written && status != current then [Event(pair, status)] else []
      ensures var before := old(Busy(Poll(seen, None, None)));
              && Enabled(before, Settle(0, pair, status, written))
              && Busy(Settled(seen, pair, status)) == Apply(before, Settle(0, pair, status, written))
    {
      if status != current && written {
        rows := rows[pair := rows[pair].(status := status)];
        events := events + [Event(pair, status)];
      }
      assert events + [] == events;
    }

    /** The recipient's row, events and bounces after it was dealt with. */
    twostate predicate DealtWith(pair: Pair, current: Status, fate: Fate)
      requires pair in old(rows) && pair in rows
      reads this
    {
      var was := old(rows)[pair];
      if fate.Missing? then rows[pair] == was && events == old(events) && bounces == old(bounces)
      else
        var status := Parsed(fate.report);
        var bounced := status != current && status.Failed? && fate.claimWritten;
        && rows[pair] == Row(if fate.written && status != current then status else was.status,
                             was.bounceGenerated || bounced)
        && events == old(events) + (if fate.written && status != current then [Event(pair, status)] else [])
        && bounces == old(bounces) + (if bounced && !was.bounceGenerated && fate.created then [pair] else [])
    }

    /** One recipient: its update, and, written or not, the bounce of a new permanent failure. */
    method Process(pair: Pair, current: Status, fate: Fate,
                   ghost seen: map<Pair, Status>, ghost start: State, ghost run: seq<Step>)
      returns (ghost steps: seq<Step>)
      requires pair in rows && pair in seen && seen[pair] == current
      requires Runs(start, run, Busy(Poll(seen, None, None)))
      modifies this
      ensures OnlyChanges(old(rows), rows, pair) && DealtWith(pair, current, fate)
      ensures Runs(start, steps, Busy(Poll(seen - {pair}, None, None)))
      ensures steps == run + Script(old(rows)[pair], current, pair, fate)
    {
      hide Runs, Apply, Enabled, FirstDigitIsFive;
      ghost var before := Busy(Poll(seen, None, None));
      if fate.Missing? {
        Skipped(before, seen, pair);
        RunsOn(start, run, before, Skip(0, pair));
        return run + [Skip(0, pair)];
      }
      var status := ParseDeliveryStatus(fate.report);
      hide Parsed;
      steps := Follow(pair, current, status, fate, seen, start, run);
    }

    /** The update of a recipient whose status is now known, and its bounce. */
    method Follow(pair: Pair, current: Status, status: Status, fate: Fate,
                  ghost seen: map<Pair, Status>, ghost start: State, ghost run: seq<Step>)
      returns (ghost steps: seq<Step>)
      requires fate.Reported? && pair in rows && pair in seen && seen[pair] == current
      requires Runs(start, run, Busy(Poll(seen, None, None)))
      modifies this
      ensures OnlyChanges(old(rows), rows, pair)
      ensures var was, bounced := old(rows)[pair], status != current && status.Failed? && fate.claimWritten;
              && rows[pair] == Row(if fate.written && status != current then status else was.status,
                                   was.bounceGenerated || bounced)
              && events == old(events) + (if fate.written && status != current then [Event(pair, status)] else [])
              && bounces == old(bounces) + (if bounced && !was.bounceGenerated && fate.created then [pair] else [])
      ensures Runs(start, steps, Busy(Poll(seen - {pair}, None, None)))
      ensures steps == run + Following(old(rows)[pair], current, pair, status, fate)
    {
      hide Runs, Apply, Enabled;
      ghost var before := Busy(Poll(seen, None, None));
      UpdateDeliveryStatusWithOutbox(pair, current, status, fate.written, seen);
      ghost var settle := Settle(0, pair, status, fate.written);
      RunsOn(start, run, before, settle);
      steps := run + [settle];
      if status != current && status.Failed? {
        ghost var between := Busy(Settled(seen, pair, status));
        GenerateBounce(pair, fate.claimWritten, fate.created, seen - {pair});
        steps := BounceOn(start, steps, between, Busy(Poll(seen - {pair}, None, None)), fate, pair);
      }
    }

    /** One turn of the loop over the batch. */
    method ProcessNext(batch: seq<Pair>, fates: seq<Fate>, i: nat, current: map<Pair, Status>,
                       ghost was: map<Pair, Row>, ghost seen: map<Pair, Status>,
                       ghost start: State, ghost run: seq<Step>)
      returns (ghost steps: seq<Step>)
      requires i < |batch| == |fates| && Ahead(was, rows, seen, current, batch, i)
      requires run == [Read(0, set p <- batch)] + Scripts(was, batch, fates, i)
      requires Runs(start, run, Busy(Poll(seen, None, None)))
      requires start.rows == was && DealtUpto(start, Idle(), batch, fates, i)
      modifies this
      ensures DealtUpto(start, Idle(), batch, fates, i + 1)
      ensures Ahead(was, rows, seen - {batch[i]}, current, batch, i + 1)
      ensures steps == [Read(0, set p <- batch)] + Scripts(was, batch, fates, i + 1)
      ensures Runs(start, steps, Busy(Poll(seen - {batch[i]}, None, None)))
    {
      hide Runs, Script, Parsed, DealtUpto;
      ghost var before, earlier := rows, Idle();
      steps := Process(batch[i], current[batch[i]], fates[i], seen, start, run);
      DealtNext(start, earlier, Idle(), batch, fates, i);
      AheadNext(was, before, rows, seen, current, batch, i);
    }

    /** A batch of an account's recipients with the statuses read, one after another. */
    method ProcessAccountSubmissions(batch: seq<Pair>, fates: seq<Fate>) returns (ghost steps: seq<Step>)
      requires Distinct(batch) && |fates| == |batch|
      requires forall p <- batch :: p in rows && UnderWay(rows[p].status)
      modifies this
      ensures steps == [Read(0, set p <- batch)] + Scripts(old(rows), batch, fates, |batch|) + [Leave(0)]
      ensures Runs(old(Idle()), steps, Idle())
      ensures rows.Keys == old(rows).Keys && forall p <- rows | p !in batch :: rows[p] == old(rows)[p]
      ensures forall j :: 0 <= j < |batch| ==>
                var was, now, fate := old(rows)[batch[j]], rows[batch[j]], fates[j];
                && now.status == (if fate.Reported? && fate.written then Parsed(fate.report) else was.status)
                && now.bounceGenerated == (was.bounceGenerated || Condemns(was, fate))
      ensures forall p: Pair ::
                p in bounces <==>
                || p in old(bounces)
                || exists j :: 0 <= j < |batch| && batch[j] == p && !old(rows)[p].bounceGenerated
                               && Condemns(old(rows)[p], fates[j]) && fates[j].created
    {
      ghost var start := Idle();
      var current := map p <- batch :: rows[p].status;
      ghost var seen: map<Pair, Status> := current;
      steps := Started(start, batch, current, Busy(Poll(seen, None, None)));
      for i := 0 to |batch|
        invariant Ahead(start.rows, rows, seen, current, batch, i)
        invariant steps == [Read(0, set p <- batch)] + Scripts(start.rows, batch, fates, i)
        invariant Runs(start, steps, Busy(Poll(seen, None, None)))
        invariant DealtUpto(start, Idle(), batch, fates, i)
      {
        hide Runs, Scripts, Ahead, DealtUpto;
        steps := ProcessNext(batch, fates, i, current, start.rows, seen, start, steps);
        seen := seen - {batch[i]};
      }
      steps := Ended(start, steps, Busy(Poll(seen, None, None)), Idle());
      assert batch[..|batch|] == batch;
    }
  }

  /** The report says that the recipient has failed for good, which it had not before, and the claim is written. */
  ghost predicate Condemns(was: Row, fate: Fate) {
    fate.Reported? && Parsed(fate.report).Failed? && !was.status.Failed? && fate.claimWritten
  }

  /** The first recipients of a batch dealt with, and the others as they were. */
  ghost predicate DealtUpto(was: State, now: State, batch: seq<Pair>, fates: seq<Fate>, n: nat) {
    && |fates| == |batch| && n <= |batch| && Distinct(batch) && (forall p <- batch :: p in was.rows)
    && now.rows.Keys == was.rows.Keys
    && (forall p <- was.rows | p !in batch[..n] :: now.rows[p] == was.rows[p])
    && (forall j :: 0 <= j < n ==>
          var row, fate := was.rows[batch[j]], fates[j];
          && now.rows[batch[j]].status == (if fate.Reported? && fate.written then Parsed(fate.report) else row.status)
          && now.rows[batch[j]].bounceGenerated == (row.bounceGenerated || Condemns(row, fate)))
    && (forall p: Pair ::
          p in now.bounces <==>
          || p in was.bounces
          || exists j :: 0 <= j < n && batch[j] == p && !was.rows[p].bounceGenerated
                         && Condemns(was.rows[p], fates[j]) && fates[j].created)
  }

  lemma DealtNext(was: State, before: State, now: State, batch: seq<Pair>, fates: seq<Fate>, n: nat)
    requires n < |batch| && DealtUpto(was, before, batch, fates, n) && OnlyChanges(before.rows, now.rows, batch[n])
    requires var row, fate := was.rows[batch[n]], fates[n];
             && now.rows[batch[n]].status ==
                (if fate.Reported? && fate.written then Parsed(fate.report) else row.status)
             && now.rows[batch[n]].bounceGenerated == (row.bounceGenerated || Condemns(row, fate))
             && now.bounces == before.bounces + if !row.bounceGenerated && Condemns(row, fate) && fate.created
                                                then [batch[n]] else []
    ensures DealtUpto(was, now, batch, fates, n + 1)
  {
    hide Condemns, Parsed;
    assert batch[..n + 1] == batch[..n] + [batch[n]];
  }

  /** The recipients still ahead are as they were read. */
  ghost predicate Ahead(was: map<Pair, Row>, now: map<Pair, Row>, seen: map<Pair, Status>, current: map<Pair, Status>,
                        batch: seq<Pair>, n: nat) {
    && now.Keys == was.Keys && Distinct(batch) && n <= |batch|
    && (forall p <- batch :: p in was && p in current && current[p] == was[p].status)
    && (forall j :: n <= j < |batch| ==>
                      && now[batch[j]] == was[batch[j]]
                      && batch[j] in seen && seen[batch[j]] == current[batch[j]])
  }

  lemma AheadNext(was: map<Pair, Row>, before: map<Pair, Row>, now: map<Pair, Row>, seen: map<Pair, Status>,
                  current: map<Pair, Status>, batch: seq<Pair>, n: nat)
    requires n < |batch| && Ahead(was, before, seen, current, batch, n) && OnlyChanges(before, now, batch[n])
    ensures Ahead(was, now, seen - {batch[n]}, current, batch, n + 1)
  {
  }

  function Settled(seen: map<Pair, Status>, pair: Pair, status: Status): Poll
    requires pair in seen
  {
    Poll(seen - {pair}, if status != seen[pair] && status.Failed? then Some(pair) else None, None)
  }

  lemma Skipped(s: State, seen: map<Pair, Status>, pair: Pair)
    requires s.polls == map[0 := Poll(seen, None, None)] && pair in seen
    ensures Enabled(s, Skip(0, pair))
    ensures Apply(s, Skip(0, pair)) == s.(polls := map[0 := Poll(seen - {pair}, None, None)])
  {
  }

  lemma Started(s: State, batch: seq<Pair>, current: map<Pair, Status>, busy: State) returns (steps: seq<Step>)
    requires s.polls == map[] && forall p <- batch :: p in s.rows && UnderWay(s.rows[p].status)
    requires current == map p <- batch :: s.rows[p].status
    requires busy == s.(polls := map[0 := Poll(current, None, None)])
    ensures Runs(s, steps, busy) && steps == [Read(0, set p <- batch)]
  {
    var pairs := set p <- batch;
    assert Seen(s.rows, pairs) == current;
    assert Runs(s, [], s);
    RunsOn(s, [], s, Read(0, pairs));
    steps := [] + [Read(0, pairs)];
  }

  lemma Ended(s: State, run: seq<Step>, busy: State, idle: State) returns (steps: seq<Step>)
    requires Runs(s, run, busy) && busy.polls.Keys == {0} && idle == busy.(polls := map[])
    ensures Runs(s, steps, idle) && steps == run + [Leave(0)]
  {
    RunsOn(s, run, busy, Leave(0));
    assert busy.polls - {0} == map[];
    steps := run + [Leave(0)];
  }

  lemma BounceOn(s: State, run: seq<Step>, before: State, after: State, fate: Fate, pair: Pair)
    returns (steps: seq<Step>)
    requires fate.Reported? && Runs(s, run, before) && Enabled(before, Claim(0, fate.claimWritten))
    requires before.polls[0].toClaim == Some(pair)
    requires var between := Apply(before, Claim(0, fate.claimWritten));
             after == if between.polls[0].toSend.Some? then Apply(between, Bounce(0, fate.created)) else between
    ensures Runs(s, steps, after)
    ensures steps == run + ([Claim(0, fate.claimWritten)] +
                            if fate.claimWritten && !before.rows[pair].bounceGenerated then [Bounce(0, fate.created)]
                            else [])
  {
    hide Runs;
    var claim := Claim(0, fate.claimWritten);
    RunsOn(s, run, before, claim);
    steps := run + [claim];
    if Apply(before, claim).polls[0].toSend.Some? {
      RunsOn(s, steps, Apply(before, claim), Bounce(0, fate.created));
      steps := steps + [Bounce(0, fate.created)];
    }
  }
}
