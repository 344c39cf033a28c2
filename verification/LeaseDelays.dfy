/** The retry delays that whole runs of the job queue write, and when they wrap around. */
module LeaseDelays {
  import opened JobQueue
  import opened LeaseProtocol

  /** A failure mark that queues its job again makes it wait exactly two to the count minutes. */
  predicate DelaysExactly(m: Machine, step: Step)
    requires Enabled(m, step) && m.history.Keys == m.jobs.Keys
  {
    step.Fail? && step.written ==>
      WritesExactly(m.jobs, m.execs[step.e].job, m.execs[step.e].phase.count, m.maxAttempts, m.now)
  }

  ghost predicate RunsDelayExactly(maxAttempts: int) {
    forall states: seq<Machine>, steps: seq<Step>, i: nat |
      IsBehavior(states, steps) && states[0].maxAttempts == maxAttempts && i < |steps| ::
      Inv(states[i]) && Enabled(states[i], steps[i]) && DelaysExactly(states[i], steps[i])
  }

  lemma {:induction false} LimitKept(states: seq<Machine>, steps: seq<Step>, n: nat)
    requires IsBehavior(states, steps) && n <= |steps|
    ensures states[n].maxAttempts == states[0].maxAttempts
  {
    if n > 0 {
      LimitKept(states, steps, n - 1);
      assert states[n] == Apply(states[n - 1], steps[n - 1]);
    }
  }

  /** Some run leads here. */
  ghost predicate Reachable(m: Machine, maxAttempts: int) {
    exists states: seq<Machine>, steps: seq<Step> ::
      IsBehavior(states, steps) && states[0].maxAttempts == maxAttempts && states[|steps|] == m
  }

  lemma ReachesStart(maxAttempts: int)
    ensures Reachable(Start(0, maxAttempts), maxAttempts)
  {
    var states, steps := [Start(0, maxAttempts)], [];
    assert IsBehavior(states, steps) && states[|steps|] == Start(0, maxAttempts);
  }

  lemma ReachesNext(m: Machine, step: Step, maxAttempts: int) returns (m': Machine)
    requires Reachable(m, maxAttempts) && Enabled(m, step) && Timely(m, step)
    ensures m' == Apply(m, step) && Reachable(m', maxAttempts)
  {
    hide Enabled, Apply, Timely, Start;
    m' := Apply(m, step);
    var states: seq<Machine>, steps: seq<Step> :|
      IsBehavior(states, steps) && states[0].maxAttempts == maxAttempts && states[|steps|] == m;
    var states', steps' := states + [m'], steps + [step];
    forall i {:trigger steps'[i]} | 0 <= i < |steps'|
      ensures Enabled(states'[i], steps'[i]) && Timely(states'[i], steps'[i])
      ensures states'[i + 1] == Apply(states'[i], steps'[i])
    {
      if i < |steps| {
        assert steps'[i] == steps[i];
      }
    }
    assert IsBehavior(states', steps') && states'[|steps'|] == m';
  }

  /** One job has been claimed and put back k times, and nobody holds it. */
  predicate WaitsAfter(m: Machine, k: nat, maxAttempts: int) {
    && m.now == 0 && m.maxAttempts == maxAttempts && m.jobs.Keys == {""} == m.history.Keys
    && Claimable(m.jobs[""], 0) && m.jobs[""].attempts == k && k !in m.execs
    && forall e <- m.execs :: e < k
  }

  lemma {:induction false} ReachesCount(k: nat, maxAttempts: int) returns (m: Machine)
    requires k < maxAttempts
    ensures Reachable(m, maxAttempts) && WaitsAfter(m, k, maxAttempts)
  {
    hide Reachable;
    ReachesStart(maxAttempts);
    if k == 0 {
      m := ReachesNext(Start(0, maxAttempts), Enqueue(""), maxAttempts);
    } else {
      m := ReachesCount(k - 1, maxAttempts);
      m := ReachesNext(m, Claim(k - 1, "", ""), maxAttempts);
      m := ReachesNext(m, Finish(k - 1, Failure(true)), maxAttempts);
      m := ReachesNext(m, Wait(k - 1, 0, true), maxAttempts);
    }
  }

  /** With more than 28 attempts some run writes a wrapped delay. */
  lemma SomeRunWraps(maxAttempts: int)
    requires maxAttempts > 28
    ensures !RunsDelayExactly(maxAttempts)
  {
    hide Reachable, RunsDelayExactly, DelaysExactly, Delay;
    var m := ReachesCount(26, maxAttempts);
    m := ReachesNext(m, Claim(26, "", ""), maxAttempts);
    m := ReachesNext(m, Finish(26, Failure(false)), maxAttempts);
    m := ReachesNext(m, Read(26, true), maxAttempts);
    WrapsAt(m, 26);
    WrappedStep(m, Fail(26, true), maxAttempts);
  }

  lemma WrapsAt(m: Machine, e: nat)
    requires InPhase(m, e, Failing(28)) && m.maxAttempts > 28
    requires m.execs[e].job in m.jobs && m.history.Keys == m.jobs.Keys
    ensures Enabled(m, Fail(e, true)) && !DelaysExactly(m, Fail(e, true))
  {
    DelayExactIff(28);
  }

  lemma WrappedStep(m: Machine, step: Step, maxAttempts: int)
    requires Reachable(m, maxAttempts) && Enabled(m, step) && !step.Recover?
    requires m.history.Keys == m.jobs.Keys && !DelaysExactly(m, step)
    ensures !RunsDelayExactly(maxAttempts)
  {
    hide Enabled, Apply, DelaysExactly, Start;
    var states: seq<Machine>, steps: seq<Step> :|
      IsBehavior(states, steps) && states[0].maxAttempts == maxAttempts && states[|steps|] == m;
    var states', steps' := states + [Apply(m, step)], steps + [step];
    forall i {:trigger steps'[i]} | 0 <= i < |steps'|
      ensures Enabled(states'[i], steps'[i]) && Timely(states'[i], steps'[i])
      ensures states'[i + 1] == Apply(states'[i], steps'[i])
    {
      if i < |steps| {
        assert steps'[i] == steps[i];
      }
    }
    assert IsBehavior(states', steps') && states'[|steps|] == m && steps'[|steps|] == step;
  }

  /** In every run every delay is exact, and none wraps, if and only if there are at most 28 attempts. */
  lemma RunsDelayExactlyIff(maxAttempts: int)
    ensures RunsDelayExactly(maxAttempts) <==> maxAttempts <= 28
  {
    if maxAttempts <= 28 {
      hide Apply, Timely, Enabled, Start;
      forall states: seq<Machine>, steps: seq<Step>, i: nat |
        IsBehavior(states, steps) && states[0].maxAttempts == maxAttempts && i < |steps|
        ensures Inv(states[i]) && Enabled(states[i], steps[i]) && DelaysExactly(states[i], steps[i])
      {
        InvAt(states, steps, i);
        LimitKept(states, steps, i);
        assert Enabled(states[i], steps[i]);
        ExactUpTo(states[i], steps[i]);
      }
    } else {
      SomeRunWraps(maxAttempts);
    }
  }

  lemma ExactUpTo(m: Machine, step: Step)
    requires Enabled(m, step) && m.history.Keys == m.jobs.Keys && m.maxAttempts <= 28
    ensures DelaysExactly(m, step)
  {
    if step.Fail? {
      DelayExactIff(m.execs[step.e].phase.count);
    }
  }
}
