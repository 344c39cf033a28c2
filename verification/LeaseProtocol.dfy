/**
 Many workers on one job table. Executions claim, heartbeat, finish, crash and write back one statement at a time,
 while recovery sweeps return jobs whose heartbeat is older than a cutoff to the queue. A handler may also mark its own
 job as succeeded in mid-run, as the one for domains does.
 */
module LeaseProtocol {
  import opened Wrappers
  import opened JobQueue

  /**
   Where one execution of a claimed job stands: erring when its own mark of success returned an error; failing with a
   count is between the failure's two statements.
   */
  datatype Phase = Running | Erring | Succeeding | Waiting | Counting | Failing(count: nat) | Over

  /**
   attempts is the count read when the job was claimed, lastBeat the last heartbeat this execution wrote, and early
   whether its handler has marked the job as succeeded.
   */
  datatype Exec = Exec(job: JobId, attempts: nat, lastBeat: int, phase: Phase, early: bool)

  /** How the handler's own mark of success ends. */
  datatype Mark = Acknowledged | ReplyLost | NotWritten

  datatype History = History(claims: nat, failMarks: nat, recoveries: nat)

  datatype Machine = Machine(
    now: int, maxAttempts: int, jobs: Jobs, execs: map<nat, Exec>, history: map<JobId, History>)

  datatype Verdict = Success | Failure(retryable: bool)

  datatype Step =
    | Tick(time: int)
    | Enqueue(job: JobId)
    | Claim(e: nat, job: JobId, worker: string)
    | Beat(e: nat)
    | StrayBeat(job: JobId)
    | EarlySucceed(e: nat, mark: Mark)
    | Finish(e: nat, verdict: Verdict)
    | Succeed(e: nat, written: bool)
    | Wait(e: nat, at: int, written: bool)
    | Read(e: nat, ok: bool)
    | Fail(e: nat, written: bool)
    | Recover(cutoff: int)
    | Crash(e: nat)

  predicate Live(x: Exec) {
    !x.phase.Over?
  }

  predicate InPhase(m: Machine, e: nat, phase: Phase) {
    e in m.execs && m.execs[e].phase == phase
  }

  predicate Enabled(m: Machine, step: Step) {
    match step
    case Tick(time) => m.now <= time
    case Enqueue(job) => job !in m.jobs && job !in m.history
    case Claim(e, job, _) => e !in m.execs && job in m.jobs && job in m.history && Claimable(m.jobs[job], m.now)
    case Beat(e) => InPhase(m, e, Running)
    case StrayBeat(_) => true
    case EarlySucceed(e, _) => InPhase(m, e, Running)
    case Finish(e, verdict) => InPhase(m, e, Running) || (InPhase(m, e, Erring) && verdict.Failure?)
    case Succeed(e, _) => InPhase(m, e, Succeeding)
    case Wait(e, _, _) => InPhase(m, e, Waiting)
    case Read(e, _) => InPhase(m, e, Counting) && m.execs[e].job in m.jobs
    case Fail(e, _) => e in m.execs && m.execs[e].phase.Failing? && m.execs[e].job in m.history
    case Recover(_) => m.history.Keys == m.jobs.Keys
    case Crash(e) => e in m.execs && Live(m.execs[e])
  }

  function Move(m: Machine, e: nat, phase: Phase): Machine
    requires e in m.execs
  {
    m.(execs := m.execs[e := m.execs[e].(phase := phase)])
  }

  /** A failure is retried with backoff while it is of a retryable kind and attempts remain. */
  function AfterFinish(m: Machine, x: Exec, verdict: Verdict): Phase {
    if verdict.Success? then Succeeding
    else if !verdict.retryable || x.attempts >= m.maxAttempts then Counting
    else Waiting
  }

  /** The handler writes the status alone; worker and heartbeat stay in the row. */
  function EarlySucceeded(jobs: Jobs, id: JobId): Jobs {
    if id in jobs then jobs[id := jobs[id].(status := Succeeded)] else jobs
  }

  function Noted(history: map<JobId, History>, job: JobId, h: History): map<JobId, History>
    requires job in history
  {
    var past := history[job];
    history[job := History(past.claims + h.claims, past.failMarks + h.failMarks, past.recoveries + h.recoveries)]
  }

  function Apply(m: Machine, step: Step): Machine
    requires Enabled(m, step)
  {
    match step
    case Tick(time) => m.(now := time)
    case Enqueue(job) =>
      m.(jobs := m.jobs[job := Job(Pending, None, None, 0, m.now)], history := m.history[job := History(0, 0, 0)])
    case Claim(e, job, worker) =>
      m.(jobs := Claimed(m.jobs, job, worker, m.now),
         execs := m.execs[e := Exec(job, m.jobs[job].attempts + 1, m.now, Running, false)],
         history := Noted(m.history, job, History(1, 0, 0)))
    case Beat(e) =>
      var x := m.execs[e];
      m.(jobs := Beaten(m.jobs, x.job, m.now),
         execs := if x.job in m.jobs && m.jobs[x.job].status.Processing? then m.execs[e := x.(lastBeat := m.now)]
                  else m.execs)
    case StrayBeat(job) => m.(jobs := Beaten(m.jobs, job, m.now))
    case EarlySucceed(e, mark) =>
      var x := m.execs[e].(phase := if mark.Acknowledged? then Succeeding else Erring, early := !mark.NotWritten?);
      m.(jobs := if x.early then EarlySucceeded(m.jobs, x.job) else m.jobs, execs := m.execs[e := x])
    case Finish(e, verdict) => Move(m, e, AfterFinish(m, m.execs[e], verdict))
    case Succeed(e, written) =>
      Move(m, e, Over).(jobs := if written then MarkedSucceeded(m.jobs, m.execs[e].job) else m.jobs)
    case Wait(e, at, written) =>
      Move(m, e, Over).(jobs := if written then MarkedRetryWait(m.jobs, m.execs[e].job, at) else m.jobs)
    case Read(e, ok) => Move(m, e, if ok then Failing(m.jobs[m.execs[e].job].attempts + 1) else Over)
    case Fail(e, written) =>
      var x := m.execs[e];
      if !written then Move(m, e, Over)
      else Move(m, e, Over).(jobs := MarkedFailedOrRetry(m.jobs, x.job, x.phase.count, m.maxAttempts, m.now),
                             history := Noted(m.history, x.job, History(0, 1, 0)))
    case Recover(cutoff) =>
      m.(jobs := Recovered(m.jobs, cutoff),
         history := map j <- m.history ::
           if Stuck(m.jobs[j], cutoff) then m.history[j].(recoveries := m.history[j].recoveries + 1) else m.history[j])
    case Crash(e) => Move(m, e, Over)
  }

  /** Every live execution's own last heartbeat is recent enough for the sweep. */
  predicate Timely(m: Machine, step: Step) {
    step.Recover? ==> forall e <- m.execs | Live(m.execs[e]) :: m.execs[e].lastBeat >= step.cutoff
  }

  function Start(now: int, maxAttempts: int): Machine {
    Machine(now, maxAttempts, map[], map[], map[])
  }

  ghost predicate IsBehavior(states: seq<Machine>, steps: seq<Step>) {
    && |states| == |steps| + 1 && states[0] == Start(states[0].now, states[0].maxAttempts)
    && forall i {:trigger steps[i]} :: 0 <= i < |steps| ==>
         Enabled(states[i], steps[i]) && Timely(states[i], steps[i]) && states[i + 1] == Apply(states[i], steps[i])
  }

  // ----- The invariant -----

  /**
   A live execution holds its job: with the attempt count it claimed and a heartbeat no older than its own, processing,
   or succeeded by its own mark.
   */
  predicate Holds(m: Machine, x: Exec) {
    Live(x) ==>
      && x.job in m.jobs
      && (if x.early then m.jobs[x.job].status.Succeeded? else m.jobs[x.job].status.Processing?)
      && m.jobs[x.job].attempts == x.attempts
      && m.jobs[x.job].heartbeatAt.Some? && x.lastBeat <= m.jobs[x.job].heartbeatAt.value
      && (x.phase.Running? ==> !x.early)
      && (x.phase.Failing? ==> x.phase.count == x.attempts + 1)
      && (x.phase.Waiting? ==> x.attempts < m.maxAttempts)
  }

  predicate Exclusive(m: Machine) {
    forall e <- m.execs, f <- m.execs |
      Live(m.execs[e]) && Live(m.execs[f]) && m.execs[e].job == m.execs[f].job :: e == f
  }

  function Limit(m: Machine): nat {
    if m.maxAttempts < 1 then 1 else m.maxAttempts
  }

  predicate Terminal(job: Job) {
    job.status.Succeeded? || job.status.Failed?
  }

  /** Attempts count claims and failure marks; claims are bounded by the limit and the recoveries. */
  predicate Accounted(m: Machine, j: JobId)
    requires j in m.jobs && j in m.history
  {
    var job, h := m.jobs[j], m.history[j];
    && job.attempts == h.claims + h.failMarks
    && h.claims <= Limit(m) + h.recoveries
    && (!Terminal(job) && !job.status.Processing? ==> h.claims < Limit(m) + h.recoveries)
    && (job.status.Processing? ==> job.heartbeatAt.Some? && job.nextAttemptAt <= m.now)
    && !job.status.Unknown?
  }

  predicate Inv(m: Machine) {
    && Exclusive(m)
    && m.history.Keys == m.jobs.Keys
    && (forall e <- m.execs :: Holds(m, m.execs[e]) && m.execs[e].lastBeat <= m.now)
    && (forall j <- m.jobs :: Accounted(m, j))
  }

  lemma StepExclusive(m: Machine, step: Step)
    requires Inv(m) && Enabled(m, step)
    ensures Exclusive(Apply(m, step))
  {
    var m' := Apply(m, step);
    forall e <- m'.execs | Live(m'.execs[e])
      ensures (e in m.execs && Live(m.execs[e]) && m.execs[e].job == m'.execs[e].job) || step.Claim?
    {}
    if step.Claim? {
      assert forall e <- m.execs | Live(m.execs[e]) :: Holds(m, m.execs[e]) && m.execs[e].job != step.job;
    }
  }

  lemma StepHolds(m: Machine, step: Step, e: nat)
    requires Inv(m) && Enabled(m, step) && Timely(m, step) && e in Apply(m, step).execs
    ensures Holds(Apply(m, step), Apply(m, step).execs[e]) && Apply(m, step).execs[e].lastBeat <= Apply(m, step).now
  {
    if e in m.execs {
      assert Holds(m, m.execs[e]);
      if Live(Apply(m, step).execs[e]) {
        StepSparesOthers(m, step, e);
      }
    }
  }

  /** A job that a live execution holds is written by that execution alone. */
  lemma StepSparesOthers(m: Machine, step: Step, e: nat)
    requires Inv(m) && Enabled(m, step) && Timely(m, step) && e in m.execs && Live(m.execs[e])
    requires Live(Apply(m, step).execs[e])
    ensures var j := m.execs[e].job;
            && j in Apply(m, step).jobs
            && (if Apply(m, step).execs[e].early then Apply(m, step).jobs[j].status.Succeeded?
                else Apply(m, step).jobs[j].status.Processing?)
            && Apply(m, step).jobs[j].attempts == m.jobs[j].attempts
            && Apply(m, step).jobs[j].heartbeatAt.Some?
            && Apply(m, step).execs[e].lastBeat <= Apply(m, step).jobs[j].heartbeatAt.value
  {
    assert Holds(m, m.execs[e]);
    hide Inv, Accounted, Holds;
    if (step.Succeed? || step.Wait? || step.Fail? || step.EarlySucceed?) && step.e != e {
      assert m.execs[step.e].job != m.execs[e].job;
    }
  }

  lemma StepAccounted(m: Machine, step: Step, j: JobId)
    requires Inv(m) && Enabled(m, step) && j in Apply(m, step).jobs
    ensures j in Apply(m, step).history && Accounted(Apply(m, step), j)
  {
    StepKeys(m, step);
    if step.Wait? || step.Fail? {
      assert Holds(m, m.execs[step.e]);
    }
    if j in m.jobs {
      JobAccounted(m, step, j);
    }
  }

  /** The account of a job that exists already, in the one row and the one history entry a step can change. */
  lemma JobAccounted(m: Machine, step: Step, j: JobId)
    requires Enabled(m, step) && j in m.jobs && j in m.history && Accounted(m, j)
    requires step.Wait? || step.Fail? ==> Holds(m, m.execs[step.e])
    ensures j in Apply(m, step).history && j in Apply(m, step).jobs && Accounted(Apply(m, step), j)
  {}

  lemma StepKeepsInv(m: Machine, step: Step)
    requires Inv(m) && Enabled(m, step) && Timely(m, step)
    ensures Inv(Apply(m, step))
  {
    hide Apply, Enabled, Timely, Holds, Accounted, Exclusive;
    var m' := Apply(m, step);
    StepExclusive(m, step);
    StepKeys(m, step);
    forall e <- m'.execs
      ensures Holds(m', m'.execs[e]) && m'.execs[e].lastBeat <= m'.now
    {
      StepHolds(m, step, e);
    }
    forall j <- m'.jobs
      ensures j in m'.history && Accounted(m', j)
    {
      StepAccounted(m, step, j);
    }
  }

  lemma StepKeys(m: Machine, step: Step)
    requires m.history.Keys == m.jobs.Keys && Enabled(m, step)
    ensures Apply(m, step).history.Keys == Apply(m, step).jobs.Keys
  {}

  lemma {:induction false} InvAt(states: seq<Machine>, steps: seq<Step>, n: nat)
    requires IsBehavior(states, steps) && n <= |steps|
    ensures Inv(states[n])
  {
    hide Enabled, Apply, Timely;
    if n > 0 {
      InvAt(states, steps, n - 1);
      assert Enabled(states[n - 1], steps[n - 1]);
      StepKeepsInv(states[n - 1], steps[n - 1]);
    }
  }

  // ----- What the leases guarantee -----

  /** While heartbeats are timely, no two live executions ever hold the same job. */
  lemma LeaseExclusivity(states: seq<Machine>, steps: seq<Step>, n: nat, e: nat, f: nat)
    requires IsBehavior(states, steps) && n <= |steps| && e in states[n].execs && f in states[n].execs
    requires Live(states[n].execs[e]) && Live(states[n].execs[f]) && states[n].execs[e].job == states[n].execs[f].job
    ensures e == f
  {
    InvAt(states, steps, n);
  }

  /** The execution that a completing step ends. */
  predicate Completes(step: Step, e: nat) {
    (step.Succeed? || step.Wait? || step.Fail?) && step.e == e
  }

  /**
   The unguarded completing updates touch only the caller's own job: as it was claimed, and still processing unless the
   caller's handler has marked it as succeeded itself.
   */
  lemma CompletesOwnJob(states: seq<Machine>, steps: seq<Step>, n: nat, e: nat)
    requires IsBehavior(states, steps) && n < |steps| && Completes(steps[n], e)
    ensures var m, m' := states[n], states[n + 1];
            && e in m.execs && m.execs[e].job in m.jobs
            && (if m.execs[e].early then m.jobs[m.execs[e].job].status.Succeeded?
                else m.jobs[m.execs[e].job].status.Processing?)
            && m.jobs[m.execs[e].job].attempts == m.execs[e].attempts
            && (forall f <- m.execs | f != e && Live(m.execs[f]) :: m.execs[f].job != m.execs[e].job)
            && m'.jobs.Keys == m.jobs.Keys
            && forall j <- m.jobs | j != m.execs[e].job :: m'.jobs[j] == m.jobs[j]
  {
    InvAt(states, steps, n);
    assert Enabled(states[n], steps[n]);
    assert Holds(states[n], states[n].execs[e]);
  }

  // ----- A job that waits -----

  lemma {:induction false} ClockRises(states: seq<Machine>, steps: seq<Step>, m: nat, n: nat)
    requires IsBehavior(states, steps) && m <= n <= |steps|
    ensures states[m].now <= states[n].now
  {
    if m < n {
      ClockRises(states, steps, m, n - 1);
      assert Enabled(states[n - 1], steps[n - 1]) && states[n] == Apply(states[n - 1], steps[n - 1]);
    }
  }

  /** A job that nobody holds and that is not due is not touched. */
  lemma StepLeavesResting(m: Machine, step: Step, j: JobId)
    requires Inv(m) && Enabled(m, step) && j in m.jobs && m.jobs[j].status.RetryWait? && m.now < m.jobs[j].nextAttemptAt
    ensures j in Apply(m, step).jobs && Apply(m, step).jobs[j] == m.jobs[j]
  {
    if step.Succeed? || step.Wait? || step.Fail? || step.EarlySucceed? {
      assert Holds(m, m.execs[step.e]);
    }
  }

  /** Whatever workers and sweeps do, a waiting job rests as it is until it is due. */
  lemma {:induction false} RestsUntilDue(states: seq<Machine>, steps: seq<Step>, m: nat, n: nat, j: JobId)
    requires IsBehavior(states, steps) && m <= n <= |steps| && j in states[m].jobs
    requires states[m].jobs[j].status.RetryWait? && (m < n ==> states[n - 1].now < states[m].jobs[j].nextAttemptAt)
    ensures j in states[n].jobs && states[n].jobs[j] == states[m].jobs[j]
  {
    hide Apply, Timely, Enabled;
    if m < n {
      if m < n - 1 {
        ClockRises(states, steps, n - 2, n - 1);
      }
      RestsUntilDue(states, steps, m, n - 1, j);
      InvAt(states, steps, n - 1);
      assert Enabled(states[n - 1], steps[n - 1]) && states[n] == Apply(states[n - 1], steps[n - 1]);
      StepLeavesResting(states[n - 1], steps[n - 1], j);
    }
  }

  /** Once a retry is written for a moment, no execution claims the job before that moment. */
  lemma WaitHolds(states: seq<Machine>, steps: seq<Step>, i: nat, n: nat, e: nat, at: int, f: nat, worker: string)
    requires IsBehavior(states, steps) && i < n < |steps| && steps[i] == Wait(e, at, true) && e in states[i].execs
    requires steps[n] == Claim(f, states[i].execs[e].job, worker)
    ensures at <= states[n].now
  {
    hide Timely;
    var j := states[i].execs[e].job;
    InvAt(states, steps, i);
    assert Enabled(states[i], steps[i]) && Holds(states[i], states[i].execs[e]);
    assert states[i + 1].jobs[j].status.RetryWait? && states[i + 1].jobs[j].nextAttemptAt == at;
    assert Enabled(states[n], steps[n]);
    if states[n].now < at {
      ClockRises(states, steps, n - 1, n);
      RestsUntilDue(states, steps, i + 1, n, j);
    }
  }

  // ----- Succeeded and failed jobs -----

  /** A failure written for the job. */
  predicate FailureWritten(m: Machine, step: Step, j: JobId) {
    (step.Wait? || step.Fail?) && step.written && step.e in m.execs && m.execs[step.e].job == j
  }

  /** A succeeded or failed job keeps its status in a step exactly when the step writes no failure for it. */
  lemma StepKeepsStatusIff(m: Machine, step: Step, j: JobId)
    requires Inv(m) && Enabled(m, step) && j in m.jobs && Terminal(m.jobs[j])
    ensures j in Apply(m, step).jobs
    ensures Apply(m, step).jobs[j].status == m.jobs[j].status <==> !FailureWritten(m, step, j)
    ensures FailureWritten(m, step, j) ==> m.execs[step.e].early && m.jobs[j].status.Succeeded?
  {
    if step.Succeed? || step.Wait? || step.Fail? || step.EarlySucceed? {
      assert Holds(m, m.execs[step.e]);
    }
  }

  /** And so in a whole run. Such a failure comes from an execution whose handler had marked the job as succeeded. */
  lemma {:induction false} StatusStaysIff(states: seq<Machine>, steps: seq<Step>, m: nat, n: nat, j: JobId)
    requires IsBehavior(states, steps) && m <= n <= |steps| && j in states[m].jobs && Terminal(states[m].jobs[j])
    ensures (forall i :: m <= i <= n ==> j in states[i].jobs && states[i].jobs[j].status == states[m].jobs[j].status)
            <==> (forall i :: m <= i < n ==> !FailureWritten(states[i], steps[i], j))
  {
    hide Apply, Timely, Enabled, FailureWritten;
    if m < n {
      StatusStaysIff(states, steps, m, n - 1, j);
      if j in states[n - 1].jobs && states[n - 1].jobs[j].status == states[m].jobs[j].status {
        InvAt(states, steps, n - 1);
        assert Enabled(states[n - 1], steps[n - 1]) && states[n] == Apply(states[n - 1], steps[n - 1]);
        StepKeepsStatusIff(states[n - 1], steps[n - 1], j);
      }
    }
  }

  /** No handler marked a job as succeeded up to here. */
  predicate NoEarlyMark(steps: seq<Step>, n: nat)
    requires n <= |steps|
  {
    forall i :: 0 <= i < n && steps[i].EarlySucceed? ==> steps[i].mark.NotWritten?
  }

  lemma {:induction false} NoneEarlyAt(states: seq<Machine>, steps: seq<Step>, n: nat)
    requires IsBehavior(states, steps) && n <= |steps| && NoEarlyMark(steps, n)
    ensures forall e <- states[n].execs :: !states[n].execs[e].early
  {
    if n > 0 {
      NoneEarlyAt(states, steps, n - 1);
      assert states[n] == Apply(states[n - 1], steps[n - 1]);
    }
  }

  lemma StepKeepsTerminal(m: Machine, step: Step, j: JobId)
    requires Inv(m) && Enabled(m, step) && j in m.jobs && Terminal(m.jobs[j])
    requires forall e <- m.execs :: !m.execs[e].early
    ensures j in Apply(m, step).jobs && Apply(m, step).jobs[j] == m.jobs[j]
  {
    if step.Succeed? || step.Wait? || step.Fail? || step.EarlySucceed? {
      assert Holds(m, m.execs[step.e]);
    }
  }

  /** While no handler marks its own job, a succeeded or failed job never changes again, in any column. */
  lemma {:induction false} TerminalForGood(states: seq<Machine>, steps: seq<Step>, m: nat, n: nat, j: JobId)
    requires IsBehavior(states, steps) && m <= n <= |steps| && j in states[m].jobs && Terminal(states[m].jobs[j])
    requires NoEarlyMark(steps, n)
    ensures j in states[n].jobs && states[n].jobs[j] == states[m].jobs[j]
  {
    hide Apply, Timely, Enabled;
    if m < n {
      TerminalForGood(states, steps, m, n - 1, j);
      InvAt(states, steps, n - 1);
      NoneEarlyAt(states, steps, n - 1);
      assert Enabled(states[n - 1], steps[n - 1]) && states[n] == Apply(states[n - 1], steps[n - 1]);
      StepKeepsTerminal(states[n - 1], steps[n - 1], j);
    }
  }

  predicate NoLostReply(steps: seq<Step>, n: nat)
    requires n <= |steps|
  {
    forall i :: 0 <= i < n && steps[i].EarlySucceed? ==> !steps[i].mark.ReplyLost?
  }

  lemma {:induction false} MarkedSucceedAt(states: seq<Machine>, steps: seq<Step>, n: nat)
    requires IsBehavior(states, steps) && n <= |steps| && NoLostReply(steps, n)
    ensures forall e <- states[n].execs | states[n].execs[e].early ::
              states[n].execs[e].phase.Succeeding? || states[n].execs[e].phase.Over?
  {
    if n > 0 {
      MarkedSucceedAt(states, steps, n - 1);
      InvAt(states, steps, n - 1);
      assert Enabled(states[n - 1], steps[n - 1]) && states[n] == Apply(states[n - 1], steps[n - 1]);
      if steps[n - 1].EarlySucceed? {
        assert Holds(states[n - 1], states[n - 1].execs[steps[n - 1].e]);
      }
    }
  }

  /** While no reply to a handler's mark is lost, a succeeded or failed job keeps its status. */
  lemma StatusForGood(states: seq<Machine>, steps: seq<Step>, m: nat, n: nat, j: JobId)
    requires IsBehavior(states, steps) && m <= n <= |steps| && j in states[m].jobs && Terminal(states[m].jobs[j])
    requires NoLostReply(steps, n)
    ensures j in states[n].jobs && states[n].jobs[j].status == states[m].jobs[j].status
    decreases n
  {
    hide Apply, Timely, Enabled;
    if m < n {
      StatusForGood(states, steps, m, n - 1, j);
      InvAt(states, steps, n - 1);
      MarkedSucceedAt(states, steps, n - 1);
      var before, step := states[n - 1], steps[n - 1];
      assert Enabled(before, step) && states[n] == Apply(before, step);
      StepKeepsStatusIff(before, step, j);
      if FailureWritten(before, step, j) {
        FailureEndsFailing(before, step, j);
      }
    }
  }

  lemma FailureEndsFailing(m: Machine, step: Step, j: JobId)
    requires Enabled(m, step) && FailureWritten(m, step, j)
    ensures m.execs[step.e].phase.Waiting? || m.execs[step.e].phase.Failing?
  {}

  /** A handler's mark whose reply is lost makes its worker put the succeeded job back into the queue. */
  lemma LostReplyReopens(m: Machine, e: nat, at: int)
    requires Inv(m) && InPhase(m, e, Running) && m.execs[e].attempts < m.maxAttempts
    ensures var j := m.execs[e].job;
            var marked := Apply(m, EarlySucceed(e, ReplyLost));
            j in marked.jobs && marked.jobs[j].status.Succeeded? && Enabled(marked, Finish(e, Failure(true)))
    ensures var j := m.execs[e].job;
            var erred := Apply(Apply(m, EarlySucceed(e, ReplyLost)), Finish(e, Failure(true)));
            && Enabled(erred, Wait(e, at, true)) && j in erred.jobs
            && Apply(erred, Wait(e, at, true)).jobs[j].status.RetryWait?
  {
    assert Holds(m, m.execs[e]);
  }

  /**
   Bounded work: the attempts column counts claims plus failure marks; a job is claimed at most once per allowed
   attempt and once more per recovery, and when those are used up and nobody holds it, it has ended.
   */
  lemma BoundedWork(states: seq<Machine>, steps: seq<Step>, n: nat, j: JobId)
    requires IsBehavior(states, steps) && n <= |steps| && j in states[n].jobs
    ensures var m := states[n];
            && j in m.history
            && m.jobs[j].attempts == m.history[j].claims + m.history[j].failMarks
            && var allowed := (if m.maxAttempts < 1 then 1 else m.maxAttempts) + m.history[j].recoveries;
               && m.history[j].claims <= allowed
               && (m.history[j].claims == allowed && !m.jobs[j].status.Processing? ==>
                     m.jobs[j].status.Succeeded? || m.jobs[j].status.Failed?)
  {
    InvAt(states, steps, n);
    assert Accounted(states[n], j);
  }

  // ----- Timeliness is exactly what a sweep needs -----

  /** With one clock, a cutoff one lease back spares every execution that has beaten within its lease. */
  lemma LeaseMakesTimely(m: Machine, lease: int, cutoff: int)
    requires cutoff <= m.now - lease
    requires forall e <- m.execs | Live(m.execs[e]) :: m.now - m.execs[e].lastBeat <= lease
    ensures Timely(m, Recover(cutoff))
  {}

  /** A sweep keeps the invariant if and only if no live execution's job has a heartbeat older than the cutoff. */
  lemma RecoverSafeIff(m: Machine, cutoff: int)
    requires Inv(m)
    ensures Inv(Apply(m, Recover(cutoff)))
            <==> forall e <- m.execs | Live(m.execs[e]) :: !Stuck(m.jobs[m.execs[e].job], cutoff)
  {
    var m' := Apply(m, Recover(cutoff));
    forall e <- m.execs
      ensures Live(m.execs[e]) && Stuck(m.jobs[m.execs[e].job], cutoff) ==> !Holds(m', m'.execs[e])
      ensures !(Live(m.execs[e]) && Stuck(m.jobs[m.execs[e].job], cutoff)) ==> Holds(m', m'.execs[e])
    {
      assert Holds(m, m.execs[e]);
    }
    forall j <- m'.jobs
      ensures Accounted(m', j)
    {
      StepAccounted(m, Recover(cutoff), j);
    }
  }

  /** Otherwise the next claim of the swept job gives it a second live execution. */
  lemma LateSweepRunsTwice(m: Machine, cutoff: int, e: nat, f: nat, worker: string)
    requires Inv(m) && e in m.execs && f !in m.execs && Live(m.execs[e]) && Stuck(m.jobs[m.execs[e].job], cutoff)
    ensures var m1 := Apply(m, Recover(cutoff));
            var claim := Claim(f, m.execs[e].job, worker);
            Enabled(m1, claim) && !Exclusive(Apply(m1, claim))
  {
    var j := m.execs[e].job;
    assert Holds(m, m.execs[e]) && Accounted(m, j);
    var m2 := Apply(Apply(m, Recover(cutoff)), Claim(f, j, worker));
    assert m2.execs[e] == m.execs[e] && m2.execs[f].job == j && Live(m2.execs[f]);
  }
}
