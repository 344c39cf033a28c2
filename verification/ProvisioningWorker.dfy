/** The provisioning worker: it claims a job, runs it under heartbeats, and writes back how it ended. */
module ProvisioningWorker {
  import opened Words
  import opened Wrappers
  import opened JobQueue
  import opened LeaseProtocol

  ghost predicate Runs(m: Machine, steps: seq<Step>, last: Machine)
    decreases |steps|
  {
    if steps == [] then m == last else Enabled(m, steps[0]) && Runs(Apply(m, steps[0]), steps[1..], last)
  }

  lemma {:induction false} RunsOn(m: Machine, steps: seq<Step>, last: Machine, step: Step)
    requires Runs(m, steps, last) && Enabled(last, step)
    ensures Runs(m, steps + [step], Apply(last, step))
    decreases |steps|
  {
    if steps == [] {
      assert Runs(Apply(m, step), [step][1..], Apply(m, step));
    } else {
      assert (steps + [step])[0] == steps[0] && (steps + [step])[1..] == steps[1..] + [step];
      RunsOn(Apply(m, steps[0]), steps[1..], last, step);
    }
  }

  /** How a job's handler ends: with an error or not, or by marking the job itself and then returning. */
  datatype Handling = Returns(verdict: Verdict) | Marks(mark: Mark, retryable: bool)

  predicate Succeeds(handling: Handling) {
    handling == Returns(Success) || (handling.Marks? && handling.mark.Acknowledged?)
  }

  predicate MayRetry(handling: Handling) {
    if handling.Returns? then handling.verdict.Failure? && handling.verdict.retryable else handling.retryable
  }

  /** Which writes of the worker take effect, and when a retry is due. */
  datatype Fate = Fate(read: bool, written: bool, retryAt: int)

  // ----- The steps a poll takes -----

  function Beats(e: nat, beats: seq<int>): seq<Step> {
    if beats == [] then [] else Beats(e, beats[..|beats| - 1]) + [Tick(beats[|beats| - 1]), Beat(e)]
  }

  function FailureSteps(e: nat, retryable: bool, spent: bool, fate: Fate): seq<Step> {
    [Finish(e, Failure(retryable))] +
    if retryable && !spent then [Wait(e, fate.retryAt, fate.written)]
    else [Read(e, fate.read)] + if fate.read then [Fail(e, fate.written)] else []
  }

  /** From the handler's end to the last write; spent tells that no attempts remain. */
  function Ending(e: nat, handling: Handling, spent: bool, fate: Fate): seq<Step> {
    match handling
    case Returns(verdict) =>
      if verdict.Success? then [Finish(e, Success), Succeed(e, fate.written)]
      else FailureSteps(e, verdict.retryable, spent, fate)
    case Marks(mark, retryable) =>
      [EarlySucceed(e, mark)] +
      if mark.Acknowledged? then [Succeed(e, fate.written)] else FailureSteps(e, retryable, spent, fate)
  }

  /** The heartbeats come in order, between the claim and the handler's end. */
  predicate InOrder(from: int, beats: seq<int>, to: int) {
    if beats == [] then from <= to
    else
      var last := beats[|beats| - 1];
      last <= to && InOrder(from, beats[..|beats| - 1], last)
  }

  class Worker {
    const name: string
    const maxAttempts: int
    const repo: Repository
    /** The protocol's machine, and the steps by which this worker took it here. */
    ghost const start: Machine
    ghost var machine: Machine
    ghost var steps: seq<Step>

    ghost predicate Valid()
      reads this, repo
    {
      && machine.jobs == repo.jobs && machine.history.Keys == machine.jobs.Keys && machine.maxAttempts == maxAttempts
      && Runs(start, steps, machine)
    }

    /** Execution e has the job and is in the phase. */
    ghost predicate Has(e: nat, id: JobId, attempts: nat, phase: Phase)
      reads this
    {
      e in machine.execs && machine.execs[e].job == id && machine.execs[e].attempts == attempts
      && machine.execs[e].phase == phase && id in machine.jobs && machine.jobs[id].attempts == attempts
    }

    constructor (name: string, maxAttempts: int, repo: Repository, ghost machine: Machine)
      requires machine.jobs == repo.jobs && machine.history.Keys == machine.jobs.Keys
      requires machine.maxAttempts == maxAttempts
      ensures Valid() && this.repo == repo && this.machine == machine && steps == []
    {
      this.name, this.maxAttempts, this.repo := name, maxAttempts, repo;
      this.start, this.machine, this.steps := machine, machine, [];
    }

    ghost method Log(step: Step)
      requires Runs(start, steps, machine) && Enabled(machine, step)
      modifies this`machine, this`steps
      ensures machine == Apply(old(machine), step) && steps == old(steps) + [step] && Runs(start, steps, machine)
    {
      RunsOn(start, steps, machine, step);
      machine, steps := Apply(machine, step), steps + [step];
    }

    method Heartbeat(id: JobId, now: int, ghost e: nat, ghost attempts: nat)
      requires Valid() && Has(e, id, attempts, Running) && machine.now <= now
      modifies this`machine, this`steps, repo
      ensures Valid() && Has(e, id, attempts, Running) && machine.now == now
      ensures steps == old(steps) + [Tick(now), Beat(e)]
      ensures repo.jobs.Keys == old(repo.jobs).Keys
      ensures forall j <- repo.jobs | j != id :: repo.jobs[j] == old(repo.jobs)[j]
      ensures repo.jobs[id] == old(repo.jobs)[id].(heartbeatAt := repo.jobs[id].heartbeatAt)
      ensures old(repo.jobs)[id].status.Processing? ==>
                repo.jobs[id].heartbeatAt == Some(now) && machine.execs[e].lastBeat == now
    {
      hide Runs;
      Log(Tick(now));
      Log(Beat(e));
      repo.UpdateHeartbeat(id, now);
    }

    method HandleJobSuccess(id: JobId, written: bool, ghost e: nat, ghost attempts: nat)
      requires Valid() && Has(e, id, attempts, Succeeding)
      modifies this`machine, this`steps, repo
      ensures Valid() && steps == old(steps) + [Succeed(e, written)]
      ensures repo.jobs == if !written then old(repo.jobs)
                           else old(repo.jobs)[id := Job(JobQueue.Succeeded, None, None, attempts,
                                                         old(repo.jobs)[id].nextAttemptAt)]
    {
      hide Runs;
      Log(Succeed(e, written));
      if written {
        repo.MarkSucceeded(id);
      }
    }

    /** A retryable failure waits while attempts remain; any other is marked as failed, or queued again by the mark. */
    method HandleJobFailure(id: JobId, attempts: nat, retryable: bool, fate: Fate, now: int, ghost e: nat)
      requires Valid() && (Has(e, id, attempts, Running) || Has(e, id, attempts, Erring)) && machine.now == now
      modifies this`machine, this`steps, repo
      ensures Valid() && steps == old(steps) + FailureSteps(e, retryable, attempts >= maxAttempts, fate)
      ensures repo.jobs.Keys == old(repo.jobs).Keys
      ensures forall j <- repo.jobs | j != id :: repo.jobs[j] == old(repo.jobs)[j]
      ensures retryable && attempts < maxAttempts && fate.written ==>
                && repo.jobs[id] == Job(RetryWait, None, None, attempts, fate.retryAt)
                && forall t: int :: Claimable(repo.jobs[id], t) <==> fate.retryAt <= t
      ensures (!retryable || attempts >= maxAttempts) && fate.read && fate.written ==>
                repo.jobs[id] == if attempts + 1 >= maxAttempts
                                 then Job(JobQueue.Failed, None, None, attempts + 1, old(repo.jobs)[id].nextAttemptAt)
                                 else Job(RetryWait, None, None, attempts + 1,
                                          now + Wrapped(ShiftedOne(attempts + 1) * 60_000_000_000))
      ensures !fate.written || ((!retryable || attempts >= maxAttempts) && !fate.read) ==> repo.jobs == old(repo.jobs)
    {
      hide Runs;
      Log(Finish(e, Failure(retryable)));
      if !retryable || attempts >= maxAttempts {
        FailOrRetry(id, attempts, fate, now, e);
      } else {
        RetryLater(id, attempts, fate, e);
      }
    }

    method FailOrRetry(id: JobId, attempts: nat, fate: Fate, now: int, ghost e: nat)
      requires Valid() && Has(e, id, attempts, Counting) && machine.now == now
      modifies this`machine, this`steps, repo
      ensures Valid()
      ensures steps == old(steps) + ([Read(e, fate.read)] + if fate.read then [Fail(e, fate.written)] else [])
      ensures repo.jobs == if !(fate.read && fate.written) then old(repo.jobs)
                           else old(repo.jobs)[id :=
                             if attempts + 1 >= maxAttempts
                             then Job(JobQueue.Failed, None, None, attempts + 1, old(repo.jobs)[id].nextAttemptAt)
                             else Job(RetryWait, None, None, attempts + 1,
                                      now + Wrapped(ShiftedOne(attempts + 1) * 60_000_000_000))]
    {
      hide Runs;
      Log(Read(e, fate.read));
      if fate.read {
        Log(Fail(e, fate.written));
        if fate.written {
          var ok := repo.MarkFailedOrRetry(id, maxAttempts, now);
        }
      }
    }

    method RetryLater(id: JobId, attempts: nat, fate: Fate, ghost e: nat)
      requires Valid() && Has(e, id, attempts, Waiting)
      modifies this`machine, this`steps, repo
      ensures Valid() && steps == old(steps) + [Wait(e, fate.retryAt, fate.written)]
      ensures repo.jobs == if !fate.written then old(repo.jobs)
                           else old(repo.jobs)[id := Job(RetryWait, None, None, attempts, fate.retryAt)]
    {
      hide Runs;
      Log(Wait(e, fate.retryAt, fate.written));
      if fate.written {
        repo.MarkRetryWait(id, fate.retryAt);
      }
    }

    /** The handler's own statement names the job by id and writes the status alone. */
    method MarkEarly(id: JobId, mark: Mark, ghost e: nat, ghost attempts: nat)
      requires Valid() && Has(e, id, attempts, Running)
      modifies this`machine, this`steps, repo
      ensures Valid() && Has(e, id, attempts, if mark.Acknowledged? then Succeeding else Erring)
      ensures steps == old(steps) + [EarlySucceed(e, mark)] && machine.now == old(machine.now)
      ensures repo.jobs == if mark.NotWritten? then old(repo.jobs)
                           else old(repo.jobs)[id := old(repo.jobs)[id].(status := JobQueue.Succeeded)]
    {
      hide Runs;
      Log(EarlySucceed(e, mark));
      if !mark.NotWritten? {
        repo.jobs := repo.jobs[id := repo.jobs[id].(status := JobQueue.Succeeded)];
      }
    }

    /** The handler returns without an error. */
    ghost method EndWell(id: JobId, e: nat, attempts: nat)
      requires Valid() && Has(e, id, attempts, Running)
      modifies this`machine, this`steps
      ensures Valid() && Has(e, id, attempts, Succeeding) && steps == old(steps) + [Finish(e, Success)]
    {
      hide Runs;
      Log(Finish(e, Success));
    }

    /** What follows the handler's end. */
    method WriteBack(id: JobId, attempts: nat, handling: Handling, fate: Fate, now: int, ghost e: nat)
      requires Valid() && Has(e, id, attempts, Running) && machine.now == now
      modifies this`machine, this`steps, repo
      ensures Valid() && steps == old(steps) + Ending(e, handling, attempts >= maxAttempts, fate)
      ensures repo.jobs.Keys == old(repo.jobs).Keys
      ensures forall j <- repo.jobs | j != id :: repo.jobs[j] == old(repo.jobs)[j]
      ensures Succeeds(handling) && fate.written ==>
                repo.jobs[id] == Job(JobQueue.Succeeded, None, None, attempts, old(repo.jobs)[id].nextAttemptAt)
      ensures !Succeeds(handling) && MayRetry(handling) && attempts < maxAttempts && fate.written ==>
                repo.jobs[id] == Job(RetryWait, None, None, attempts, fate.retryAt)
      ensures !Succeeds(handling) && (!MayRetry(handling) || attempts >= maxAttempts) && fate.read && fate.written ==>
                repo.jobs[id] == if attempts + 1 >= maxAttempts
                                 then Job(JobQueue.Failed, None, None, attempts + 1, old(repo.jobs)[id].nextAttemptAt)
                                 else Job(RetryWait, None, None, attempts + 1,
                                          now + Wrapped(ShiftedOne(attempts + 1) * 60_000_000_000))
    {
      hide Runs, FailureSteps, Claimable, Enabled, Apply;
      match handling {
        case Returns(verdict) =>
          if verdict.Success? {
            EndWell(id, e, attempts);
            HandleJobSuccess(id, fate.written, e, attempts);
          } else {
            HandleJobFailure(id, attempts, verdict.retryable, fate, now, e);
          }
        case Marks(mark, retryable) =>
          MarkEarly(id, mark, e, attempts);
          if mark.Acknowledged? {
            HandleJobSuccess(id, fate.written, e, attempts);
          } else {
            HandleJobFailure(id, attempts, retryable, fate, now, e);
          }
      }
    }

    /**
     One poll: nothing when no job is due; else a job due is claimed, beaten for, handled and written back. The poll is
     a run of the protocol, with the steps that the handler's end and the database's answers prescribe.
     */
    method Poll(now: int, beats: seq<int>, end: int, handling: Handling, fate: Fate, ghost e: nat)
      returns (found: bool, id: JobId)
      requires Valid() && machine.now <= now && InOrder(now, beats, end) && e !in machine.execs
      modifies this`machine, this`steps, repo
      ensures Valid()
      ensures found <==> exists j <- old(repo.jobs) :: Claimable(old(repo.jobs)[j], now)
      ensures !found ==> repo.jobs == old(repo.jobs) && steps == old(steps) + [Tick(now)]
      ensures found ==> id in old(repo.jobs) && Claimable(old(repo.jobs)[id], now)
      ensures found ==>
                steps == old(steps) + [Tick(now), Claim(e, id, name)] + Beats(e, beats) + [Tick(end)]
                         + Ending(e, handling, old(repo.jobs)[id].attempts + 1 >= maxAttempts, fate)
      ensures found ==>
                && repo.jobs.Keys == old(repo.jobs).Keys
                && forall j <- repo.jobs | j != id :: repo.jobs[j] == old(repo.jobs)[j]
      ensures found && Succeeds(handling) && fate.written ==>
                var was := old(repo.jobs)[id];
                repo.jobs[id] == Job(JobQueue.Succeeded, None, None, was.attempts + 1, was.nextAttemptAt)
      ensures found && !Succeeds(handling) && fate.written ==>
                var was, attempts := old(repo.jobs)[id], old(repo.jobs)[id].attempts + 1;
                && (MayRetry(handling) && attempts < maxAttempts ==>
                      repo.jobs[id] == Job(RetryWait, None, None, attempts, fate.retryAt))
                && ((!MayRetry(handling) || attempts >= maxAttempts) && fate.read ==>
                      repo.jobs[id] == if attempts + 1 >= maxAttempts
                                       then Job(JobQueue.Failed, None, None, attempts + 1, was.nextAttemptAt)
                                       else Job(RetryWait, None, None, attempts + 1,
                                                end + Wrapped(ShiftedOne(attempts + 1) * 60_000_000_000)))
    {
      hide Runs, Ending, Valid, Claimable;
      var attempts: nat;
      found, id, attempts := ClaimDue(now, e);
      if found {
        BeatAll(id, now, beats, end, e, attempts);
        WriteBack(id, attempts, handling, fate, end, e);
      }
    }

    method ClaimDue(now: int, ghost e: nat) returns (found: bool, id: JobId, attempts: nat)
      requires Valid() && machine.now <= now && e !in machine.execs
      modifies this`machine, this`steps, repo
      ensures Valid() && machine.now == now
      ensures found <==> exists j <- old(repo.jobs) :: Claimable(old(repo.jobs)[j], now)
      ensures !found ==> repo.jobs == old(repo.jobs) && steps == old(steps) + [Tick(now)]
      ensures found ==>
                && id in old(repo.jobs) && Claimable(old(repo.jobs)[id], now)
                && attempts == old(repo.jobs)[id].attempts + 1
                && Has(e, id, attempts, Running) && steps == old(steps) + [Tick(now), Claim(e, id, name)]
      ensures found ==>
                repo.jobs == old(repo.jobs)[id := Job(Processing, Some(name), Some(now), attempts,
                                                      old(repo.jobs)[id].nextAttemptAt)]
    {
      hide Runs;
      Log(Tick(now));
      found, id := repo.ClaimJob(name, now);
      attempts := 0;
      if found {
        Log(Claim(e, id, name));
        attempts := repo.jobs[id].attempts;
      }
    }

    /** The heartbeats while the handler runs, until it ends. */
    method BeatAll(id: JobId, now: int, beats: seq<int>, end: int, ghost e: nat, ghost attempts: nat)
      requires Valid() && Has(e, id, attempts, Running) && machine.now == now && InOrder(now, beats, end)
      modifies this`machine, this`steps, repo
      ensures Valid() && Has(e, id, attempts, Running) && machine.now == end
      ensures steps == old(steps) + Beats(e, beats) + [Tick(end)]
      ensures repo.jobs.Keys == old(repo.jobs).Keys
      ensures forall j <- repo.jobs | j != id :: repo.jobs[j] == old(repo.jobs)[j]
      ensures repo.jobs[id] == old(repo.jobs)[id].(heartbeatAt := repo.jobs[id].heartbeatAt)
    {
      hide Runs;
      for i := 0 to |beats|
        invariant Valid() && Has(e, id, attempts, Running)
        invariant machine.now == if i == 0 then now else beats[i - 1]
        invariant steps == old(steps) + Beats(e, beats[..i])
        invariant repo.jobs.Keys == old(repo.jobs).Keys
        invariant forall j <- repo.jobs | j != id :: repo.jobs[j] == old(repo.jobs)[j]
        invariant repo.jobs[id] == old(repo.jobs)[id].(heartbeatAt := repo.jobs[id].heartbeatAt)
      {
        InOrderAt(now, beats, end, i);
        Heartbeat(id, beats[i], e, attempts);
        assert beats[..i + 1][..i] == beats[..i];
      }
      InOrderAt(now, beats, end, |beats|);
      assert beats[..|beats|] == beats;
      Wake(end, id, e, attempts);
    }

    /** Time passes. */
    ghost method Wake(now: int, id: JobId, e: nat, attempts: nat)
      requires Valid() && Has(e, id, attempts, Running) && machine.now <= now
      modifies this`machine, this`steps
      ensures Valid() && Has(e, id, attempts, Running) && machine.now == now && steps == old(steps) + [Tick(now)]
    {
      hide Runs;
      Log(Tick(now));
    }

    method RecoverStuckJobs(cutoff: int) returns (count: nat)
      requires Valid()
      modifies this`machine, this`steps, repo
      ensures Valid() && steps == old(steps) + [Recover(cutoff)]
      ensures count == |set id <- old(repo.jobs) | Stuck(old(repo.jobs)[id], cutoff)|
    {
      hide Runs;
      Log(Recover(cutoff));
      count := repo.RecoverStuckJobs(cutoff);
    }
  }

  lemma {:induction false} InOrderAt(from: int, beats: seq<int>, to: int, i: nat)
    requires InOrder(from, beats, to) && i <= |beats|
    ensures (if i == 0 then from else beats[i - 1]) <= if i < |beats| then beats[i] else to
    decreases |beats|
  {
    if beats != [] {
      InOrderAt(from, beats[..|beats| - 1], beats[|beats| - 1], if i < |beats| then i else |beats| - 1);
    }
  }
}
