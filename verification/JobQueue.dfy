/** The provisioning job table and the single statements that update it. */
module JobQueue {
  import opened Words
  import opened Wrappers

  type JobId = string

  datatype Status = Pending | Processing | RetryWait | Unknown | Succeeded | Failed

  /** Times are in nanoseconds. */
  datatype Job = Job(
    status: Status, worker: Option<string>, heartbeatAt: Option<int>, attempts: nat, nextAttemptAt: int)

  type Jobs = map<JobId, Job>

  predicate Claimable(job: Job, now: int) {
    (job.status.Pending? || job.status.RetryWait? || job.status.Unknown?) && job.nextAttemptAt <= now
  }

  function Unleased(job: Job, status: Status): Job {
    job.(status := status, worker := None, heartbeatAt := None)
  }

  function Claimed(jobs: Jobs, id: JobId, worker: string, now: int): Jobs
    requires id in jobs
  {
    jobs[id := jobs[id].(status := Processing, worker := Some(worker), heartbeatAt := Some(now),
                         attempts := jobs[id].attempts + 1)]
  }

  function Beaten(jobs: Jobs, id: JobId, now: int): Jobs {
    if id in jobs && jobs[id].status.Processing? then jobs[id := jobs[id].(heartbeatAt := Some(now))] else jobs
  }

  /** A processing job whose last heartbeat is older than the cutoff; without one there is nothing to compare. */
  predicate Stuck(job: Job, cutoff: int) {
    job.status.Processing? && job.heartbeatAt.Some? && job.heartbeatAt.value < cutoff
  }

  function Recovered(jobs: Jobs, cutoff: int): Jobs {
    map id <- jobs :: if Stuck(jobs[id], cutoff) then Unleased(jobs[id], RetryWait) else jobs[id]
  }

  /** The completing updates name the job by id alone: neither its status nor its worker is checked. */
  function MarkedSucceeded(jobs: Jobs, id: JobId): Jobs {
    if id in jobs then jobs[id := Unleased(jobs[id], Succeeded)] else jobs
  }

  function MarkedRetryWait(jobs: Jobs, id: JobId, at: int): Jobs {
    if id in jobs then jobs[id := Unleased(jobs[id], RetryWait).(nextAttemptAt := at)] else jobs
  }

  const NANOS_PER_MINUTE := 60_000_000_000

  /** The delay before the next attempt, computed in 64-bit words. */
  function Delay(attempts: nat): int {
    Wrapped(ShiftedOne(attempts) * NANOS_PER_MINUTE)
  }

  /** The second statement of a failure, with the attempt count computed from the first. */
  function MarkedFailedOrRetry(jobs: Jobs, id: JobId, attempts: nat, maxAttempts: int, now: int): Jobs {
    if id !in jobs then jobs
    else if attempts >= maxAttempts then jobs[id := Unleased(jobs[id], Failed).(attempts := attempts)]
    else jobs[id := Unleased(jobs[id], RetryWait).(attempts := attempts, nextAttemptAt := now + Delay(attempts))]
  }

  class Repository {
    var jobs: Jobs

    constructor ()
      ensures jobs == map[]
    {
      jobs := map[];
    }

    /** Claims the job that has been due longest, if any is due. */
    method ClaimJob(worker: string, now: int) returns (found: bool, id: JobId)
      modifies this
      ensures found ==> id in old(jobs) && Claimable(old(jobs)[id], now) && jobs == Claimed(old(jobs), id, worker, now)
      ensures found ==>
                && id in old(jobs) && old(jobs)[id].status in {Pending, RetryWait, Unknown}
                && old(jobs)[id].nextAttemptAt <= now
                && jobs == old(jobs)[id := Job(Processing, Some(worker), Some(now), old(jobs)[id].attempts + 1,
                                               old(jobs)[id].nextAttemptAt)]
      ensures found ==> forall j <- old(jobs) | old(jobs)[j].status in {Pending, RetryWait, Unknown} ::
                          old(jobs)[id].nextAttemptAt <= old(jobs)[j].nextAttemptAt
      ensures !found ==> jobs == old(jobs) && forall j <- old(jobs) :: !Claimable(old(jobs)[j], now)
      ensures !found ==> forall j <- old(jobs) | old(jobs)[j].status in {Pending, RetryWait, Unknown} ::
                           now < old(jobs)[j].nextAttemptAt
    {
      found, id := false, "";
      var todo := jobs.Keys;
      while todo != {}
        invariant todo <= jobs.Keys && jobs == old(jobs)
        invariant found ==> id in jobs && Claimable(jobs[id], now)
        invariant forall j <- jobs | j !in todo && Claimable(jobs[j], now) ::
                    found && jobs[id].nextAttemptAt <= jobs[j].nextAttemptAt
        decreases todo
      {
        var j :| j in todo;
        todo := todo - {j};
        if Claimable(jobs[j], now) && (!found || jobs[j].nextAttemptAt < jobs[id].nextAttemptAt) {
          found, id := true, j;
        }
      }
      if found {
        jobs := jobs[id := jobs[id].(status := Processing, worker := Some(worker), heartbeatAt := Some(now),
                                     attempts := jobs[id].attempts + 1)];
      }
    }

    method UpdateHeartbeat(id: JobId, now: int)
      modifies this
      ensures jobs == Beaten(old(jobs), id, now)
    {
      if id in jobs && jobs[id].status.Processing? {
        jobs := jobs[id := jobs[id].(heartbeatAt := Some(now))];
      }
    }

    /** Exactly the stuck jobs become claimable from their time on, with no attempt lost; every other row stays. */
    method RecoverStuckJobs(cutoff: int) returns (count: nat)
      modifies this
      ensures jobs == Recovered(old(jobs), cutoff)
      ensures jobs.Keys == old(jobs).Keys
      ensures forall id <- jobs ::
                var job := old(jobs)[id];
                jobs[id] == if job.status.Processing? && job.heartbeatAt.Some? && job.heartbeatAt.value < cutoff
                            then Job(RetryWait, None, None, job.attempts, job.nextAttemptAt) else job
      ensures count == |set id <- old(jobs) | Stuck(old(jobs)[id], cutoff)|
      ensures forall id <- jobs, now: int ::
                Claimable(jobs[id], now) <==>
                Claimable(old(jobs)[id], now) || (Stuck(old(jobs)[id], cutoff) && jobs[id].nextAttemptAt <= now)
      ensures forall id <- jobs ::
                && jobs[id].attempts == old(jobs)[id].attempts && !Stuck(jobs[id], cutoff)
                && (!Stuck(old(jobs)[id], cutoff) ==> jobs[id] == old(jobs)[id])
    {
      count := |set id <- jobs | Stuck(jobs[id], cutoff)|;
      jobs := map id <- jobs :: if Stuck(jobs[id], cutoff) then Unleased(jobs[id], RetryWait) else jobs[id];
    }

    method MarkSucceeded(id: JobId)
      modifies this
      ensures jobs == MarkedSucceeded(old(jobs), id)
      ensures id in old(jobs) ==>
                var job := old(jobs)[id];
                jobs == old(jobs)[id := Job(Succeeded, None, None, job.attempts, job.nextAttemptAt)]
    {
      if id in jobs {
        jobs := jobs[id := Unleased(jobs[id], Succeeded)];
      }
    }

    method MarkRetryWait(id: JobId, at: int)
      modifies this
      ensures jobs == MarkedRetryWait(old(jobs), id, at)
      ensures id in old(jobs) ==> jobs == old(jobs)[id := Job(RetryWait, None, None, old(jobs)[id].attempts, at)]
    {
      if id in jobs {
        jobs := jobs[id := Unleased(jobs[id], RetryWait).(nextAttemptAt := at)];
      }
    }

    method MarkFailedOrRetry(id: JobId, maxAttempts: int, now: int) returns (ok: bool)
      modifies this
      ensures ok <==> id in old(jobs)
      ensures jobs == if ok then MarkedFailedOrRetry(old(jobs), id, old(jobs)[id].attempts + 1, maxAttempts, now)
                      else old(jobs)
      ensures ok ==>
                var job, n := old(jobs)[id], old(jobs)[id].attempts + 1;
                jobs == old(jobs)[id := if n >= maxAttempts then Job(Failed, None, None, n, job.nextAttemptAt)
                                        else Job(RetryWait, None, None, n,
                                                 now + Wrapped(ShiftedOne(n) * 60_000_000_000))]
    {
      if id !in jobs {
        return false;
      }
      var attempts := jobs[id].attempts;
      attempts := attempts + 1;
      if attempts >= maxAttempts {
        jobs := jobs[id := Unleased(jobs[id], Failed).(attempts := attempts)];
      } else {
        var backoff := Wrapped(ShiftedOne(attempts) * NANOS_PER_MINUTE);
        jobs := jobs[id := Unleased(jobs[id], RetryWait).(attempts := attempts, nextAttemptAt := now + backoff)];
      }
      return true;
    }
  }

  /** The delay is the 2^n minutes it is meant to be exactly for n up to 27. */
  lemma DelayExactIff(n: nat)
    ensures Delay(n) == Pow2(n) * NANOS_PER_MINUTE <==> n <= 27
  {
    assert Pow2(7) == 128;
    assert Pow2(14) == 128 * 128;
    assert Pow2(21) == 128 * 128 * 128;
    assert Pow2(28) == 128 * 128 * 128 * 128;
    assert Pow2(28) == 2 * Pow2(27);
    if n <= 27 {
      Pow2Grows(n, 27);
    } else {
      Pow2Grows(28, n);
    }
  }

  /** The retry time that a failure mark with this count writes, if it writes one, is the meant delay away. */
  predicate WritesExactly(jobs: Jobs, id: JobId, attempts: nat, maxAttempts: int, now: int)
    requires id in jobs
  {
    var job := MarkedFailedOrRetry(jobs, id, attempts, maxAttempts, now)[id];
    job.status.RetryWait? ==> job.nextAttemptAt == now + Pow2(attempts) * NANOS_PER_MINUTE
  }

  predicate MarksExactly(jobs: Jobs, id: JobId, maxAttempts: int, now: int)
    requires id in jobs
  {
    WritesExactly(jobs, id, jobs[id].attempts + 1, maxAttempts, now)
  }

  /** Every retry time that MarkFailedOrRetry can write is exact if and only if there are at most 28 attempts. */
  lemma DelaysExactIff(maxAttempts: int)
    ensures (forall jobs: Jobs, id: JobId, now: int | id in jobs :: MarksExactly(jobs, id, maxAttempts, now))
            <==> maxAttempts <= 28
  {
    if maxAttempts <= 28 {
      forall jobs: Jobs, id: JobId, now: int | id in jobs
        ensures MarksExactly(jobs, id, maxAttempts, now)
      {
        DelayExactIff(jobs[id].attempts + 1);
      }
    } else {
      var jobs := map["" := Job(Processing, None, None, 27, 0)];
      DelayExactIff(28);
      assert !MarksExactly(jobs, "", maxAttempts, 0);
    }
  }
}
