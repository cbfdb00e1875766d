/**
 * The executor that runs storage work one job at a time in the order of acceptance.
 * Each method is one section under its lock; any interleaving of them is a run.
 */
module StorageExecutor {
  import opened Options

  const LIMIT := 256
  const CLEANUP_LIMIT := 512
  const MAX_MESSAGE := 1024 * 1024

  /** cleanup marks the jobs that may use the reserved half of the queue; the source forgets it once a job is queued. */
  datatype Job = Job(id: nat, bytes: nat, cleanup: bool)

  /** What the worker goroutine is about to do; it does not exist when it is stopped. */
  datatype Worker = Stopped | Fetching | Working(job: nat)

  function Bytes(jobs: seq<Job>): nat {
    if jobs == [] then 0 else jobs[0].bytes + Bytes(jobs[1..])
  }

  function Ids(jobs: seq<Job>): (ids: seq<nat>)
    ensures |ids| == |jobs| && forall i :: 0 <= i < |jobs| ==> ids[i] == jobs[i].id
  {
    seq(|jobs|, i requires 0 <= i < |jobs| => jobs[i].id)
  }

  /** The queued jobs that are not cleanup, and what they weigh. */
  ghost function Ordinary(jobs: seq<Job>): nat {
    if jobs == [] then 0 else (if jobs[0].cleanup then 0 else 1) + Ordinary(jobs[1..])
  }

  ghost function Cleanups(jobs: seq<Job>): nat {
    if jobs == [] then 0 else (if jobs[0].cleanup then 1 else 0) + Cleanups(jobs[1..])
  }

  lemma {:induction false} Append(jobs: seq<Job>, job: Job)
    ensures Bytes(jobs + [job]) == Bytes(jobs) + job.bytes
    ensures Ordinary(jobs + [job]) == Ordinary(jobs) + if job.cleanup then 0 else 1
    ensures Cleanups(jobs + [job]) == Cleanups(jobs) + if job.cleanup then 1 else 0
  {
    if jobs == [] {
      assert (jobs + [job])[1..] == [];
    } else {
      assert (jobs + [job])[1..] == jobs[1..] + [job];
      Append(jobs[1..], job);
    }
  }

  lemma {:induction false} EachIsCounted(jobs: seq<Job>)
    ensures Ordinary(jobs) + Cleanups(jobs) == |jobs|
  {
    if jobs != [] {
      EachIsCounted(jobs[1..]);
    }
  }

  class Executor {
    var jobs: seq<Job>
    var bytes: int
    var running: bool
    var worker: Worker
    /** Every accepted job and every finished one, in order. */
    ghost var accepted: seq<nat>
    ghost var finished: seq<nat>

    ghost predicate Valid()
      reads this
    {
      && bytes == Bytes(jobs)
      && |jobs| <= CLEANUP_LIMIT && Ordinary(jobs) <= LIMIT
      && running == !worker.Stopped?
      && (jobs != [] ==> running)
      && accepted == finished + (if worker.Working? then [worker.job] else []) + Ids(jobs)
    }

    constructor ()
      ensures Valid() && jobs == [] && accepted == [] && finished == []
    {
      jobs, bytes, running, worker := [], 0, false, Stopped;
      accepted, finished := [], [];
    }

    /**
     * A job is refused only when the queue is full for its kind: ordinary work at 256
     * queued jobs or 4 MiB, cleanup at 512 jobs, of which at least 256 are then cleanup.
     */
    method Submit(size: nat, cleanup: bool, id: nat) returns (ok: bool)
      requires Valid()
      modifies this
      ensures Valid()
      ensures ok <==>
        |old(jobs)| < (if cleanup then CLEANUP_LIMIT else LIMIT) && (cleanup || Bytes(old(jobs)) + size <= 4 * MAX_MESSAGE)
      ensures ok ==> accepted == old(accepted) + [id] && finished == old(finished)
      ensures ok ==> jobs == old(jobs) + [Job(id, size, cleanup)]
      ensures !ok ==> unchanged(this)
      ensures !ok && cleanup ==> Cleanups(old(jobs)) >= CLEANUP_LIMIT - LIMIT
      ensures ok && (forall j :: j in old(jobs) && j.cleanup ==> j.bytes == 0) && !cleanup ==> bytes <= 4 * MAX_MESSAGE
    {
      EachIsCounted(jobs);
      var limit := if cleanup then CLEANUP_LIMIT else LIMIT;
      if |jobs| >= limit || (!cleanup && bytes + size > 4 * MAX_MESSAGE) {
        return false;
      }
      Append(jobs, Job(id, size, cleanup));
      EachIsCounted(jobs + [Job(id, size, cleanup)]);
      assert Ids(jobs + [Job(id, size, cleanup)]) == Ids(jobs) + [id];
      accepted := accepted + [id];
      jobs := jobs + [Job(id, size, cleanup)];
      bytes := bytes + size;
      if !running {
        running := true;
        worker := Fetching;
      }
      return true;
    }

    /** The worker takes the oldest job, or stops when there is none. */
    method Fetch() returns (job: Option<nat>)
      requires Valid() && worker.Fetching?
      modifies this
      ensures Valid() && accepted == old(accepted) && finished == old(finished)
      ensures if old(jobs) == [] then job == None && worker == Stopped && jobs == []
        else job == Some(old(jobs)[0].id) && worker == Working(old(jobs)[0].id) && jobs == old(jobs)[1..]
    {
      if |jobs| == 0 {
        running := false;
        worker := Stopped;
        return None;
      }
      var first := jobs[0];
      assert Ids(jobs) == [first.id] + Ids(jobs[1..]);
      jobs := jobs[1..];
      bytes := bytes - first.bytes;
      worker := Working(first.id);
      return Some(first.id);
    }

    /** The work of the job has been done, outside the lock. */
    method Finish()
      requires Valid() && worker.Working?
      modifies this
      ensures Valid() && worker == Fetching && jobs == old(jobs) && accepted == old(accepted)
      ensures finished == old(finished) + [old(worker.job)]
    {
      finished := finished + [worker.job];
      worker := Fetching;
    }

    /** The worker loop: left alone, it finishes every accepted job and stops. */
    method Run()
      requires Valid() && worker.Fetching?
      modifies this
      ensures Valid() && worker == Stopped && jobs == []
      ensures accepted == old(accepted) && finished == accepted
    {
      while true
        invariant Valid() && worker.Fetching? && accepted == old(accepted)
        decreases |jobs|
      {
        var job := Fetch();
        if job.None? {
          return;
        }
        Finish();
      }
    }
  }
}
