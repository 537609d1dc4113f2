/** The linked job queue of server/src/thpool.c (`jobqueue_*`) and the flag of its binary semaphore (`bsem_*`).
    Callers hold the queue's mutex, so each method runs alone; PoolProtocol interleaves them. */
module JobQueue {

  class BinarySemaphore {
    var v: bool

    constructor ()
      ensures !v
    {
      v := false;
    }

    method Post()
      modifies this
      ensures v
    {
      v := true;
    }

    method Reset()
      modifies this
      ensures !v
    {
      v := false;
    }
  }

  class PoolJob<T> {
    var prev: PoolJob?<T>
    const task: T

    constructor (task: T)
      ensures this.task == task
    {
      this.task := task;
      this.prev := null;
    }
  }

  class Queue<T> {
    var front: PoolJob?<T>
    var rear: PoolJob?<T>
    var len: nat
    const hasJobs: BinarySemaphore

    ghost var jobs: seq<PoolJob<T>>    // queued, front first
    ghost var pushed: seq<PoolJob<T>>  // every job ever pushed
    ghost var pulled: seq<PoolJob<T>>  // every job ever pulled

    ghost predicate Linked()
      reads this, jobs
    {
      && len == |jobs|
      && (jobs == [] ==> front == null && rear == null)
      && (jobs != [] ==> front == jobs[0] && rear == jobs[|jobs| - 1] && jobs[|jobs| - 1].prev == null)
      && (forall i {:trigger jobs[i].prev} :: 0 <= i < |jobs| - 1 ==> jobs[i].prev == jobs[i + 1])
    }

    /** Pulled jobs followed by queued jobs are the pushed jobs in order, and no job was pushed twice. */
    ghost predicate Valid()
      reads this, jobs
    {
      Linked() && pulled + jobs == pushed && (forall i, j :: 0 <= i < j < |pushed| ==> pushed[i] != pushed[j])
    }

    constructor ()
      ensures Valid() && jobs == [] && pushed == [] && !hasJobs.v && fresh(hasJobs)
    {
      front, rear, len := null, null, 0;
      jobs, pushed, pulled := [], [], [];
      hasJobs := new BinarySemaphore();
    }

    method Push(newJob: PoolJob<T>)
      requires Valid() && newJob !in pushed
      modifies this, jobs, newJob, hasJobs
      ensures Valid() && jobs == old(jobs) + [newJob] && hasJobs.v
      ensures pushed == old(pushed) + [newJob] && pulled == old(pulled)
    {
      assert forall x :: x in jobs ==> x in pulled + jobs;
      newJob.prev := null;
      if len == 0 {
        front := newJob;
        rear := newJob;
      } else {
        rear.prev := newJob;
        rear := newJob;
      }
      len := len + 1;
      jobs, pushed := jobs + [newJob], pushed + [newJob];
      hasJobs.Post();
    }

    /** Posts again exactly when more than one job was queued. */
    method Pull() returns (job: PoolJob?<T>)
      requires Valid()
      modifies this, hasJobs
      ensures Valid() && pushed == old(pushed)
      ensures old(jobs) == [] ==> job == null && jobs == [] && pulled == old(pulled)
      ensures old(jobs) != [] ==>
        && job == old(jobs)[0] && jobs == old(jobs)[1..] && pulled == old(pulled) + [job]
        && job !in old(pulled) && job !in jobs
      ensures hasJobs.v == (old(hasJobs.v) || |old(jobs)| > 1)
    {
      job := front;
      if len != 0 {
        assert forall i :: 0 <= i < |pulled| ==> pulled[i] == pushed[i];
        assert forall i :: 0 <= i < |jobs| ==> jobs[i] == pushed[|pulled| + i];
        assert pulled + jobs == pulled + [job] + jobs[1..];
      }
      if len == 0 {
      } else if len == 1 {
        front := null;
        rear := null;
        len := 0;
      } else {
        front := job.prev;
        len := len - 1;
        hasJobs.Post();
      }
      if jobs != [] {
        jobs, pulled := jobs[1..], pulled + [job];
      }
    }

    method Clear()
      requires Valid()
      modifies this, hasJobs
      ensures Valid() && jobs == [] && len == 0 && front == null && rear == null && !hasJobs.v
      ensures pushed == old(pushed) && pulled == pushed
    {
      while len != 0
        invariant Valid() && pushed == old(pushed)
        decreases len
      {
        var job := Pull();
      }
      front := null;
      rear := null;
      hasJobs.Reset();
      len := 0;
    }
  }
}
