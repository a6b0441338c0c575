/** The linked job queue of the thread pool, node by node.

    The methods are the critical sections of `thread_pool.c`, proved to do to a ghost
    sequence of nodes what `JobQueue.Link` and `JobQueue.Unlink` say, which is what the
    steps of `PoolModel` do to theirs. */
module WorkQueues {
  import opened JobQueue
  import opened Memory
  import PoolModel

  class Job {
    var next: Job?
    const argument: int  // stands for the function and its argument

    constructor (argument: int)
      ensures this.argument == argument && next == null
    {
      this.argument := argument;
      next := null;
    }
  }

  class WorkQueue {
    var head: Job?
    var tail: Job?
    var count: nat

    ghost var jobs: seq<Job>  // the nodes reachable from head, in order

    constructor ()
      ensures Valid() && jobs == [] && count == 0
    {
      head, tail, count := null, null, 0;
      jobs := [];
    }

    /** The nodes from head are exactly `jobs`, without a cycle, and tail is the last of them. */
    ghost predicate Valid()
      reads this, jobs
    {
      && (forall i, k :: 0 <= i < k < |jobs| ==> jobs[i] != jobs[k])
      && head == (if jobs == [] then null else jobs[0])
      && tail == (if jobs == [] then null else jobs[|jobs| - 1])
      && (forall i {:trigger jobs[i].next} :: 0 <= i < |jobs| - 1 ==> jobs[i].next == jobs[i + 1])
      && (jobs != [] ==> jobs[|jobs| - 1].next == null)
    }

    /** Lines 336-345. Line 343 needs a tail to write through unless the count is 0. */
    method LinkJob(job: Job)
      requires Valid() && job !in jobs && job.next == null
      requires count != 0 ==> jobs != []
      modifies this`head, this`tail, this`jobs, jobs
      ensures Valid() && jobs == Link(old(jobs), count, job)
      ensures forall j :: j in old(jobs) && j != old(tail) ==> j.next == old(j.next)
    {
      if count == 0 {
        head := job;
        tail := job;
        jobs := [job];
      } else {
        tail.next := job;
        tail := job;
        jobs := jobs + [job];
      }
    }

    /** Lines 333-354: the job goes to the end of the list and the count follows. */
    method Enqueue(job: Job)
      requires Valid() && job !in jobs && job.next == null
      requires count == |jobs| && |jobs| + 1 < PoolModel.RANGE64
      modifies this, jobs
      ensures Valid() && jobs == old(jobs) + [job] && count == |jobs|
    {
      LinkJob(job);
      count := PoolModel.Inc64(count);
    }

    /** Lines 370-386 without the decrements: the head of the list, and the list without it. */
    method UnlinkJob() returns (work: Job?)
      requires Valid()
      requires count != 0 ==> jobs != []
      requires count == 1 ==> |jobs| == 1
      requires count > 1 ==> |jobs| > 1
      modifies this`head, this`tail, this`jobs
      ensures Valid() && jobs == Unlink(old(jobs), count)
      ensures work == old(head)
    {
      work := head;
      if count == 1 {
        head := null;
        tail := null;
        jobs := [];
      } else if count > 1 {
        head := work.next;
        assert forall i :: 0 <= i < |jobs| - 1 ==> jobs[1..][i] == jobs[i + 1];
        jobs := jobs[1..];
      }
    }

    /** Lines 367-388: the oldest job is returned and removed, NULL if there is none. */
    method Dequeue() returns (work: Job?)
      requires Valid() && count == |jobs|
      modifies this
      ensures Valid() && count == |jobs|
      ensures if old(jobs) == [] then work == null && jobs == []
              else work == old(jobs)[0] && jobs == old(jobs)[1..]
    {
      var before := count;
      work := UnlinkJob();
      if before >= 1 {
        count := PoolModel.Dec64(count);
      }
    }

    /** Lines 271-279: every job left in the list is freed, once, in list order. */
    method Drain(heap: Heap)
      requires Valid()
      requires forall j :: j in jobs ==> heap.Live(j)
      modifies jobs, heap
      ensures heap.freed == old(heap.freed) + old(jobs) && heap.obtained == old(heap.obtained)
    {
      var job := head;
      ghost var k := 0;
      while job != null
        invariant 0 <= k <= |jobs|
        invariant job == (if k == |jobs| then null else jobs[k])
        invariant forall i {:trigger jobs[i].next} :: k <= i < |jobs| - 1 ==> jobs[i].next == jobs[i + 1]
        invariant k < |jobs| ==> jobs[|jobs| - 1].next == null
        invariant heap.freed == old(heap.freed) + jobs[..k] && heap.obtained == old(heap.obtained)
        decreases |jobs| - k
      {
        assert jobs[..k + 1] == jobs[..k] + [job];
        assert job !in jobs[..k] && job in jobs;
        var temp := job.next;
        job.next := null;
        heap.Free(job);
        job := temp;
        k := k + 1;
      }
      assert jobs[..k] == jobs;
    }
  }
}
