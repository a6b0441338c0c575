/** When the pool can move at all, before line 257. */
module PoolDispatch {
  import opened Wrappers
  import opened PoolModel
  import opened PoolInvariant
  import opened PoolSafety
  import opened PoolShutdown

  /** On its way out of the loop at 408. */
  predicate Leaving(w: Worker) {
    w.LastCount? || w.LastSignal? || w.MarkDead? || w.Exited?
  }

  ghost predicate NoneLeaves(s: State) {
    s.active == 1 ==> forall i :: 0 <= i < |s.workers| ==> !Leaving(s.workers[i])
  }

  lemma KeepsNoneLeaves(s: State, a: Action)
    requires Counters(s) && NoneLeaves(s) && Enabled(s, a)
    ensures NoneLeaves(Step(s, a))
  {
    if a.Work? {
      hide WorkerStep;
      OneWorkerMoves(s, a.index, a.wake);
      AliveSteps(s, a.index, a.wake);
    } else {
      OthersOnlyWake(s, a);
      OthersKeepCounters(s, a);
    }
  }

  lemma {:induction false} RunKeepsNoneLeaves(s: State, run: seq<Action>)
    requires Inv(s) && NoneLeaves(s) && Feasible(s, run)
    ensures NoneLeaves(After(s, run))
    decreases |run|
  {
    if run != [] {
      hide Enabled, Step, NoneLeaves;
      KeepsNoneLeaves(s, run[0]);
      StepInv(s, run[0]);
      RunKeepsNoneLeaves(Step(s, run[0]), run[1..]);
    }
  }

  /** No worker leaves the pool before thpool_destroy has been called. */
  lemma NobodyLeavesEarly(s: State, i: nat)
    requires Reachable(s) && s.destroyer == NotCalled && i < |s.workers|
    ensures !Leaving(s.workers[i])
  {
    var start, run :| Init(start) && Feasible(start, run) && After(start, run) == s;
    InitInv(start);
    RunKeepsNoneLeaves(start, run);
    ReachableInv(s);
  }

  /** Every worker is blocked on run_cond and no enqueue is in flight to signal it. */
  ghost predicate Asleep(s: State) {
    && s.enqueuers == map[]
    && forall i :: 0 <= i < |s.workers| ==> s.workers[i] == Waiting
  }

  /** Asleep on a job. */
  ghost predicate Stalled(s: State) {
    s.destroyer == NotCalled && s.count > 0 && Asleep(s)
  }

  /** The next step of a worker or of an enqueue in flight. */
  predicate OfThePool(a: Action) { a.Work? || a.Enqueue? }

  /** A mutex is never held by a thread that cannot move. */
  lemma QueueHolderCanStep(s: State) returns (a: Action)
    requires Locks(s) && s.queueMutex.Some?
    ensures OfThePool(a) && Enabled(s, a)
  {
    match s.queueMutex.value
    case WorkerThread(k) => a := Work(k, None);
    case EnqueueCall(j) => a := Enqueue(j, None);
  }

  lemma EnqueuerCanStep(s: State, j: JobId) returns (a: Action)
    requires Locks(s) && j in s.enqueuers
    ensures OfThePool(a) && Enabled(s, a)
  {
    if s.enqueuers[j] == EnqLock && s.queueMutex.Some? {
      a := QueueHolderCanStep(s);
    } else {
      var wake := SomeSignalChoice(s.workers);
      a := Enqueue(j, wake);
    }
  }

  lemma AwakeCanStep(s: State) returns (a: Action)
    requires Locks(s) && !Asleep(s)
    requires forall i :: 0 <= i < |s.workers| ==> !Leaving(s.workers[i])
    ensures OfThePool(a) && Enabled(s, a)
  {
    if s.enqueuers != map[] {
      var j :| j in s.enqueuers;
      a := EnqueuerCanStep(s, j);
    } else {
      hide Locks, Enabled;
      a := SomeoneCanStep(s);
    }
  }

  lemma AsleepCannotStep(s: State, a: Action)
    requires Asleep(s) && OfThePool(a)
    ensures !Enabled(s, a)
  {
  }

  /** Until thpool_destroy is called, the pool can move by itself exactly when it is not asleep: there
      is no other deadlock. */
  lemma SomeoneMovesExactly(s: State)
    requires Reachable(s) && s.destroyer == NotCalled
    ensures (exists a :: OfThePool(a) && Enabled(s, a)) <==> !Asleep(s)
  {
    hide Enabled, Reachable, Leaving, Asleep;
    ReachableInv(s);
    if Asleep(s) {
      forall a | OfThePool(a) ensures !Enabled(s, a) {
        AsleepCannotStep(s, a);
      }
    } else {
      forall i: nat | i < |s.workers| ensures !Leaving(s.workers[i]) {
        NobodyLeavesEarly(s, i);
      }
      var a := AwakeCanStep(s);
    }
  }

  /** The one step that strands a job: the last worker awake blocks on run_cond at line 417 although
      job_count has risen since line 413, and the enqueue that raised it has already signalled. */
  predicate Strands(s: State, a: Action) {
    && a.Work? && a.index < |s.workers| && s.workers[a.index] == EnterWait
    && s.count > 0 && s.enqueuers == map[] && s.destroyer == NotCalled
    && forall k :: 0 <= k < |s.workers| && k != a.index ==> s.workers[k] == Waiting
  }

  /** Jobs are stranded by that step and by no other. */
  lemma StalledExactly(s: State, a: Action)
    requires Reachable(s) && Enabled(s, a) && !Stalled(s)
    ensures Stalled(Step(s, a)) <==> Strands(s, a)
  {
    ReachableInv(s);
    if a.Work? {
      WorkerStalls(s, a.index, a.wake);
    } else {
      OthersNeverStall(s, a);
    }
  }

  lemma WorkerStalls(s: State, i: nat, wake: Option<nat>)
    requires i < |s.workers| && WorkerEnabled(s, i, wake)
    ensures Stalled(WorkerStep(s, i, wake)) <==> Strands(s, Work(i, wake))
  {
    hide WorkerStep;
    OneWorkerMoves(s, i, wake);
    ClientFrame(s, i, wake);
    if s.workers[i] == EnterWait {
      ListFrame(s, i, wake);
      forall k: nat | k < |s.workers| && k != i {
        OtherWorkersStay(s, i, wake, k);
      }
    }
  }

  /** An enqueue that signals while all workers sleep wakes one. */
  lemma EnqueueNeverStalls(s: State, j: JobId, wake: Option<nat>)
    requires s.workers != [] && Enabled(s, Enqueue(j, wake))
    ensures !Asleep(EnqueueStep(s, j, wake))
  {
    var t := EnqueueStep(s, j, wake);
    if s.enqueuers[j] == EnqSignal {
      match wake
      case Some(k) => assert t.workers[k] == Woken;
      case None => assert t.workers[0] == s.workers[0] != Waiting;
    } else {
      assert j in t.enqueuers;
    }
  }

  lemma OthersNeverStall(s: State, a: Action)
    requires s.workers != [] && Enabled(s, a) && !a.Work? && !Stalled(s)
    ensures !Stalled(Step(s, a))
  {
    if a.Enqueue? {
      hide EnqueueStep;
      EnqueueNeverStalls(s, a.job, a.wake);
    } else {
      OthersLeaveCount(s, a);
      OthersOnlyWake(s, a);
    }
  }
}
