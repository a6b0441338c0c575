/** Whether thpool_wait waits for the jobs it is called for, seen from its first load. */
module PoolWait {
  import opened Wrappers
  import opened PoolModel
  import opened Tally
  import opened PoolInvariant
  import opened PoolSafety
  import opened PoolShutdown
  import opened PoolDispatch

  // ----- with job_count at 0, nothing can go wrong any more

  /** What has finished stays finished. */
  lemma FinishedGrows(s: State, a: Action)
    requires Enabled(s, a)
    ensures s.log.finished <= Step(s, a).log.finished
  {
    if a.Work? {
      hide WorkerStep;
      JobSteps(s, a.index, a.wake);
    } else {
      hide Step;
      OthersKeepJobLogs(s, a);
    }
  }

  lemma {:induction false} FinishedOnlyGrows(s: State, run: seq<Action>)
    requires Feasible(s, run)
    ensures s.log.finished <= After(s, run).log.finished
    decreases |run|
  {
    hide Enabled, Step;
    if run != [] {
      FinishedGrows(s, run[0]);
      FinishedOnlyGrows(Step(s, run[0]), run[1..]);
    }
  }

  /** With no job counted any more, a waiter past its first load has nothing to wait for. */
  ghost predicate WaitsForNothing(s: State) {
    && s.count == 0
    && (s.waiter == WaitCount || s.waiter == WaitUnlock ==> AllCountedFinished(s))
  }

  lemma StillFinished(s: State, a: Action)
    requires Enabled(s, a) && Step(s, a).log.counted == s.log.counted && AllCountedFinished(s)
    ensures AllCountedFinished(Step(s, a))
  {
    hide Enabled, Step;
    FinishedGrows(s, a);
  }

  /** It passes its first load only if no worker works, and its second only after that. */
  lemma StaysForNothing(s: State, a: Action)
    requires Inv(s) && Reachable(s) && Enabled(s, a) && WaitsForNothing(s)
    requires Step(s, a).log.counted == s.log.counted && Step(s, a).count == 0
    ensures WaitsForNothing(Step(s, a))
  {
    hide Inv, Reachable, AllCountedFinished;
    if a == Wait && s.waiter == WaitWorking && s.working == 0 {
      Quiescence(s);
    }
    if AllCountedFinished(s) {
      StillFinished(s, a);
    } else {
      WaiterSteps(s, a);
    }
  }

  /** The waiter comes to its second load only from the first, and to line 242 only from the second. */
  lemma WaiterSteps(s: State, a: Action)
    requires Enabled(s, a)
    ensures Step(s, a).waiter == WaitCount ==>
              s.waiter == WaitCount || (a == Wait && s.waiter == WaitWorking && s.working == 0)
    ensures Step(s, a).waiter == WaitUnlock ==> s.waiter == WaitUnlock || s.waiter == WaitCount
  {
  }

  lemma {:induction false} RunForNothing(s: State, run: seq<Action>)
    requires Reachable(s) && Feasible(s, run) && WaitsForNothing(s)
    requires After(s, run).log.counted == s.log.counted
    ensures WaitsForNothing(After(s, run))
    decreases |run|
  {
    hide Inv, Enabled, Step, Reachable, WaitsForNothing;
    if run != [] {
      var t := Step(s, run[0]);
      ReachableInv(s);
      ReachNext(s, run[0]);
      ReachableInv(t);
      NothingCounted(s, run);
      StaysForNothing(s, run[0]);
      RunForNothing(t, run[1..]);
    }
  }

  lemma NothingCounted(s: State, run: seq<Action>)
    requires Inv(s) && run != [] && Feasible(s, run) && WaitsForNothing(s)
    requires After(s, run).log.counted == s.log.counted
    ensures var t := Step(s, run[0]); t.log.counted == s.log.counted && t.count == 0
  {
    hide Inv, Enabled, Step;
    var t := Step(s, run[0]);
    StepInv(s, run[0]);
    CountedGrowsWithCount(s, run[0]);
    CountedOnlyGrows(t, run[1..]);
    OneStepCounts(s, run[0]);
  }

  lemma OneStepCounts(s: State, a: Action)
    requires Inv(s) && Enabled(s, a) && s.count == 0 && Step(s, a).log.counted == s.log.counted
    ensures Step(s, a).count == 0
  {
    hide Inv, Enabled, Step;
    StepNeverWraps(s, a);
    CountedGrowsWithCount(s, a);
  }

  /** A call of thpool_wait that finds job_count at 0 from its first load on, whatever workers_working is,
      returns only when every counted job has finished. */
  lemma EmptyListWaitIsSound(s: State, run: seq<Action>)
    requires Reachable(s) && s.waiter == WaitWorking && s.count == 0
    requires Feasible(s, run) && After(s, run).waiter == WaitUnlock && After(s, run).log.counted == s.log.counted
    ensures AllCountedFinished(After(s, run))
  {
    hide Reachable, Feasible, After, AllCountedFinished;
    RunForNothing(s, run);
  }

  /** How many steps of its own a waiter needs to return from an idle pool, with one wakeup if it is blocked. */
  function StepsToReturn(w: Waiter): nat {
    match w
    case WaitIdle => 0
    case WaitUnlock => 1
    case WaitCount => 2
    case WaitWorking => 3
    case WaitWoken => 4
    case WaitBlocked => 5
    case WaitEnter => 6
  }

  /** In an idle pool the client needs nothing but its own steps and a wakeup to return, and it changes
      nothing. */
  lemma {:induction false} IdlePoolLetsReturn(s: State) returns (run: seq<Action>)
    requires s.working == 0 && s.count == 0
    ensures Feasible(s, run) && After(s, run) == s.(waiter := WaitIdle)
    ensures forall a :: a in run ==> a == Wait || a == WaitSpurious
    ensures |run| == StepsToReturn(s.waiter)
    decreases StepsToReturn(s.waiter)
  {
    if s.waiter == WaitIdle {
      return [];
    }
    var a := if s.waiter == WaitBlocked then WaitSpurious else Wait;
    var rest := IdlePoolLetsReturn(Step(s, a));
    RunCons(s, a, rest);
    return [a] + rest;
  }

  // ----- with job_count above 0, a worker can empty the list behind the waiter's back

  /** The steps worker w has to take until it next lowers job_count, if no one gets in its way. */
  function StepsToTake(w: Worker): nat {
    match w
    case SubCount(_) => 1
    case ReadNext(_) => 2
    case ReadHead => 3
    case LockQueue => 4
    case MarkWorking => 5
    case SecondCheck => 6
    case UnlockRun => 7
    case TestCount => 8
    case Woken => 9
    case LockRun => 9
    case Waiting => 10
    case LoopHead => 10
    case EnterWait => 11
    case IdleSignal => 11
    case IdleCount => 11
    case TestActive => 12
    case UnmarkWorking => 12
    case FreeJob(_) => 13
    case Running(_) => 14
    case StartJob(_) => 15
    case SignalRun(_) => 16
    case UnlockQueue(_) => 17
    case _ => 0
  }

  /** The waiter is between its two loads, jobs are counted, and worker k has the pool to itself. */
  ghost predicate Alone(s: State, k: nat) {
    && s.waiter == WaitCount && s.count > 0 && s.active == 1
    && k < |s.workers| && s.workers[k] != Spawned && !Leaving(s.workers[k])
    && (s.runMutex == None || s.runMutex == Some(k))
    && (s.queueMutex == None || s.queueMutex == Some(WorkerThread(k)))
  }

  /** The next action of worker k on its own: cnd_wait may return unasked. */
  lemma NextAlone(s: State, k: nat) returns (a: Action)
    requires Inv(s) && Alone(s, k)
    ensures Enabled(s, a)
    ensures a == Spurious(k) || (a.Work? && a.index == k)
    ensures a == Spurious(k) <==> s.workers[k] == Waiting
  {
    if s.workers[k] == Waiting {
      return Spurious(k);
    }
    var wake := SomeSignalChoice(s.workers);
    return Work(k, wake);
  }

  /** What its steps leave alone, and how the mutexes stay its own. */
  lemma AloneFrame(s: State, k: nat, wake: Option<nat>)
    requires Alone(s, k) && WorkerEnabled(s, k, wake)
    ensures var t := WorkerStep(s, k, wake);
            && t.waiter == WaitCount && t.active == 1
            && (t.runMutex == None || t.runMutex == Some(k))
            && (t.queueMutex == None || t.queueMutex == Some(WorkerThread(k)))
  {
    MutexSteps(s, k, wake);
  }

  /** What it does to the count. */
  lemma AloneCounts(s: State, k: nat, wake: Option<nat>)
    requires Inv(s) && k < |s.workers| && WorkerEnabled(s, k, wake)
    ensures var w, t := s.workers[k], WorkerStep(s, k, wake);
            if w.SubCount? then t.count == s.count - 1 && w.work.Some? else t.count == s.count
    ensures s.workers[k].ReadNext? ==> s.count != 1
  {
    hide WorkerStep, Startup, Locks, CountMatches, Order, Accounts, Teardown;
    CountNeverWraps(s, k, wake);
    assert View(s, s.workers[k]);
  }

  /** With jobs to take and the pool active it comes one step closer to taking one. */
  lemma ComesCloser(s: State, k: nat)
    requires Alone(s, k) && s.workers[k] != Waiting
    requires s.workers[k].ReadNext? ==> s.count != 1
    ensures var w, v := s.workers[k], NextLine(s, s.workers[k]);
            && v != Spawned && !Leaving(v)
            && (if w.SubCount? then v == UnlockQueue(w.work) else StepsToTake(v) < StepsToTake(w))
  {
  }

  /** It stays alone until it takes the last job. */
  lemma StaysAlone(s: State, a: Action, k: nat)
    requires Inv(s) && Alone(s, k) && Enabled(s, a)
    requires if s.workers[k] == Waiting then a == Spurious(k) else a.Work? && a.index == k
    ensures var t := Step(s, a);
            && t.waiter == WaitCount && t.log.counted == s.log.counted && k < |t.workers|
            && (t.count > 0 ==>
                  && Alone(t, k)
                  && (t.count < s.count
                      || (t.count == s.count && StepsToTake(t.workers[k]) < StepsToTake(s.workers[k]))))
            && (t.count == 0 ==> HeldJob(t.workers[k]) != [])
  {
    hide Inv;
    if a.Work? {
      hide WorkerStep, NextLine;
      AloneFrame(s, k, a.wake);
      AloneCounts(s, k, a.wake);
      ComesCloser(s, k);
      LogFrame(s, k, a.wake);
      OneWorkerMoves(s, k, a.wake);
    }
  }

  /** Worker k takes one job after the other, and stops with the last of them in hand. */
  lemma {:induction false} WorkerEmptiesList(s: State, k: nat) returns (run: seq<Action>)
    requires Inv(s) && Alone(s, k)
    ensures Feasible(s, run)
    ensures var t := After(s, run);
            && t.waiter == WaitCount && t.count == 0 && t.log.counted == s.log.counted
            && !EmptyHanded(t.workers)
    decreases s.count, StepsToTake(s.workers[k])
  {
    hide Inv, Enabled, Step;
    var a := NextAlone(s, k);
    var t := Step(s, a);
    StepInv(s, a);
    StaysAlone(s, a, k);
    var rest := [];
    if t.count > 0 {
      rest := WorkerEmptiesList(t, k);
    }
    RunCons(s, a, rest);
    return [a] + rest;
  }

  /** The run starts with the first load of line 231 and ends as the loop is left, with no job counted in
      between. */
  ghost predicate WaitsThrough(s: State, run: seq<Action>) {
    && run != [] && run[0] == Wait
    && Feasible(s, run)
    && After(s, run).waiter == WaitUnlock
    && After(s, run).log.counted == s.log.counted
  }

  /** With job_count at 0 every job counted so far has finished already. */
  lemma NothingLeftToWaitFor(s: State, run: seq<Action>)
    requires Reachable(s) && s.working == 0 && s.count == 0 && WaitsThrough(s, run)
    ensures AllCountedFinished(After(s, run))
  {
    hide Feasible, After;
    Quiescence(s);
    FinishedOnlyGrows(s, run);
  }

  /** While a client waits for idle workers no worker is inside the queue's critical sections. */
  lemma SomeoneIsAlone(s: State) returns (k: nat)
    requires Reachable(s) && s.waiter == WaitCount && s.working == 0 && s.count > 0
    requires s.destroyer == NotCalled && s.enqueuers == map[]
    ensures Alone(s, k)
  {
    ReachableInv(s);
    k := if s.runMutex.Some? then s.runMutex.value else 0;
    NobodyLeavesEarly(s, k);
    if s.queueMutex.Some? {
      SumMember(s.workers, s.queueMutex.value.index, WorkingBit);
      assert false;
    }
  }

  /** With job_count above 0, one worker can take every job between the two loads, and the wait is over
      with the last of them in its hands. */
  lemma WaitCanBeFooled(s: State) returns (run: seq<Action>)
    requires Reachable(s) && s.waiter == WaitWorking && s.working == 0 && s.count > 0
    requires s.destroyer == NotCalled && s.enqueuers == map[]
    ensures WaitsThrough(s, run) && !AllCountedFinished(After(s, run))
  {
    var s1 := Step(s, Wait);
    ReachNext(s, Wait);
    var k := SomeoneIsAlone(s1);
    ReachableInv(s1);
    var rest := WorkerEmptiesList(s1, k);
    var t := After(s1, rest);
    RunInv(s1, rest);
    ZeroCountExactly(t);
    RunSnoc(s1, rest, Wait);
    RunCons(s, Wait, rest + [Wait]);
    run := [Wait] + (rest + [Wait]);
  }

  /** With no enqueue in flight and the pool not being destroyed, thpool_wait, having read workers_working as
      0, can be trusted to wait for every counted job exactly when job_count is 0 at that moment. */
  lemma WaitReturnsExactly(s: State)
    requires Reachable(s) && s.waiter == WaitWorking && s.working == 0
    requires s.destroyer == NotCalled && s.enqueuers == map[]
    ensures (forall run :: WaitsThrough(s, run) ==> AllCountedFinished(After(s, run))) <==> s.count == 0
  {
    hide Reachable, Feasible, After, AllCountedFinished;
    if s.count == 0 {
      forall run | WaitsThrough(s, run) ensures AllCountedFinished(After(s, run)) {
        NothingLeftToWaitFor(s, run);
      }
    } else {
      var run := WaitCanBeFooled(s);
    }
  }

  // ----- the waiter can miss the last signal

  /** A worker that, as long as job_count is 0, never signals wait_cond: before line 257 it only ever comes back
      to line 417, after it it leaves by line 408. */
  predicate Silent(w: Worker, active: nat) {
    if active == 1 then
      w.LoopHead? || w.LockRun? || w.TestCount? || w.TestActive? || w.EnterWait? || w.Waiting? || w.Woken?
    else
      w.LoopHead? || w.MarkDead? || w.Exited?
  }

  ghost predicate AllSilent(ws: seq<Worker>, active: nat) {
    forall i :: 0 <= i < |ws| ==> Silent(ws[i], active)
  }

  /** No signal of wait_cond is to be expected, from a worker or thanks to a job still to be counted. */
  ghost predicate NoSignalLeft(s: State) {
    && s.count == 0
    && AllSilent(s.workers, s.active)
    && (forall j :: j in s.enqueuers ==> s.enqueuers[j] in {EnqUnlock, EnqSignal})
  }

  /** The waiter is blocked on wait_cond, and no signal is left to wake it. */
  ghost predicate Stranded(s: State) {
    s.waiter == WaitBlocked && NoSignalLeft(s)
  }

  /** What it waits for is there all the same. */
  lemma StrandedInVain(s: State)
    requires Reachable(s) && Stranded(s)
    ensures AllCountedFinished(s) && s.working == 0
  {
    ReachableInv(s);
    SumBound(s.workers, WorkingBit, 0);
    Quiescence(s);
  }

  /** The one step that strands it: it blocks at line 238 after the last signal has been sent. */
  ghost predicate StrandsWaiter(s: State, a: Action) {
    a == Wait && s.waiter == WaitEnter && NoSignalLeft(s)
  }

  /** A worker's step neither strands the waiter nor, of itself, rescues it. */
  lemma WorkerLeavesStranded(s: State, i: nat, wake: Option<nat>)
    requires s.ready && Startup(s) && i < |s.workers| && WorkerEnabled(s, i, wake)
    requires s.active == if s.destroyer == NotCalled then 1 else 0
    ensures Stranded(WorkerStep(s, i, wake)) <==> Stranded(s)
  {
    hide WorkerStep, NextLine, Silent, AllSilent;
    var v, t := NextLine(s, s.workers[i]), WorkerStep(s, i, wake);
    ClientFrame(s, i, wake);
    AliveSteps(s, i, wake);
    SilentOnwards(s, i, wake);
    OthersAfter(s, i, wake);
    WakingKeepsSilence(s.workers[i := v], t.workers, s.active);
    SilenceOfOne(s.workers, i, s.workers[i], s.active);
    SilenceOfOne(s.workers, i, v, s.active);
    assert s.workers[i := s.workers[i]] == s.workers;
  }

  lemma OthersAfter(s: State, i: nat, wake: Option<nat>)
    requires i < |s.workers| && WorkerEnabled(s, i, wake)
    ensures OnlyWoken(s.workers[i := NextLine(s, s.workers[i])], WorkerStep(s, i, wake).workers)
  {
    hide WorkerStep, NextLine;
    OneWorkerMoves(s, i, wake);
    forall k: nat | k < |s.workers| && k != i {
      OtherWorkersStay(s, i, wake, k);
    }
  }

  lemma SilenceOfOne(ws: seq<Worker>, i: nat, v: Worker, active: nat)
    requires i < |ws|
    ensures AllSilent(ws[i := v], active) <==>
            Silent(v, active) && forall k :: 0 <= k < |ws| && k != i ==> Silent(ws[k], active)
  {
    assert ws[i := v][i] == v;
    assert forall k :: 0 <= k < |ws| && k != i ==> ws[i := v][k] == ws[k];
  }

  /** A worker stays silent if it was, and it falls silent only with a signal or with jobs left. */
  lemma SilentOnwards(s: State, i: nat, wake: Option<nat>)
    requires i < |s.workers| && WorkerEnabled(s, i, wake) && s.workers[i] != Spawned && s.active <= 1
    ensures var w, v, t := s.workers[i], NextLine(s, s.workers[i]), WorkerStep(s, i, wake);
            && (Silent(w, s.active) ==> t.waiter == s.waiter && t.count == s.count)
            && (Silent(w, s.active) && s.count == 0 ==> Silent(v, s.active))
            && (!Silent(w, s.active) && Silent(v, s.active) ==>
                  (t.waiter != WaitBlocked || s.count != 0) && t.count == s.count)
  {
  }

  lemma WakingKeepsSilence(ws: seq<Worker>, vs: seq<Worker>, active: nat)
    requires OnlyWoken(ws, vs)
    ensures AllSilent(ws, active) <==> AllSilent(vs, active)
  {
    assert forall i :: 0 <= i < |ws| ==> Silent(ws[i], active) == Silent(vs[i], active);
  }

  /** Nor does a step of an enqueuing call. */
  lemma EnqueueLeavesStranded(s: State, j: JobId, wake: Option<nat>)
    requires Enabled(s, Enqueue(j, wake))
    requires s.enqueuers[j] == EnqAdd ==> EnqueueStep(s, j, wake).count > 0
    ensures Stranded(EnqueueStep(s, j, wake)) <==> Stranded(s)
  {
    hide Silent;
    var t := EnqueueStep(s, j, wake);
    OthersOnlyWake(s, Enqueue(j, wake));
    WakingKeepsSilence(s.workers, t.workers, s.active);
    match s.enqueuers[j]
    case EnqSignal => assert forall k :: k in s.enqueuers ==> k == j || k in t.enqueuers;
    case EnqUnlock => assert forall k :: k in s.enqueuers <==> k in t.enqueuers;
    case _ => assert j in s.enqueuers && j in t.enqueuers;
  }

  /** The waiter is stranded by that step and by no other, before line 257 and after it. */
  lemma StrandedExactly(s: State, a: Action)
    requires Reachable(s) && Enabled(s, a) && !Stranded(s)
    ensures Stranded(Step(s, a)) <==> StrandsWaiter(s, a)
  {
    StrandedFrame(s, a);
  }

  /** What ends it: cnd_wait returns unasked, a new job comes, or thpool_destroy is called and makes a worker
      signal on its way out. */
  predicate Rescues(s: State, a: Action) {
    || a == WaitSpurious
    || a == CallEnqueue
    || (a == CallDestroy && exists i :: 0 <= i < |s.workers| && s.workers[i] != LoopHead)
  }

  /** Stranded, the waiter stays so until then. */
  lemma StrandedStays(s: State, a: Action)
    requires Reachable(s) && Enabled(s, a) && Stranded(s)
    ensures Stranded(Step(s, a)) <==> !Rescues(s, a)
  {
    StrandedFrame(s, a);
  }

  /** What each action does to a stranded waiter, and to one that is not. */
  lemma StrandedFrame(s: State, a: Action)
    requires Reachable(s) && Enabled(s, a)
    ensures Stranded(Step(s, a)) <==> if a == Wait then StrandsWaiter(s, a) else Stranded(s) && !Rescues(s, a)
  {
    hide WorkerStep, EnqueueStep, DestroyStep, Silent, CountMatches, Views, Order, Accounts, Locks, Inc64, Reachable;
    ReachableInv(s);
    match a
    case Work(i, wake) => WorkerCase(s, i, wake);
    case Enqueue(j, wake) =>
      EnqueueNeverWraps(s, j, wake);
      EnqueueLeavesStranded(s, j, wake);
    case Spurious(i) =>
      OthersOnlyWake(s, a);
      WakingKeepsSilence(s.workers, Step(s, a).workers, s.active);
    case CallEnqueue => assert Step(s, a).enqueuers[s.issued] == EnqLock;
    case CallDestroy => CallDestroyCase(s);
    case Destroy => DestroyCase(s);
    case _ =>
  }

  lemma CallDestroyCase(s: State)
    requires Reachable(s) && Inv(s) && Enabled(s, CallDestroy)
    ensures Stranded(Step(s, CallDestroy)) <==> Stranded(s) && !Rescues(s, CallDestroy)
  {
    hide CountMatches, Views, Order, Accounts, Locks, Reachable;
    assert s.active == 1;
    if Stranded(s) {
      forall i | 0 <= i < |s.workers| ensures Silent(s.workers[i], 0) <==> s.workers[i] == LoopHead {
        assert Silent(s.workers[i], 1);
      }
    } else if Stranded(Step(s, CallDestroy)) {
      forall i: nat | i < |s.workers| ensures s.workers[i] == LoopHead {
        assert Silent(s.workers[i], 0);
        NobodyLeavesEarly(s, i);
      }
    }
  }

  lemma DestroyCase(s: State)
    requires Inv(s) && Enabled(s, Destroy)
    ensures Stranded(DestroyStep(s)) <==> Stranded(s)
  {
    hide Silent, CountMatches, Views, Order, Accounts, Locks;
    OthersOnlyWake(s, Destroy);
    DestroyFrame(s);
    WakingKeepsSilence(s.workers, DestroyStep(s).workers, s.active);
  }

  lemma WorkerCase(s: State, i: nat, wake: Option<nat>)
    requires Counters(s) && Startup(s) && i < |s.workers| && WorkerEnabled(s, i, wake)
    ensures Stranded(WorkerStep(s, i, wake)) <==> Stranded(s)
  {
    if s.ready {
      WorkerLeavesStranded(s, i, wake);
    } else {
      ClientFrame(s, i, wake);
    }
  }
}
