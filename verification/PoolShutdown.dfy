/** What happens after line 257 has dropped `thpool_active` to 0. */
module PoolShutdown {
  import opened Wrappers
  import opened PoolModel
  import opened Tally
  import opened PoolInvariant

  /** The most steps a worker has left once thpool_active is 0. */
  function StepsLeft(w: Worker): nat {
    match w
    case Exited => 0
    case MarkDead => 1
    case LoopHead => 2
    case LastSignal => 2
    case IdleSignal => 3
    case LastCount => 3
    case Spawned => 3
    case IdleCount => 4
    case SecondCheck => 4
    case UnmarkWorking => 5
    case UnlockRun => 5
    case FreeJob(_) => 6
    case TestActive => 6
    case Running(_) => 7
    case TestCount => 7
    case StartJob(_) => 8
    case LockRun => 8
    case Woken => 8
    case SignalRun(_) => 9
    case Waiting => 9
    case UnlockQueue(_) => 10
    case EnterWait => 10
    case SubCount(_) => 11
    case ReadNext(_) => 12
    case ReadHead => 13
    case LockQueue => 14
    case MarkWorking => 15
  }

  /** The measure of a shutdown: the steps all workers together have left. */
  function Measure(s: State): nat { Sum(s.workers, StepsLeft) }

  /** A step of a worker, or its return from cnd_wait. */
  predicate Moves(a: Action) { a.Work? || a.Spurious? }

  /** thpool_active stays 0. */
  lemma ActiveStaysZero(s: State, a: Action)
    requires Counters(s) && s.active == 0 && Enabled(s, a)
    ensures Step(s, a).active == 0
  {
    KeepsCounters(s, a);
    if a.Work? {
      AliveSteps(s, a.index, a.wake);
    }
  }

  lemma WakingCostsNothing(ws: seq<Worker>, wake: Option<nat>)
    requires SignalChoice(ws, wake)
    ensures Sum(Wake(ws, wake), StepsLeft) <= Sum(ws, StepsLeft)
  {
    if wake.Some? {
      SumUpdate(ws, wake.value, Woken, StepsLeft);
    }
  }

  lemma NextLineIsCloser(s: State, w: Worker)
    requires s.active == 0 && w != Waiting && w != Exited
    ensures StepsLeft(NextLine(s, w)) < StepsLeft(w)
  {
  }

  lemma WorkerUsesAStep(s: State, i: nat, wake: Option<nat>)
    requires s.active == 0 && i < |s.workers| && WorkerEnabled(s, i, wake)
    ensures Measure(WorkerStep(s, i, wake)) < Measure(s)
  {
    NextLineIsCloser(s, s.workers[i]);
    hide WorkerStep, NextLine;
    OneWorkerMoves(s, i, wake);
    SumUpdate(Signalled(s, i, wake), i, NextLine(s, s.workers[i]), StepsLeft);
    if s.workers[i].SignalRun? {
      WakingCostsNothing(s.workers, wake);
    }
  }

  /** Every step of a worker strictly decreases the measure, and nothing ever increases it. */
  lemma MeasureDecreases(s: State, a: Action)
    requires s.active == 0 && Enabled(s, a)
    ensures Measure(Step(s, a)) <= Measure(s)
    ensures Moves(a) ==> Measure(Step(s, a)) < Measure(s)
  {
    if a.Work? {
      hide WorkerStep;
      WorkerUsesAStep(s, a.index, a.wake);
    } else if a.Spurious? {
      SumUpdate(s.workers, a.index, Woken, StepsLeft);
    } else {
      OthersOnlyWake(s, a);
      SumMonotone(Step(s, a).workers, s.workers, StepsLeft, StepsLeft);
    }
  }

  /** How many steps of workers a run holds. */
  function WorkerSteps(run: seq<Action>): nat {
    if run == [] then 0 else (if Moves(run[0]) then 1 else 0) + WorkerSteps(run[1..])
  }

  lemma {:induction false} RunUsesMeasure(s: State, run: seq<Action>)
    requires Inv(s) && s.active == 0 && Feasible(s, run)
    ensures WorkerSteps(run) + Measure(After(s, run)) <= Measure(s)
    decreases |run|
  {
    if run != [] {
      hide Inv, Enabled, Step;
      var t := Step(s, run[0]);
      NextIsQuiet(s, run[0]);
      RunUsesMeasure(t, run[1..]);
    }
  }

  lemma NextIsQuiet(s: State, a: Action)
    requires Inv(s) && s.active == 0 && Enabled(s, a)
    ensures var t := Step(s, a);
            Inv(t) && t.active == 0 && Measure(t) + (if Moves(a) then 1 else 0) <= Measure(s)
  {
    hide Step, Enabled;
    StepInv(s, a);
    ActiveStaysZero(s, a);
    MeasureDecreases(s, a);
  }

  /** However the threads interleave after line 257, the workers together take at most 15 steps each. */
  lemma ShutdownIsBounded(s: State, run: seq<Action>)
    requires Reachable(s) && s.active == 0 && Feasible(s, run)
    ensures WorkerSteps(run) <= 15 * s.size
  {
    ReachableInv(s);
    RunUsesMeasure(s, run);
    SumBound(s.workers, StepsLeft, 15);
  }

  // ----- progress

  /** A choice of whom cnd_signal wakes. */
  lemma SomeSignalChoice(ws: seq<Worker>) returns (wake: Option<nat>)
    ensures SignalChoice(ws, wake)
  {
    if k :| 0 <= k < |ws| && ws[k] == Waiting {
      wake := Some(k);
    } else {
      wake := None;
    }
  }

  /** Waits for run_mutex, for queue_access_mutex, or for a signal. */
  predicate Blocked(w: Worker) {
    w.LockRun? || w.Woken? || w.LockQueue? || w.Waiting? || w.Exited?
  }

  lemma UnblockedCanStep(s: State, i: nat) returns (wake: Option<nat>)
    requires i < |s.workers| && !Blocked(s.workers[i])
    ensures WorkerEnabled(s, i, wake)
  {
    wake := SomeSignalChoice(s.workers);
  }

  /** Every worker has left or is blocked on run_cond. */
  predicate AllParked(s: State) {
    forall i :: 0 <= i < |s.workers| ==> s.workers[i] == Waiting || s.workers[i] == Exited
  }

  /** As long as a worker is not parked, it or a holder of the mutex it waits for can step. */
  lemma SomeoneCanStep(s: State) returns (a: Action)
    requires Locks(s) && !AllParked(s)
    ensures Enabled(s, a)
    ensures a.Work? || (a.Enqueue? && s.queueMutex == Some(EnqueueCall(a.job)))
  {
    var i :| 0 <= i < |s.workers| && s.workers[i] != Waiting && s.workers[i] != Exited;
    var k := i;
    if (s.workers[i].LockRun? || s.workers[i].Woken?) && s.runMutex.Some? {
      k := s.runMutex.value;
    } else if s.workers[i].LockQueue? && s.queueMutex.Some? {
      if s.queueMutex.value.EnqueueCall? {
        return Enqueue(s.queueMutex.value.job, None);
      }
      k := s.queueMutex.value.index;
    }
    if Blocked(s.workers[k]) {
      return Work(k, None);
    }
    var wake := UnblockedCanStep(s, k);
    return Work(k, wake);
  }

  /** With a worker still blocked, the destroyer is in its broadcasting loop and run_mutex is free. */
  lemma ParkedView(s: State, i: nat)
    requires Inv(s) && s.active == 0 && AllParked(s)
    requires i < |s.workers| && s.workers[i] == Waiting
    ensures s.destroyer == LoadAlive || s.destroyer == Broadcast
    ensures s.alive != 0 && s.runMutex == None
  {
    LiveWorkerHoldsOffDrain(s, i);
    SumMember(s.workers, i, AliveBit);
    assert forall k :: 0 <= k < |s.workers| ==> !HoldsRun(s.workers[k]);
  }

  /** One turn of the loop at 261-268, from wherever the destroyer is in it. */
  function BroadcastTurn(s: State): seq<Action> {
    if s.destroyer == LoadAlive then [Destroy, Destroy] else [Destroy]
  }

  /** A turn of the broadcasting loop wakes every worker blocked on run_cond, and does nothing else. */
  lemma TurnWakesAll(s: State)
    requires s.destroyer == Broadcast || (s.destroyer == LoadAlive && s.alive != 0)
    ensures Feasible(s, BroadcastTurn(s))
    ensures After(s, BroadcastTurn(s)) == s.(workers := WakeAll(s.workers), destroyer := LoadAlive)
  {
    var b := s.(destroyer := Broadcast);
    assert Feasible(Step(b, Destroy), []);
    RunCons(b, Destroy, []);
    assert [Destroy] + [] == [Destroy];
    if s.destroyer == LoadAlive {
      RunCons(s, Destroy, [Destroy]);
      assert [Destroy] + [Destroy] == [Destroy, Destroy];
    } else {
      assert s == b;
    }
  }

  /** When all are parked and one is left, one turn of the destroyer's loop lets that one step. */
  lemma BroadcastRescues(s: State, i: nat)
    requires Inv(s) && s.active == 0 && AllParked(s)
    requires i < |s.workers| && s.workers[i] == Waiting
    ensures Feasible(s, BroadcastTurn(s)) && Enabled(After(s, BroadcastTurn(s)), Work(i, None))
  {
    hide Inv;
    ParkedView(s, i);
    TurnWakesAll(s);
  }

  /** After line 257, a pool with a live worker always moves towards its end: a worker can step, or a
      call of thpool_enqueue_job holding the queue mutex can, or the next broadcast enables a worker. */
  lemma ShutdownNeverStalls(s: State)
    requires Reachable(s) && s.active == 0 && s.alive != 0
    ensures || (exists i, wake :: Enabled(s, Work(i, wake)))
            || (exists j, wake :: Enabled(s, Enqueue(j, wake)) && s.queueMutex == Some(EnqueueCall(j)))
            || (&& Feasible(s, BroadcastTurn(s))
                && exists i :: Enabled(After(s, BroadcastTurn(s)), Work(i, None)))
  {
    ReachableInv(s);
    if !AllParked(s) {
      var a := SomeoneCanStep(s);
      if a.Work? {
        assert Enabled(s, Work(a.index, a.wake));
      } else {
        assert Enabled(s, Enqueue(a.job, a.wake));
      }
    } else {
      var i := SomeoneWaits(s);
      BroadcastRescues(s, i);
    }
  }

  lemma SomeoneWaits(s: State) returns (i: nat)
    requires Counters(s) && AllParked(s) && s.alive != 0
    ensures i < |s.workers| && s.workers[i] == Waiting
  {
    if forall k :: 0 <= k < |s.workers| ==> s.workers[k] == Exited {
      SumBound(s.workers, AliveBit, 0);
    }
    i :| i < |s.workers| && s.workers[i] != Exited;
  }

  /** How far the holder of the queue mutex is from giving it up, if it is an enqueuing call. */
  function HolderStepsLeft(s: State): nat {
    match s.queueMutex
    case Some(EnqueueCall(j)) =>
      if j !in s.enqueuers then 0
      else if s.enqueuers[j] == EnqLink then 3
      else if s.enqueuers[j] == EnqAdd then 2
      else if s.enqueuers[j] == EnqUnlock then 1
      else 0
    case _ => 0
  }

  lemma EnqueuerUsesAStep(s: State, a: Action)
    requires Locks(s) && Enabled(s, a) && a.Enqueue? && s.queueMutex == Some(EnqueueCall(a.job))
    ensures HolderStepsLeft(Step(s, a)) < HolderStepsLeft(s)
  {
  }

  /** From every state after line 257, some run lets the last worker leave: no state is a dead end. */
  lemma {:induction false} ShutdownCanFinish(s: State) returns (run: seq<Action>)
    requires Inv(s) && s.active == 0
    ensures Feasible(s, run) && After(s, run).alive == 0
    decreases Measure(s), HolderStepsLeft(s)
  {
    hide Inv, Enabled, Step;
    if s.alive == 0 {
      return [];
    }
    if AllParked(s) {
      var i := ParkedWorker(s);
      TurnThenStep(s, i);
      var t := After(s, BroadcastTurn(s));
      var rest := ShutdownCanFinish(Step(t, Work(i, None)));
      RunCons(t, Work(i, None), rest);
      RunAppend(s, BroadcastTurn(s), [Work(i, None)] + rest);
      return BroadcastTurn(s) + ([Work(i, None)] + rest);
    }
    var a := NextMover(s);
    NextIsQuiet(s, a);
    var rest := ShutdownCanFinish(Step(s, a));
    RunCons(s, a, rest);
    return [a] + rest;
  }

  lemma ParkedWorker(s: State) returns (i: nat)
    requires Inv(s) && AllParked(s) && s.alive != 0
    ensures i < |s.workers| && s.workers[i] == Waiting
  {
    i := SomeoneWaits(s);
  }

  lemma NextMover(s: State) returns (a: Action)
    requires Inv(s) && !AllParked(s)
    ensures Enabled(s, a)
    ensures a.Work? || (a.Enqueue? && HolderStepsLeft(Step(s, a)) < HolderStepsLeft(s))
  {
    a := SomeoneCanStep(s);
    if a.Enqueue? {
      EnqueuerUsesAStep(s, a);
    }
  }

  lemma TurnThenStep(s: State, i: nat)
    requires Inv(s) && s.active == 0 && AllParked(s)
    requires i < |s.workers| && s.workers[i] == Waiting
    ensures Feasible(s, BroadcastTurn(s))
    ensures var t := After(s, BroadcastTurn(s));
            && Enabled(t, Work(i, None))
            && Inv(Step(t, Work(i, None))) && Step(t, Work(i, None)).active == 0
            && Measure(Step(t, Work(i, None))) < Measure(s)
  {
    hide Inv, Enabled, Step;
    BroadcastRescues(s, i);
    RunInv(s, BroadcastTurn(s));
    RunUsesMeasure(s, BroadcastTurn(s));
    var t := After(s, BroadcastTurn(s));
    RunStaysInactive(s, BroadcastTurn(s));
    NextIsQuiet(t, Work(i, None));
  }

  lemma {:induction false} RunStaysInactive(s: State, run: seq<Action>)
    requires Inv(s) && s.active == 0 && Feasible(s, run)
    ensures After(s, run).active == 0
    decreases |run|
  {
    hide Inv, Enabled, Step;
    if run != [] {
      NextIsQuiet(s, run[0]);
      RunStaysInactive(Step(s, run[0]), run[1..]);
    }
  }

  // ----- late jobs

  /** Committed to start a job: past the second check at 426, before the call at 451. */
  function CommittedBit(w: Worker): nat {
    match w
    case MarkWorking => 1
    case LockQueue => 1
    case ReadHead => 1
    case ReadNext(_) => 1
    case SubCount(_) => 1
    case UnlockQueue(_) => 1
    case SignalRun(_) => 1
    case StartJob(_) => 1
    case _ => 0
  }

  /** How many jobs worker i starts in a run. */
  ghost function StartsBy(s: State, run: seq<Action>, i: nat): nat
    requires Feasible(s, run)
    decreases |run|
  {
    if run == [] then 0
    else
      (if run[0].Work? && run[0].index == i && s.workers[i].StartJob? then 1 else 0)
      + StartsBy(Step(s, run[0]), run[1..], i)
  }

  /** With thpool_active 0, only a committed worker starts a job, and then it is committed no more. */
  lemma StartUsesCommitment(s: State, a: Action, i: nat)
    requires s.active == 0 && Enabled(s, a) && i < |s.workers|
    ensures var t := Step(s, a);
            && |t.workers| == |s.workers|
            && CommittedBit(t.workers[i])
               + (if a.Work? && a.index == i && s.workers[i].StartJob? then 1 else 0) <= CommittedBit(s.workers[i])
  {
    if a.Work? {
      hide WorkerStep;
      OneWorkerMoves(s, a.index, a.wake);
      if a.index != i {
        OtherWorkersStay(s, a.index, a.wake, i);
      }
    } else {
      OthersOnlyWake(s, a);
    }
  }

  lemma {:induction false} StartsAreCommitted(s: State, run: seq<Action>, i: nat)
    requires Inv(s) && s.active == 0 && Feasible(s, run) && i < |s.workers|
    ensures StartsBy(s, run, i) <= CommittedBit(s.workers[i])
    decreases |run|
  {
    hide Inv, Enabled, Step, CommittedBit;
    if run != [] {
      NextIsQuiet(s, run[0]);
      StartUsesCommitment(s, run[0], i);
      StartsAreCommitted(Step(s, run[0]), run[1..], i);
    }
  }

  /** After line 257 each worker starts at most one more job, and only if it had passed line 426. */
  lemma OneLateJobEach(s: State, run: seq<Action>, i: nat)
    requires Reachable(s) && s.active == 0 && Feasible(s, run) && i < |s.workers|
    ensures StartsBy(s, run, i) <= 1
    ensures CommittedBit(s.workers[i]) == 0 ==> StartsBy(s, run, i) == 0
  {
    ReachableInv(s);
    StartsAreCommitted(s, run, i);
  }

  lemma StartsAreLogged(s: State, a: Action)
    requires Enabled(s, a) && s.active == 0
    ensures var t := Step(s, a);
            |t.log.started| + Sum(t.workers, CommittedBit) <= |s.log.started| + Sum(s.workers, CommittedBit)
  {
    if a.Work? {
      hide WorkerStep;
      JobSteps(s, a.index, a.wake);
      SumStep(s, a.index, a.wake, CommittedBit);
    } else {
      hide Step;
      OthersKeepJobLogs(s, a);
      OthersOnlyWake(s, a);
      WakingKeepsSum(s.workers, Step(s, a).workers, CommittedBit);
    }
  }

  lemma {:induction false} LateStartsAreCommitted(s: State, run: seq<Action>)
    requires Inv(s) && s.active == 0 && Feasible(s, run)
    ensures |After(s, run).log.started| <= |s.log.started| + Sum(s.workers, CommittedBit)
    decreases |run|
  {
    hide Inv, Enabled, Step, CommittedBit;
    if run != [] {
      NextIsQuiet(s, run[0]);
      StartsAreLogged(s, run[0]);
      LateStartsAreCommitted(Step(s, run[0]), run[1..]);
    }
  }

  /** At most thread_count jobs start after line 257, in any interleaving. */
  lemma LateJobsAreFew(s: State, run: seq<Action>)
    requires Reachable(s) && s.active == 0 && Feasible(s, run)
    ensures |After(s, run).log.started| <= |s.log.started| + s.size
  {
    ReachableInv(s);
    LateStartsAreCommitted(s, run);
    SumBound(s.workers, CommittedBit, 1);
  }
}
