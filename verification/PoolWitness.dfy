/** Runs that the C code allows and its callers may not expect. */
module PoolWitness {
  import opened Wrappers
  import opened PoolModel
  import opened PoolSafety
  import opened PoolDispatch
  import opened PoolWait

  /** The pool of one worker with nothing to do. */
  function Idle(w: Worker, runMutex: Option<nat>): State {
    State(1, true, 1, 1, 0, 0, [], None, runMutex, [w], map[], WaitIdle, NotCalled, 0,
          Log([], [], [], [], [], [], [], []))
  }

  /** The pool of one worker, with job 0 enqueued and a client inside thpool_wait. */
  function Loaded(w: Worker, waiter: Waiter): State {
    State(1, true, 1, 1, 0, 1, [0], None, None, [w], map[], waiter, NotCalled, 1,
          Log([0], [0], [], [], [], [], [], []))
  }

  lemma PoolStarts() returns (s: State)
    ensures Reachable(s) && s == Idle(LoopHead, None)
  {
    s := State(1, false, 1, 0, 0, 0, [], None, None, [Spawned], map[], WaitIdle, NotCalled, 0,
               Log([], [], [], [], [], [], [], []));
    assert seq(1, i => Spawned) == [Spawned];
    assert Init(s) && Feasible(s, []) && After(s, []) == s;
    ReachNext(s, Work(0, None));
    s := Step(s, Work(0, None));
    ReachNext(s, InitReturns);
    s := Step(s, InitReturns);
  }

  lemma JobIsEnqueued(w: Worker, runMutex: Option<nat>) returns (t: State)
    requires Reachable(Idle(w, runMutex)) && w != Waiting
    ensures Reachable(t) && t == Loaded(w, WaitIdle).(runMutex := runMutex)
  {
    t := Idle(w, runMutex);
    ReachNext(t, CallEnqueue);
    t := Step(t, CallEnqueue);
    ReachNext(t, Enqueue(0, None));
    t := Step(t, Enqueue(0, None));
    ReachNext(t, Enqueue(0, None));
    t := Step(t, Enqueue(0, None));
    assert t.queue == [0] && t.log.linked == [0];
    ReachNext(t, Enqueue(0, None));
    t := Step(t, Enqueue(0, None));
    assert t.log.counted == [0] && t.count == 1;
    ReachNext(t, Enqueue(0, None));
    t := Step(t, Enqueue(0, None));
    ReachNext(t, Enqueue(0, None));
    t := Step(t, Enqueue(0, None));
    assert t.enqueuers == map[];
  }

  lemma WaiterEnters(s: State) returns (t: State)
    requires Reachable(s) && s == Loaded(LoopHead, WaitIdle)
    ensures Reachable(t) && t == Loaded(LoopHead, WaitWorking)
  {
    ReachNext(s, CallWait);
    t := Step(s, CallWait);
  }

  /** One step of the only worker, as the last step of a run. */
  lemma WorkerGoesOn(s: State, run: seq<Action>)
    requires Feasible(s, run)
    requires var t := After(s, run); |t.workers| == 1 && WorkerEnabled(t, 0, None)
    ensures var next := run + [Work(0, None)];
            Feasible(s, next) && After(s, next) == WorkerStep(After(s, run), 0, None)
  {
    RunSnoc(s, run, Work(0, None));
  }

  /** The worker goes from line 408 to line 438 behind the waiter's back. */
  lemma WorkerGetsReady(s: State) returns (run: seq<Action>)
    requires s == Loaded(LoopHead, s.waiter)
    ensures Feasible(s, run) && After(s, run) == Loaded(MarkWorking, s.waiter)
  {
    run := [];
    WorkerGoesOn(s, run);
    run := run + [Work(0, None)];
    assert After(s, run) == Loaded(LockRun, s.waiter);
    WorkerGoesOn(s, run);
    run := run + [Work(0, None)];
    WorkerGoesOn(s, run);
    run := run + [Work(0, None)];
    WorkerGoesOn(s, run);
    run := run + [Work(0, None)];
    assert After(s, run) == Loaded(SecondCheck, s.waiter);
    WorkerGoesOn(s, run);
    run := run + [Work(0, None)];
  }

  /** The only job is in the worker's hands, and counted no more. */
  function JobTaken(waiter: Waiter): State {
    State(1, true, 1, 1, 1, 0, [], Some(WorkerThread(0)), None, [UnlockQueue(Some(0))], map[], waiter, NotCalled, 1,
          Log([0], [0], [0], [], [], [], [], []))
  }

  /** From line 438 it unlinks the job and brings job_count down to 0. */
  lemma WorkerTakesJob(s: State) returns (run: seq<Action>)
    requires s == Loaded(MarkWorking, s.waiter)
    ensures Feasible(s, run) && After(s, run) == JobTaken(s.waiter)
  {
    run := [];
    WorkerGoesOn(s, run);
    run := run + [Work(0, None)];
    assert After(s, run) == Loaded(LockQueue, s.waiter).(working := 1);
    WorkerGoesOn(s, run);
    run := run + [Work(0, None)];
    WorkerGoesOn(s, run);
    run := run + [Work(0, None)];
    WorkerGoesOn(s, run);
    run := run + [Work(0, None)];
  }

  /** The order in which line 231 reads its two counters is not sound. One worker, one job: the waiter
      reads workers_working as 0; then the worker marks itself working and unlinks the job; then the
      waiter reads job_count as 0.

      A run on which thpool_wait, with no enqueue anywhere near it, is done before the job it waits
      for has run: it begins at the first load of line 231, which reads 0, and ends as the loop is left. */
  lemma WrittenOrderFails() returns (s: State, run: seq<Action>)
    ensures Reachable(s) && s.waiter == WaitWorking && s.working == 0 && s.enqueuers == map[]
    ensures Feasible(s, run) && WaitCount == Step(s, Wait).waiter && run != [] && run[0] == Wait
    ensures var t := After(s, run);
            && t.waiter == WaitUnlock && t.count == 0 && t.log.counted == s.log.counted
            && 0 in t.log.counted && 0 !in t.log.started
            && !AllCountedFinished(t)
  {
    s := PoolStarts();
    s := JobIsEnqueued(LoopHead, None);
    s := WaiterEnters(s);
    var s1 := Step(s, Wait);
    assert s1 == Loaded(LoopHead, WaitCount);
    var walk := WorkerGetsReady(s1);
    var take := WorkerTakesJob(After(s1, walk));
    RunAppend(s1, walk, take);
    RunSnoc(s1, walk + take, Wait);
    RunCons(s, Wait, walk + take + [Wait]);
    run := [Wait] + (walk + take + [Wait]);
  }

  /** Between line 413 and line 417 the idle worker still holds run_mutex. */
  lemma WorkerFallsAsleep() returns (s: State)
    ensures Reachable(s) && s == Idle(EnterWait, Some(0))
  {
    s := PoolStarts();
    ReachNext(s, Work(0, None));
    s := Step(s, Work(0, None));
    assert s == Idle(LockRun, None);
    ReachNext(s, Work(0, None));
    s := Step(s, Work(0, None));
    assert s == Idle(TestCount, Some(0));
    ReachNext(s, Work(0, None));
    s := Step(s, Work(0, None));
    ReachNext(s, Work(0, None));
    s := Step(s, Work(0, None));
  }

  /** Line 355 signals without run_mutex, so its signal can be lost: a job is counted and listed, its
      enqueue has returned, and the only worker is blocked on run_cond. */
  lemma SignalIsLost() returns (s: State)
    ensures Reachable(s) && Stalled(s) && s.queue == [0]
  {
    s := WorkerFallsAsleep();
    s := JobIsEnqueued(EnterWait, Some(0));
    ReachNext(s, Work(0, None));
    s := Step(s, Work(0, None));
  }

  /** The job is done, and the worker is about to tell the waiter. */
  function JobDone(w: Worker, waiter: Waiter): State {
    State(1, true, 1, 1, 0, 0, [], None, None, [w], map[], waiter, NotCalled, 1,
          Log([0], [0], [0], [0], [0], [0], [], []))
  }

  lemma WorkerStepsOn(s: State, w: Worker) returns (t: State)
    requires Reachable(s) && s.workers == [w] && WorkerEnabled(s, 0, None)
    ensures Reachable(t) && t == WorkerStep(s, 0, None)
  {
    hide WorkerStep, Reachable;
    ReachNext(s, Work(0, None));
    t := Step(s, Work(0, None));
  }

  /** The worker runs the job it has taken. */
  lemma WorkerRunsJob(s: State) returns (t: State)
    requires Reachable(s) && s == JobTaken(WaitEnter)
    ensures Reachable(t) && t == JobDone(UnmarkWorking, WaitEnter).(working := 1)
  {
    hide Reachable;
    t := WorkerStepsOn(s, UnlockQueue(Some(0)));
    t := WorkerStepsOn(t, SignalRun(Some(0)));
    assert t == JobTaken(WaitEnter).(queueMutex := None, workers := [StartJob(0)]);
    t := WorkerStepsOn(t, StartJob(0));
    t := WorkerStepsOn(t, Running(0));
    t := WorkerStepsOn(t, FreeJob(0));
  }

  /** It sends the signal of line 467, which finds nobody blocked. */
  lemma WorkerSignals(s: State) returns (t: State)
    requires Reachable(s) && s == JobDone(UnmarkWorking, WaitEnter).(working := 1)
    ensures Reachable(t) && t == JobDone(LoopHead, WaitEnter)
  {
    hide Reachable;
    t := WorkerStepsOn(s, UnmarkWorking);
    t := WorkerStepsOn(t, IdleCount);
    t := WorkerStepsOn(t, IdleSignal);
  }

  /** The waiter finds the job counted and is about to block. */
  lemma WaiterMustWait() returns (s: State)
    ensures Reachable(s) && s == Loaded(LoopHead, WaitEnter)
  {
    hide Reachable;
    s := PoolStarts();
    s := JobIsEnqueued(LoopHead, None);
    assert s == Loaded(LoopHead, WaitIdle);
    s := WaiterEnters(s);
    ReachNext(s, Wait);
    s := Step(s, Wait);
    assert s == Loaded(LoopHead, WaitCount);
    ReachNext(s, Wait);
    s := Step(s, Wait);
  }

  /** It blocks after that signal. */
  lemma WaiterBlocks(s: State) returns (t: State)
    requires Reachable(s) && s == JobDone(LoopHead, WaitEnter)
    ensures Reachable(t) && t == JobDone(LoopHead, WaitBlocked)
  {
    hide Reachable;
    ReachNext(s, Wait);
    t := Step(s, Wait);
  }

  /** Line 467 signals without wait_mutex, so its signal can be lost too: thpool_wait is blocked, with every
      counted job finished and no signal left to come. */
  lemma WaiterIsStranded() returns (s: State)
    ensures Reachable(s) && Stranded(s) && s.log.counted == s.log.finished == [0]
  {
    hide Reachable, Feasible, After, Step;
    s := WaiterMustWait();
    var walk := WorkerGetsReady(s);
    ReachRun(s, walk);
    s := After(s, walk);
    var take := WorkerTakesJob(s);
    ReachRun(s, take);
    s := WorkerRunsJob(After(s, take));
    s := WorkerSignals(s);
    s := WaiterBlocks(s);
  }
}
