/** Shutdown under fairness: thpool_destroy leaves its loop in every fair behaviour. */
module PoolFairness {
  import opened Wrappers
  import opened PoolModel
  import opened Tally
  import opened PoolInvariant
  import opened PoolShutdown

  // ----- behaviours

  /** A tick of a behaviour: one action of the pool, or nothing. */
  ghost predicate Tick(s: State, o: Option<Action>, t: State) {
    match o
    case None => t == s
    case Some(a) => Enabled(s, a) && t == Step(s, a)
  }

  /** An infinite behaviour from some reachable state after line 257. */
  ghost predicate Behaviour(st: nat -> State, act: nat -> Option<Action>) {
    && Reachable(st(0)) && st(0).active == 0
    && forall n: nat :: Tick(st(n), act(n), st(n + 1))
  }

  /** Worker i takes a step. */
  predicate StepOf(o: Option<Action>, i: nat) { o.Some? && o.value.Work? && o.value.index == i }

  /** The call for job j takes a step. */
  predicate StepOfCall(o: Option<Action>, j: JobId) { o.Some? && o.value.Enqueue? && o.value.job == j }

  ghost predicate WorkerCanStep(s: State, i: nat) {
    exists wake :: Enabled(s, Work(i, wake))
  }

  ghost predicate CallCanStep(s: State, j: JobId) {
    exists wake :: Enabled(s, Enqueue(j, wake))
  }

  // Who can step at every time from m on, and who does step at some time from m on.

  ghost predicate DestroyerCan(st: nat -> State, m: nat) {
    forall n: nat :: n >= m ==> Enabled(st(n), Destroy)
  }

  ghost predicate WorkerCan(st: nat -> State, i: nat, m: nat) {
    forall n: nat :: n >= m ==> WorkerCanStep(st(n), i)
  }

  ghost predicate CallCan(st: nat -> State, j: JobId, m: nat) {
    forall n: nat :: n >= m ==> CallCanStep(st(n), j)
  }

  ghost predicate DestroyerDoes(act: nat -> Option<Action>, m: nat) {
    exists n: nat :: n >= m && act(n) == Some(Destroy)
  }

  ghost predicate WorkerDoes(act: nat -> Option<Action>, i: nat, m: nat) {
    exists n: nat :: n >= m && StepOf(act(n), i)
  }

  ghost predicate CallDoes(act: nat -> Option<Action>, j: JobId, m: nat) {
    exists n: nat :: n >= m && StepOfCall(act(n), j)
  }

  /** Weak fairness of the destroyer, of each worker and of each call of thpool_enqueue_job: who can step
      at every time from some time on does step. */
  ghost predicate WeaklyFair(st: nat -> State, act: nat -> Option<Action>) {
    && (forall m: nat :: DestroyerCan(st, m) ==> DestroyerDoes(act, m))
    && (forall i: nat, m: nat :: WorkerCan(st, i, m) ==> WorkerDoes(act, i, m))
    && (forall j: JobId, m: nat :: CallCan(st, j, m) ==> CallDoes(act, j, m))
  }

  /** Worker i is at line 367 and queue_access_mutex is free. */
  predicate FindsItFree(s: State, i: nat) {
    i < |s.workers| && s.workers[i] == LockQueue && s.queueMutex == None
  }

  /** ... at some time from q on, ... */
  ghost predicate FindsItFreeLater(st: nat -> State, i: nat, q: nat) {
    exists n: nat :: n >= q && FindsItFree(st(n), i)
  }

  /** ... and again and again from m on. */
  ghost predicate FindsItFreeAgain(st: nat -> State, i: nat, m: nat) {
    forall q: nat :: q >= m ==> FindsItFreeLater(st, i, q)
  }

  /** Strong fairness of queue_access_mutex, for which enqueuing calls may compete for ever: a worker that
      finds it free again and again gets it. */
  ghost predicate MutexFair(st: nat -> State, act: nat -> Option<Action>) {
    forall i: nat, m: nat :: FindsItFreeAgain(st, i, m) ==> WorkerDoes(act, i, m)
  }

  /** In the loop at 261-268. */
  predicate InLoop(s: State) { s.destroyer == LoadAlive || s.destroyer == Broadcast }

  ghost predicate Closing(s: State) { Inv(s) && s.active == 0 }

  predicate Moving(o: Option<Action>) { o.Some? && Moves(o.value) }

  // ----- one tick

  lemma TickMeasure(s: State, o: Option<Action>, t: State)
    requires Closing(s) && Tick(s, o, t)
    ensures Closing(t) && Measure(t) <= Measure(s)
    ensures Moving(o) ==> Measure(t) < Measure(s)
  {
    hide Inv, Enabled, Step;
    if o.Some? {
      NextIsQuiet(s, o.value);
    }
  }

  ghost predicate NoneWaits(s: State) {
    forall i :: 0 <= i < |s.workers| ==> s.workers[i] != Waiting
  }

  /** Without a step of a worker and with none to wake, the workers stay as they are. */
  lemma TickStill(s: State, o: Option<Action>, t: State)
    requires Tick(s, o, t) && !Moving(o) && NoneWaits(s)
    ensures t.workers == s.workers
  {
    hide Enabled, Step;
    if o.Some? {
      OthersOnlyWake(s, o.value);
    }
  }

  /** Only the destroyer's own steps move it, and its broadcast leaves no worker waiting. */
  lemma TickLoop(s: State, o: Option<Action>, t: State)
    requires Closing(s) && Tick(s, o, t) && InLoop(s)
    ensures o != Some(Destroy) ==> t.destroyer == s.destroyer
    ensures o == Some(Destroy) && s.destroyer == Broadcast ==> t.destroyer == LoadAlive && NoneWaits(t)
    ensures o == Some(Destroy) && s.destroyer == LoadAlive ==>
              t.destroyer == if s.alive != 0 then Broadcast else ReadJobs
  {
    hide Inv, EnqueueStep, WorkerStep;
    if o.Some? && o.value.Work? {
      ClientFrame(s, o.value.index, o.value.wake);
    } else if o.Some? && o.value.Enqueue? {
      EnqueueFrame(s, o.value.job, o.value.wake);
    }
  }

  lemma EnqueueFrame(s: State, j: JobId, wake: Option<nat>)
    requires Enabled(s, Enqueue(j, wake))
    ensures EnqueueStep(s, j, wake).destroyer == s.destroyer
  {
  }

  /** The call for job j holds queue_access_mutex, at the line e. */
  predicate Holds(s: State, j: JobId, e: Enqueuer) {
    s.queueMutex == Some(EnqueueCall(j)) && j in s.enqueuers && s.enqueuers[j] == e
  }

  lemma OtherCallsKeepHolder(s: State, i: JobId, wake: Option<nat>, j: JobId, e: Enqueuer)
    requires Locks(s) && Holds(s, j, e) && i != j && Enabled(s, Enqueue(i, wake))
    ensures Holds(EnqueueStep(s, i, wake), j, e)
  {
  }

  lemma OthersKeepHolder(s: State, a: Action, j: JobId, e: Enqueuer)
    requires Order(s) && Holds(s, j, e) && Elsewhere(a) && Enabled(s, a)
    ensures Holds(Step(s, a), j, e)
  {
    OthersFrame(s, a);
    if a == Destroy {
      DestroyFrame(s);
    }
  }

  lemma HolderAdvances(s: State, j: JobId, wake: Option<nat>, e: Enqueuer)
    requires Locks(s) && Holds(s, j, e) && Enabled(s, Enqueue(j, wake))
    ensures var t := EnqueueStep(s, j, wake);
            && HolderStepsLeft(t) < HolderStepsLeft(s)
            && (t.queueMutex == None || t.queueMutex == Some(EnqueueCall(j)))
  {
  }

  /** It goes on holding it until its own next step, which brings it closer to giving it up. */
  lemma TickHolder(s: State, o: Option<Action>, t: State, j: JobId, e: Enqueuer)
    requires Closing(s) && Tick(s, o, t) && !Moving(o) && Holds(s, j, e)
    ensures if StepOfCall(o, j) then
              && HolderStepsLeft(t) < HolderStepsLeft(s)
              && (t.queueMutex == None || t.queueMutex == Some(EnqueueCall(j)))
            else
              Holds(t, j, e)
  {
    hide Enabled, WorkerStep, EnqueueStep, DestroyStep, WaitStep, Holds, Locks, Order;
    match o
    case None =>
    case Some(Enqueue(i, wake)) =>
      if i == j {
        HolderAdvances(s, j, wake, e);
      } else {
        OtherCallsKeepHolder(s, i, wake, j, e);
      }
    case Some(a) => OthersKeepHolder(s, a, j, e);
  }

  // ----- whole behaviours

  lemma {:induction false} ClosingAt(st: nat -> State, act: nat -> Option<Action>, n: nat)
    requires Behaviour(st, act)
    ensures Closing(st(n))
  {
    hide Tick, Inv, Reachable;
    if n == 0 {
      ReachableInv(st(0));
    } else {
      ClosingAt(st, act, n - 1);
      TickMeasure(st(n - 1), act(n - 1), st(n));
    }
  }

  lemma {:induction false} MeasureFalls(st: nat -> State, act: nat -> Option<Action>, m: nat, n: nat)
    requires Behaviour(st, act) && m <= n
    ensures Measure(st(n)) <= Measure(st(m))
    decreases n - m
  {
    hide Tick, Closing, Measure;
    if m < n {
      ClosingAt(st, act, n - 1);
      MeasureFalls(st, act, m, n - 1);
      TickMeasure(st(n - 1), act(n - 1), st(n));
    }
  }

  /** No worker steps from q on. */
  ghost predicate Quiet(act: nat -> Option<Action>, q: nat) {
    forall n: nat :: n >= q ==> !Moving(act(n))
  }

  /** The workers run out of steps. */
  lemma {:induction false} Settles(st: nat -> State, act: nat -> Option<Action>, m: nat) returns (q: nat)
    requires Behaviour(st, act)
    ensures q >= m && Quiet(act, q)
    decreases Measure(st(m))
  {
    hide Tick, Closing, Measure;
    if Quiet(act, m) {
      return m;
    }
    var n: nat :| n >= m && Moving(act(n));
    ClosingAt(st, act, n);
    MeasureFalls(st, act, m, n);
    TickMeasure(st(n), act(n), st(n + 1));
    q := Settles(st, act, n + 1);
  }

  ghost predicate AlwaysInLoop(st: nat -> State) {
    forall n: nat :: InLoop(st(n))
  }

  /** The first step of the destroyer finds it where it was. */
  lemma {:induction false} FirstDestroyerStep(st: nat -> State, act: nat -> Option<Action>, m: nat, q: nat)
    returns (n: nat)
    requires Behaviour(st, act) && AlwaysInLoop(st) && m <= q && act(q) == Some(Destroy)
    ensures n >= m && act(n) == Some(Destroy) && st(n).destroyer == st(m).destroyer
    decreases q - m
  {
    hide Tick, Closing;
    if act(m) == Some(Destroy) {
      return m;
    }
    ClosingAt(st, act, m);
    TickLoop(st(m), act(m), st(m + 1));
    n := FirstDestroyerStep(st, act, m + 1, q);
  }

  lemma DestroyerGoesOn(st: nat -> State, act: nat -> Option<Action>, m: nat) returns (n: nat)
    requires Behaviour(st, act) && WeaklyFair(st, act) && AlwaysInLoop(st)
    ensures n >= m && act(n) == Some(Destroy) && st(n).destroyer == st(m).destroyer
  {
    assert DestroyerCan(st, m) by {
      forall q: nat | q >= m ensures Enabled(st(q), Destroy) {
        assert InLoop(st(q));
      }
    }
    hide Tick, Enabled, DestroyerCan;
    assert DestroyerDoes(act, m);
    var q: nat :| q >= m && act(q) == Some(Destroy);
    n := FirstDestroyerStep(st, act, m, q);
  }

  /** If it never left the loop, the destroyer would come by each of its two lines again and again. */
  lemma DestroyerComesBy(st: nat -> State, act: nat -> Option<Action>, m: nat, d: Destroyer) returns (n: nat)
    requires Behaviour(st, act) && WeaklyFair(st, act) && AlwaysInLoop(st)
    requires d == LoadAlive || d == Broadcast
    ensures n >= m && act(n) == Some(Destroy) && st(n).destroyer == d
  {
    hide Tick, Closing, WeaklyFair;
    n := DestroyerGoesOn(st, act, m);
    if st(n).destroyer != d {
      ClosingAt(st, act, n);
      TickLoop(st(n), act(n), st(n + 1));
      assert InLoop(st(n)) && InLoop(st(n + 1));
      n := DestroyerGoesOn(st, act, n + 1);
    }
  }

  /** With no worker stepping and none waiting, the workers never change again. */
  lemma {:induction false} StandStill(st: nat -> State, act: nat -> Option<Action>, m: nat, n: nat)
    requires Behaviour(st, act) && Quiet(act, m) && NoneWaits(st(m)) && m <= n
    ensures st(n).workers == st(m).workers
    decreases n - m
  {
    hide Tick;
    if m < n {
      StandStill(st, act, m, n - 1);
      assert !Moving(act(n - 1));
      TickStill(st(n - 1), act(n - 1), st(n));
    }
  }

  // ----- the mutex comes free

  /** The workers stand still from m on, and none of them is inside the queue's critical sections. */
  ghost predicate Frozen(st: nat -> State, act: nat -> Option<Action>, m: nat) {
    && Quiet(act, m)
    && NoneWaits(st(m))
    && forall i :: 0 <= i < |st(m).workers| ==> !HoldsQueue(st(m).workers[i])
  }

  lemma FrozenLater(st: nat -> State, act: nat -> Option<Action>, m: nat, n: nat)
    requires Behaviour(st, act) && Frozen(st, act, m) && m <= n
    ensures Frozen(st, act, n) && st(n).workers == st(m).workers
  {
    hide Tick, Closing;
    StandStill(st, act, m, n);
  }

  /** While it is held, the holder's next step is still to come. */
  lemma {:induction false} StepBeforeRelease(st: nat -> State, act: nat -> Option<Action>, m: nat, q: nat,
                                             j: JobId, e: Enqueuer) returns (n: nat)
    requires Behaviour(st, act) && Quiet(act, m) && m <= q
    requires Holds(st(m), j, e) && (StepOfCall(act(q), j) || !Holds(st(q), j, e))
    ensures n >= m && Holds(st(n), j, e) && StepOfCall(act(n), j)
    decreases q - m
  {
    hide Tick, Closing, Holds, HolderStepsLeft;
    if StepOfCall(act(m), j) {
      return m;
    }
    ClosingAt(st, act, m);
    TickHolder(st(m), act(m), st(m + 1), j, e);
    n := StepBeforeRelease(st, act, m + 1, q, j, e);
  }

  lemma HolderCanStep(s: State, j: JobId, e: Enqueuer)
    requires Holds(s, j, e) && EnqHoldsQueue(e)
    ensures CallCanStep(s, j)
  {
    assert Enabled(s, Enqueue(j, None));
  }

  lemma HolderSteps(st: nat -> State, act: nat -> Option<Action>, m: nat, j: JobId, e: Enqueuer) returns (n: nat)
    requires Behaviour(st, act) && WeaklyFair(st, act) && Quiet(act, m)
    requires Holds(st(m), j, e) && EnqHoldsQueue(e)
    ensures n >= m && Holds(st(n), j, e) && StepOfCall(act(n), j)
  {
    hide Tick, Holds, CallCanStep;
    if q: nat :| q >= m && !Holds(st(q), j, e) {
      n := StepBeforeRelease(st, act, m, q, j, e);
    } else {
      assert CallCan(st, j, m) by {
        forall q: nat | q >= m ensures CallCanStep(st(q), j) {
          HolderCanStep(st(q), j, e);
        }
      }
      assert CallDoes(act, j, m);
      var q: nat :| q >= m && StepOfCall(act(q), j);
      n := StepBeforeRelease(st, act, m, q, j, e);
    }
  }

  lemma SameStepsLeft(s: State, t: State, j: JobId, e: Enqueuer)
    requires Holds(s, j, e) && Holds(t, j, e)
    ensures HolderStepsLeft(s) == HolderStepsLeft(t)
  {
  }

  lemma FrozenHolder(st: nat -> State, act: nat -> Option<Action>, m: nat) returns (j: JobId, e: Enqueuer)
    requires Behaviour(st, act) && Frozen(st, act, m) && st(m).queueMutex.Some?
    ensures Holds(st(m), j, e) && EnqHoldsQueue(e) && Quiet(act, m)
  {
    hide Tick;
    ClosingAt(st, act, m);
    j := st(m).queueMutex.value.job;
    e := st(m).enqueuers[j];
  }

  lemma TickOfHolder(st: nat -> State, act: nat -> Option<Action>, n: nat, j: JobId, e: Enqueuer)
    requires Behaviour(st, act) && Quiet(act, n) && Holds(st(n), j, e) && StepOfCall(act(n), j)
    ensures HolderStepsLeft(st(n + 1)) < HolderStepsLeft(st(n))
  {
    hide Tick, Closing, Holds, HolderStepsLeft;
    ClosingAt(st, act, n);
    TickHolder(st(n), act(n), st(n + 1), j, e);
  }

  lemma HolderProgresses(st: nat -> State, act: nat -> Option<Action>, m: nat) returns (n: nat)
    requires Behaviour(st, act) && WeaklyFair(st, act) && Frozen(st, act, m) && st(m).queueMutex.Some?
    ensures n >= m && Frozen(st, act, n) && HolderStepsLeft(st(n)) < HolderStepsLeft(st(m))
  {
    hide Behaviour, WeaklyFair, Frozen, Holds, HolderStepsLeft;
    var j, e := FrozenHolder(st, act, m);
    var q := HolderSteps(st, act, m, j, e);
    TickOfHolder(st, act, q, j, e);
    SameStepsLeft(st(m), st(q), j, e);
    FrozenLater(st, act, m, q + 1);
    n := q + 1;
  }

  /** Whoever holds queue_access_mutex gives it up. */
  lemma {:induction false} MutexComesFree(st: nat -> State, act: nat -> Option<Action>, m: nat) returns (n: nat)
    requires Behaviour(st, act) && WeaklyFair(st, act) && Frozen(st, act, m)
    ensures n >= m && st(n).queueMutex == None
    decreases HolderStepsLeft(st(m))
  {
    hide Behaviour, WeaklyFair, Frozen, HolderStepsLeft;
    if st(m).queueMutex == None {
      return m;
    }
    var q := HolderProgresses(st, act, m);
    n := MutexComesFree(st, act, q);
  }

  // ----- no worker is left behind

  lemma QuietWorkersDoNothing(act: nat -> Option<Action>, m: nat, i: nat)
    requires Quiet(act, m)
    ensures !WorkerDoes(act, i, m)
  {
  }

  /** The workers stand still from m on: each finds its way barred at some time. */
  lemma SomethingBars(st: nat -> State, act: nat -> Option<Action>, m: nat, i: nat) returns (n: nat)
    requires Behaviour(st, act) && WeaklyFair(st, act) && Quiet(act, m) && NoneWaits(st(m))
    ensures Closing(st(n)) && !WorkerCanStep(st(n), i) && st(n).workers == st(m).workers
  {
    hide Tick, WorkerCanStep, Closing;
    QuietWorkersDoNothing(act, m, i);
    assert !WorkerCan(st, i, m);
    n :| n >= m && !WorkerCanStep(st(n), i);
    StandStill(st, act, m, n);
    ClosingAt(st, act, n);
  }

  lemma UnblockedWorkerCan(s: State, i: nat)
    requires i < |s.workers| && !Blocked(s.workers[i])
    ensures WorkerCanStep(s, i)
  {
    var wake := UnblockedCanStep(s, i);
    assert Enabled(s, Work(i, wake));
  }

  lemma EveryoneIsBlocked(st: nat -> State, act: nat -> Option<Action>, m: nat, i: nat)
    requires Behaviour(st, act) && WeaklyFair(st, act) && Quiet(act, m) && NoneWaits(st(m))
    requires i < |st(m).workers|
    ensures Blocked(st(m).workers[i])
  {
    hide Behaviour, WeaklyFair, Closing, WorkerCanStep;
    var n := SomethingBars(st, act, m, i);
    if !Blocked(st(m).workers[i]) {
      UnblockedWorkerCan(st(n), i);
    }
  }

  /** With every worker blocked, run_mutex is free. */
  lemma RunMutexIsFree(s: State, i: nat)
    requires Closing(s) && i < |s.workers| && (s.workers[i] == LockRun || s.workers[i] == Woken)
    requires forall k :: 0 <= k < |s.workers| ==> Blocked(s.workers[k])
    ensures WorkerCanStep(s, i)
  {
    assert forall k :: 0 <= k < |s.workers| ==> !HoldsRun(s.workers[k]);
    assert Enabled(s, Work(i, None));
  }

  /** Once the workers stand still, all of them are at the lock of line 367 or gone. */
  lemma OnlyLockersAreLeft(st: nat -> State, act: nat -> Option<Action>, m: nat, i: nat)
    requires Behaviour(st, act) && WeaklyFair(st, act) && Quiet(act, m) && NoneWaits(st(m))
    requires i < |st(m).workers|
    ensures st(m).workers[i] == LockQueue || st(m).workers[i] == Exited
  {
    hide Behaviour, WeaklyFair, Closing, WorkerCanStep;
    forall k: nat | k < |st(m).workers| {
      EveryoneIsBlocked(st, act, m, k);
    }
    var n := SomethingBars(st, act, m, i);
    if st(m).workers[i] == LockRun || st(m).workers[i] == Woken {
      RunMutexIsFree(st(n), i);
    }
  }

  /** A worker at the lock would find the mutex free again and again. */
  lemma LockerFindsItFree(st: nat -> State, act: nat -> Option<Action>, m: nat, i: nat)
    requires Behaviour(st, act) && WeaklyFair(st, act) && Frozen(st, act, m)
    requires i < |st(m).workers| && st(m).workers[i] == LockQueue
    ensures FindsItFreeAgain(st, i, m)
  {
    hide Behaviour, WeaklyFair;
    forall q: nat | q >= m ensures FindsItFreeLater(st, i, q) {
      FrozenLater(st, act, m, q);
      var n := MutexComesFree(st, act, q);
      FrozenLater(st, act, m, n);
      assert FindsItFree(st(n), i);
    }
  }

  lemma NoLockerIsLeft(st: nat -> State, act: nat -> Option<Action>, m: nat, i: nat)
    requires Behaviour(st, act) && WeaklyFair(st, act) && MutexFair(st, act) && Frozen(st, act, m)
    requires i < |st(m).workers|
    ensures st(m).workers[i] != LockQueue
  {
    hide Behaviour, WeaklyFair;
    QuietWorkersDoNothing(act, m, i);
    if st(m).workers[i] == LockQueue {
      LockerFindsItFree(st, act, m, i);
    }
  }

  /** Standing still means that all are gone. */
  lemma AllAreGone(st: nat -> State, act: nat -> Option<Action>, m: nat)
    requires Behaviour(st, act) && WeaklyFair(st, act) && MutexFair(st, act)
    requires Quiet(act, m) && NoneWaits(st(m))
    ensures st(m).alive == 0
  {
    hide Behaviour, WeaklyFair, MutexFair;
    forall i: nat | i < |st(m).workers| ensures st(m).workers[i] == Exited {
      forall k: nat | k < |st(m).workers| ensures !HoldsQueue(st(m).workers[k]) {
        OnlyLockersAreLeft(st, act, m, k);
      }
      assert Frozen(st, act, m);
      OnlyLockersAreLeft(st, act, m, i);
      NoLockerIsLeft(st, act, m, i);
    }
    ClosingAt(st, act, m);
    SumBound(st(m).workers, AliveBit, 0);
  }

  /** The load of line 261 that reads 0 ends the loop. */
  lemma LastLoad(s: State, o: Option<Action>, t: State)
    requires Closing(s) && Tick(s, o, t)
    requires o == Some(Destroy) && s.destroyer == LoadAlive && s.alive == 0
    ensures !InLoop(t)
  {
    hide Closing;
    TickLoop(s, o, t);
  }

  lemma DestroyerLeavesLoop(st: nat -> State, act: nat -> Option<Action>)
    requires Behaviour(st, act) && WeaklyFair(st, act) && MutexFair(st, act)
    ensures !AlwaysInLoop(st)
  {
    hide Tick, WeaklyFair, MutexFair, Closing;
    if AlwaysInLoop(st) {
      var q := Settles(st, act, 0);
      var b := DestroyerComesBy(st, act, q, Broadcast);
      ClosingAt(st, act, b);
      TickLoop(st(b), act(b), st(b + 1));
      var c := DestroyerComesBy(st, act, b + 1, LoadAlive);
      StandStill(st, act, b + 1, c);
      AllAreGone(st, act, c);
      ClosingAt(st, act, c);
      LastLoad(st(c), act(c), st(c + 1));
    }
  }

  lemma OutOfLoop(s: State)
    requires Closing(s) && !InLoop(s)
    ensures s.alive == 0
  {
  }

  /** Every fair behaviour after line 257 leaves the loop at 261-268, with every worker gone. */
  lemma FairShutdownEnds(st: nat -> State, act: nat -> Option<Action>)
    requires Behaviour(st, act) && WeaklyFair(st, act) && MutexFair(st, act)
    ensures exists n: nat :: !InLoop(st(n)) && st(n).alive == 0
  {
    hide Tick, WeaklyFair, MutexFair, Closing;
    DestroyerLeavesLoop(st, act);
    var n: nat :| !InLoop(st(n));
    ClosingAt(st, act, n);
    OutOfLoop(st(n));
  }
}
