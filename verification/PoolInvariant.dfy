/** What every step of the thread pool keeps, and hence every reachable state has. */
module PoolInvariant {
  import opened Wrappers
  import opened JobQueue
  import opened Sequences
  import opened PoolModel
  import opened Tally

  /** Counted in workers_alive: past line 405, not past line 475. */
  function AliveBit(w: Worker): nat {
    if w.Spawned? || w.Exited? then 0 else 1
  }

  /** Counted in workers_working: between lines 438 and 456. */
  function WorkingBit(w: Worker): nat {
    match w
    case LockQueue => 1
    case ReadHead => 1
    case ReadNext(_) => 1
    case SubCount(_) => 1
    case UnlockQueue(_) => 1
    case SignalRun(_) => 1
    case StartJob(_) => 1
    case Running(_) => 1
    case FreeJob(_) => 1
    case UnmarkWorking => 1
    case _ => 0
  }

  /** The job a worker has unlinked and not finished. */
  function HeldJob(w: Worker): seq<JobId> {
    match w
    case SubCount(work) => Listed(work)
    case UnlockQueue(work) => Listed(work)
    case SignalRun(work) => Listed(work)
    case StartJob(j) => [j]
    case Running(j) => [j]
    case _ => []
  }

  // The job a worker is about to start, is executing, or is about to free.
  function StartedBy(w: Worker): seq<JobId> { if w.StartJob? then [w.job] else [] }
  function FinishedBy(w: Worker): seq<JobId> { if w.Running? then [w.job] else [] }
  function ReleasedBy(w: Worker): seq<JobId> { if w.FreeJob? then [w.job] else [] }

  function Held(w: Worker): multiset<JobId> { multiset(HeldJob(w)) }
  function Executing(w: Worker): multiset<JobId> { multiset(FinishedBy(w)) }
  function Unreleased(w: Worker): multiset<JobId> { multiset(ReleasedBy(w)) }

  predicate HoldsRun(w: Worker) {
    w.TestCount? || w.TestActive? || w.EnterWait? || w.UnlockRun?
  }

  predicate HoldsQueue(w: Worker) {
    w.ReadHead? || w.ReadNext? || w.SubCount? || w.UnlockQueue?
  }

  predicate EnqHoldsQueue(e: Enqueuer) {
    e.EnqLink? || e.EnqAdd? || e.EnqUnlock?
  }

  /** The atomic counters mean what their names say. */
  ghost predicate Counters(s: State) {
    && 1 <= s.size < RANGE8
    && |s.workers| == s.size
    && s.alive == Sum(s.workers, AliveBit)
    && s.working == Sum(s.workers, WorkingBit)
    && s.active == (if s.destroyer == NotCalled then 1 else 0)
  }

  /** No client acts before thpool_init returns, and no worker is unborn after. */
  ghost predicate Startup(s: State) {
    && (s.ready ==> forall i :: 0 <= i < |s.workers| ==> s.workers[i] != Spawned)
    && (!s.ready ==>
          && s.enqueuers == map[]
          && s.destroyer == NotCalled
          && s.waiter == WaitIdle
          && s.log.linked == [])
  }

  /** Each mutex has exactly the holder its field records. */
  ghost predicate Locks(s: State) {
    && (forall i :: 0 <= i < |s.workers| ==> (HoldsRun(s.workers[i]) <==> s.runMutex == Some(i)))
    && (forall i :: 0 <= i < |s.workers| ==>
          (HoldsQueue(s.workers[i]) <==> s.queueMutex == Some(WorkerThread(i))))
    && (forall j :: j in s.enqueuers ==>
          (EnqHoldsQueue(s.enqueuers[j]) <==> s.queueMutex == Some(EnqueueCall(j))))
    && (s.runMutex.Some? ==> s.runMutex.value < |s.workers|)
    && (s.queueMutex.Some? ==>
          match s.queueMutex.value
          case WorkerThread(i) => i < |s.workers|
          case EnqueueCall(j) => j in s.enqueuers)
  }

  /** The jobs linked but not yet counted: one while its enqueuer is before line 346. */
  function Uncounted(s: State): seq<JobId> {
    match s.queueMutex
    case Some(EnqueueCall(j)) => if j in s.enqueuers && s.enqueuers[j] == EnqAdd then [j] else []
    case _ => []
  }

  /** The jobs unlinked but still counted: one while its worker is before line 377 or 385. */
  function Overcounted(s: State): nat {
    match s.queueMutex
    case Some(WorkerThread(i)) => if i < |s.workers| && s.workers[i].SubCount? then 1 else 0
    case _ => 0
  }

  /** job_count against the list. */
  ghost predicate CountMatches(s: State) {
    && s.count + |Uncounted(s)| == |s.queue| + |s.log.drained| + Overcounted(s)
    && s.issued <= |s.log.released| + |s.log.drained| + (RANGE64 - 1)
  }

  /** What a worker inside thpool_dequeue_job knows from its own reads. */
  ghost predicate View(s: State, w: Worker) {
    && (w.ReadNext? ==> w.work == Front(s.queue) && s.count != 1)
    && (w.SubCount? ==> w.work.Some?)
  }

  ghost predicate Views(s: State) {
    forall i :: 0 <= i < |s.workers| ==> View(s, s.workers[i])
  }

  /** Jobs leave the list in the order they entered it, and each enters once. */
  ghost predicate Order(s: State) {
    && s.log.linked == s.log.taken + s.log.drained + s.queue
    && s.log.linked == s.log.counted + Uncounted(s)
    && (forall j :: j in s.log.linked ==> j < s.issued)
    && Distinct(s.log.linked)
    && (forall j :: j in s.enqueuers ==> j < s.issued)
    && (forall j :: j in s.enqueuers && s.enqueuers[j] in {EnqLock, EnqLink} ==> j !in s.log.linked)
  }

  /** Every unlinked job is finished or in the hands of exactly one worker. */
  ghost predicate Accounts(s: State) {
    && multiset(s.log.taken) == multiset(s.log.finished) + Collect(s.workers, Held)
    && multiset(s.log.started) == multiset(s.log.finished) + Collect(s.workers, Executing)
    && multiset(s.log.finished) == multiset(s.log.released) + Collect(s.workers, Unreleased)
  }

  function WorkerParts(n: nat): seq<Part> { seq(n, i requires 0 <= i < n => WorkerPart(i)) }

  /** What thpool_destroy has freed besides jobs by the line it is at. */
  function Gone(s: State): seq<Part> {
    match s.destroyer
    case FreeWorkers(k) => WorkerParts(k)
    case FreePool => WorkerParts(s.size)
    case Destroyed => WorkerParts(s.size) + [QueuePart, ArrayPart, PoolPart]
    case _ => []
  }

  /** What the caller of thpool_destroy knows at each of its lines. */
  ghost predicate Teardown(s: State) {
    && (!(s.destroyer in {NotCalled, LoadAlive, Broadcast}) ==>
          s.ready && s.alive == 0)
    && (!Accepting(s) && s.ready ==> s.enqueuers == map[] && s.waiter == WaitIdle)
    && (s.log.drained != [] || s.destroyer.FreeWorkers? ==> !Accepting(s) && s.ready)
    && (s.destroyer.FreeWorkers? || s.destroyer in {FreePool, Destroyed} ==> s.queue == [])
    && (s.destroyer.FreeWorkers? ==> s.destroyer.next <= s.size)
    && s.log.dismantled == Gone(s)
  }

  ghost predicate Inv(s: State) {
    && Counters(s)
    && Startup(s)
    && Locks(s)
    && CountMatches(s)
    && Views(s)
    && Order(s)
    && Accounts(s)
    && Teardown(s)
  }

  // ----- initially

  lemma {:induction false} SumOfSpawned(s: seq<Worker>)
    requires forall i :: 0 <= i < |s| ==> s[i] == Spawned
    ensures Sum(s, AliveBit) == 0 && Sum(s, WorkingBit) == 0
  {
    SumBound(s, AliveBit, 0);
    SumBound(s, WorkingBit, 0);
  }

  lemma InitTotals(s: State)
    requires Init(s)
    ensures Counters(s) && Accounts(s)
  {
    SumOfSpawned(s.workers);
    CollectEmpty(s.workers, Held);
    CollectEmpty(s.workers, Executing);
    CollectEmpty(s.workers, Unreleased);
  }

  lemma InitInv(s: State)
    requires Init(s)
    ensures Inv(s)
  {
    hide Counters, Accounts;
    InitTotals(s);
  }

  // ----- totals over the workers, one step on

  lemma OneWorkerMoves(s: State, i: nat, wake: Option<nat>)
    requires i < |s.workers| && WorkerEnabled(s, i, wake)
    ensures var t := WorkerStep(s, i, wake);
            && t.workers == Signalled(s, i, wake)[i := NextLine(s, s.workers[i])]
            && |t.workers| == |s.workers|
            && t.workers[i] == NextLine(s, s.workers[i])
            && Signalled(s, i, wake)[i] == s.workers[i]
  {
  }

  lemma SumWake(ws: seq<Worker>, wake: Option<nat>, f: Worker -> nat)
    requires SignalChoice(ws, wake)
    requires f(Waiting) == f(Woken)
    ensures Sum(Wake(ws, wake), f) == Sum(ws, f)
  {
    if wake.Some? {
      SumUpdate(ws, wake.value, Woken, f);
    }
  }

  lemma CollectWake(ws: seq<Worker>, wake: Option<nat>, f: Worker -> multiset<JobId>)
    requires SignalChoice(ws, wake)
    requires f(Waiting) == f(Woken)
    ensures Collect(Wake(ws, wake), f) == Collect(ws, f)
  {
    var woken := Wake(ws, wake);
    forall k | 0 <= k < |ws| ensures f(ws[k]) == f(woken[k]) {
    }
    CollectSame(ws, woken, f);
  }

  lemma SumStep(s: State, i: nat, wake: Option<nat>, f: Worker -> nat)
    requires i < |s.workers| && WorkerEnabled(s, i, wake)
    requires f(Waiting) == f(Woken)
    ensures var t := WorkerStep(s, i, wake);
            Sum(t.workers, f) + f(s.workers[i]) == Sum(s.workers, f) + f(NextLine(s, s.workers[i]))
  {
    hide WorkerStep, NextLine;
    OneWorkerMoves(s, i, wake);
    var t := WorkerStep(s, i, wake);
    SumUpdate(Signalled(s, i, wake), i, NextLine(s, s.workers[i]), f);
    if s.workers[i].SignalRun? {
      SumWake(s.workers, wake, f);
    }
  }

  lemma CollectStep(s: State, i: nat, wake: Option<nat>, f: Worker -> multiset<JobId>)
    requires i < |s.workers| && WorkerEnabled(s, i, wake)
    requires f(Waiting) == f(Woken)
    ensures var t := WorkerStep(s, i, wake);
            Collect(t.workers, f) + f(s.workers[i]) == Collect(s.workers, f) + f(NextLine(s, s.workers[i]))
  {
    hide WorkerStep, NextLine;
    OneWorkerMoves(s, i, wake);
    var t := WorkerStep(s, i, wake);
    CollectUpdate(Signalled(s, i, wake), i, NextLine(s, s.workers[i]), f);
    if s.workers[i].SignalRun? {
      CollectWake(s.workers, wake, f);
    }
  }

  // ----- counters

  /** A worker's step moves workers_alive exactly as it crosses lines 405 and 475. */
  lemma AliveSteps(s: State, i: nat, wake: Option<nat>)
    requires i < |s.workers| && WorkerEnabled(s, i, wake)
    ensures var t := WorkerStep(s, i, wake);
            var before, after := AliveBit(s.workers[i]), AliveBit(NextLine(s, s.workers[i]));
            && t.size == s.size && t.active == s.active && t.destroyer == s.destroyer
            && t.alive == (if before < after then Inc8(s.alive)
                           else if before > after then Dec8(s.alive) else s.alive)
  {
  }

  /** A worker's step moves workers_working exactly as it crosses lines 438 and 456. */
  lemma WorkingSteps(s: State, i: nat, wake: Option<nat>)
    requires i < |s.workers| && WorkerEnabled(s, i, wake)
    ensures var t := WorkerStep(s, i, wake);
            var before, after := WorkingBit(s.workers[i]), WorkingBit(NextLine(s, s.workers[i]));
            t.working == (if before < after then Inc8(s.working)
                          else if before > after then Dec8(s.working) else s.working)
  {
  }

  lemma WorkerKeepsCounters(s: State, i: nat, wake: Option<nat>)
    requires Counters(s) && i < |s.workers| && WorkerEnabled(s, i, wake)
    ensures Counters(WorkerStep(s, i, wake))
  {
    hide WorkerStep, NextLine;
    OneWorkerMoves(s, i, wake);
    AliveSteps(s, i, wake);
    WorkingSteps(s, i, wake);
    SumStep(s, i, wake, AliveBit);
    SumStep(s, i, wake, WorkingBit);
    SumMember(s.workers, i, AliveBit);
    SumMember(s.workers, i, WorkingBit);
    var t := WorkerStep(s, i, wake);
    SumBound(t.workers, AliveBit, 1);
    SumBound(t.workers, WorkingBit, 1);
  }

  /** Some workers blocked on run_cond are unblocked; the others stay where they are. */
  ghost predicate OnlyWoken(s: seq<Worker>, t: seq<Worker>) {
    && |s| == |t|
    && forall i :: 0 <= i < |s| ==> t[i] == s[i] || (s[i] == Waiting && t[i] == Woken)
  }

  lemma WakingKeepsSum(s: seq<Worker>, t: seq<Worker>, f: Worker -> nat)
    requires OnlyWoken(s, t) && f(Waiting) == f(Woken)
    ensures Sum(t, f) == Sum(s, f)
  {
    SumMonotone(s, t, f, f);
    SumMonotone(t, s, f, f);
  }

  lemma WakingKeepsCollect(s: seq<Worker>, t: seq<Worker>, f: Worker -> multiset<JobId>)
    requires OnlyWoken(s, t) && f(Waiting) == f(Woken)
    ensures Collect(t, f) == Collect(s, f)
  {
    forall i | 0 <= i < |s| ensures f(s[i]) == f(t[i]) {
    }
    CollectSame(s, t, f);
  }

  /** Every action but a worker's own step at most wakes workers. */
  lemma OthersOnlyWake(s: State, a: Action)
    requires Enabled(s, a) && !a.Work?
    ensures OnlyWoken(s.workers, Step(s, a).workers)
  {
  }

  lemma OthersKeepCounters(s: State, a: Action)
    requires Enabled(s, a) && !a.Work? && s.active == (if s.destroyer == NotCalled then 1 else 0)
    ensures var t := Step(s, a);
            && t.size == s.size && t.alive == s.alive && t.working == s.working
            && t.active == (if t.destroyer == NotCalled then 1 else 0)
  {
  }

  lemma KeepsCounters(s: State, a: Action)
    requires Counters(s) && Enabled(s, a)
    ensures Counters(Step(s, a))
  {
    if a.Work? {
      WorkerKeepsCounters(s, a.index, a.wake);
    } else {
      OthersOnlyWake(s, a);
      OthersKeepCounters(s, a);
      WakingKeepsSum(s.workers, Step(s, a).workers, AliveBit);
      WakingKeepsSum(s.workers, Step(s, a).workers, WorkingBit);
    }
  }

  lemma {:induction false} AllCounted(s: seq<Worker>)
    requires Sum(s, AliveBit) == |s|
    ensures forall i :: 0 <= i < |s| ==> s[i] != Spawned
  {
    if s != [] {
      SumBound(s[1..], AliveBit, 1);
      AllCounted(s[1..]);
      assert forall i :: 1 <= i < |s| ==> s[i] == s[1..][i - 1];
    }
  }

  lemma KeepsStartup(s: State, a: Action)
    requires Counters(s) && Startup(s) && s.log.linked == s.log.taken + s.log.drained + s.queue && Enabled(s, a)
    ensures Startup(Step(s, a))
  {
    if a == InitReturns {
      AllCounted(s.workers);
    } else if a.Work? {
      OneWorkerMoves(s, a.index, a.wake);
    } else {
      OthersOnlyWake(s, a);
    }
  }

  /** A worker's step leaves every other worker where it is, or wakes it. */
  lemma OtherWorkersStay(s: State, i: nat, wake: Option<nat>, k: nat)
    requires i < |s.workers| && WorkerEnabled(s, i, wake)
    requires k < |s.workers| && k != i
    ensures var t := WorkerStep(s, i, wake);
            && |t.workers| == |s.workers|
            && (t.workers[k] == s.workers[k] || (s.workers[k] == Waiting && t.workers[k] == Woken))
  {
    OneWorkerMoves(s, i, wake);
  }

  /** A worker takes a mutex only when it is free, and gives up only what it holds. */
  lemma MutexSteps(s: State, i: nat, wake: Option<nat>)
    requires i < |s.workers| && WorkerEnabled(s, i, wake)
    ensures var t := WorkerStep(s, i, wake);
            var w := s.workers[i];
            var v := NextLine(s, w);
            && t.enqueuers == s.enqueuers
            && (if HoldsRun(v) == HoldsRun(w) then t.runMutex == s.runMutex
                else if HoldsRun(v) then s.runMutex == None && t.runMutex == Some(i)
                else t.runMutex == None)
            && (if HoldsQueue(v) == HoldsQueue(w) then t.queueMutex == s.queueMutex
                else if HoldsQueue(v) then s.queueMutex == None && t.queueMutex == Some(WorkerThread(i))
                else t.queueMutex == None)
  {
  }

  lemma WorkerKeepsLocks(s: State, i: nat, wake: Option<nat>)
    requires Locks(s) && i < |s.workers| && WorkerEnabled(s, i, wake)
    ensures Locks(WorkerStep(s, i, wake))
  {
    hide WorkerStep;
    MutexSteps(s, i, wake);
    OneWorkerMoves(s, i, wake);
    forall k: nat | k < |s.workers| && k != i {
      OtherWorkersStay(s, i, wake, k);
    }
  }

  /** thpool_destroy takes no mutex and touches no counter but thpool_active. */
  lemma DestroyFrame(s: State)
    ensures var t := DestroyStep(s);
            && t.enqueuers == s.enqueuers && t.queueMutex == s.queueMutex && t.runMutex == s.runMutex
            && t.count == s.count && t.issued == s.issued
            && t.log == s.log.(drained := t.log.drained, dismantled := t.log.dismantled)
            && s.log.drained + s.queue == t.log.drained + t.queue
  {
  }

  lemma EnqueueKeepsLocks(s: State, j: JobId, wake: Option<nat>)
    requires Locks(s) && Enabled(s, Enqueue(j, wake))
    ensures Locks(EnqueueStep(s, j, wake))
  {
    OthersOnlyWake(s, Enqueue(j, wake));
    hide Wake;
    match s.enqueuers[j]
    case EnqSignal =>
    case _ =>
  }

  lemma OthersKeepLocks(s: State, a: Action)
    requires Locks(s) && Enabled(s, a) && !a.Work? && !a.Enqueue?
    requires forall j :: j in s.enqueuers ==> j < s.issued
    ensures Locks(Step(s, a))
  {
    OthersOnlyWake(s, a);
    match a
    case CallEnqueue =>
    case Destroy => DestroyFrame(s);
    case _ =>
  }

  lemma KeepsLocks(s: State, a: Action)
    requires Locks(s) && Enabled(s, a)
    requires forall j :: j in s.enqueuers ==> j < s.issued
    ensures Locks(Step(s, a))
  {
    if a.Work? {
      WorkerKeepsLocks(s, a.index, a.wake);
    } else if a.Enqueue? {
      EnqueueKeepsLocks(s, a.job, a.wake);
    } else {
      OthersKeepLocks(s, a);
    }
  }

  // ----- the count and the list

  /** While a worker is alive, thpool_destroy frees nothing. */
  lemma LiveWorkerHoldsOffDrain(s: State, i: nat)
    requires Counters(s) && Teardown(s) && i < |s.workers| && AliveBit(s.workers[i]) == 1
    ensures s.log.drained == []
    ensures s.destroyer in {NotCalled, LoadAlive, Broadcast}
  {
    SumMember(s.workers, i, AliveBit);
  }

  /** What a worker inside thpool_dequeue_job sees of the list. */
  lemma DequeuerView(s: State, i: nat)
    requires Counters(s) && Teardown(s) && Locks(s) && CountMatches(s)
    requires i < |s.workers| && HoldsQueue(s.workers[i])
    ensures s.log.drained == [] && Uncounted(s) == []
    ensures s.count == |s.queue| + (if s.workers[i].SubCount? then 1 else 0)
  {
    LiveWorkerHoldsOffDrain(s, i);
  }

  /** The lines of thpool_dequeue_job that move the list or the count. */
  predicate Dequeues(w: Worker) {
    w.ReadHead? || w.ReadNext? || w.SubCount?
  }

  /** A worker's step never touches the logs of enqueuing and draining. */
  lemma LogFrame(s: State, i: nat, wake: Option<nat>)
    requires i < |s.workers| && WorkerEnabled(s, i, wake)
    ensures var t := WorkerStep(s, i, wake);
            && t.log.linked == s.log.linked && t.log.counted == s.log.counted
            && t.log.drained == s.log.drained && t.log.dismantled == s.log.dismantled && t.issued == s.issued
            && |s.log.released| <= |t.log.released|
  {
  }

  /** Outside thpool_dequeue_job a worker leaves the list and the count alone. */
  lemma ListFrame(s: State, i: nat, wake: Option<nat>)
    requires i < |s.workers| && WorkerEnabled(s, i, wake) && !Dequeues(s.workers[i])
    ensures var t := WorkerStep(s, i, wake);
            && t.queue == s.queue && t.count == s.count && t.log.taken == s.log.taken
            && !NextLine(s, s.workers[i]).SubCount? && !NextLine(s, s.workers[i]).ReadNext?
  {
  }

  /** Lines 370-384 take the head off the list, or find nothing to take. */
  lemma UnlinkStep(s: State, i: nat, wake: Option<nat>)
    requires i < |s.workers| && s.count == |s.queue|
    requires s.workers[i].ReadHead? || (s.workers[i].ReadNext? && s.workers[i].work == Front(s.queue))
    ensures var t := WorkerStep(s, i, wake);
            var v := NextLine(s, s.workers[i]);
            && t.count == s.count
            && (if v.SubCount? then
                  && s.queue != [] && v.work == Some(s.queue[0])
                  && t.queue == s.queue[1..] && t.log.taken == s.log.taken + [s.queue[0]]
                else
                  && t.queue == s.queue && t.log.taken == s.log.taken
                  && (v.ReadNext? ==> v.work == Front(s.queue) && s.count != 1))
  {
  }

  /** Lines 377 and 385 bring the count back in step with the list. */
  lemma SubCountStep(s: State, i: nat, wake: Option<nat>)
    requires i < |s.workers| && s.workers[i].SubCount? && s.count > 0
    ensures var t := WorkerStep(s, i, wake);
            && t.count == s.count - 1 && t.queue == s.queue && t.log.taken == s.log.taken
            && NextLine(s, s.workers[i]) == UnlockQueue(s.workers[i].work)
  {
  }

  lemma WorkerKeepsCount(s: State, i: nat, wake: Option<nat>)
    requires Counters(s) && Teardown(s) && Locks(s) && CountMatches(s) && Views(s)
    requires i < |s.workers| && WorkerEnabled(s, i, wake)
    ensures CountMatches(WorkerStep(s, i, wake))
  {
    hide WorkerStep;
    var t := WorkerStep(s, i, wake);
    LogFrame(s, i, wake);
    MutexSteps(s, i, wake);
    OneWorkerMoves(s, i, wake);
    assert Uncounted(t) == Uncounted(s);
    if Dequeues(s.workers[i]) {
      DequeuerView(s, i);
      if s.workers[i].SubCount? {
        SubCountStep(s, i, wake);
      } else {
        UnlinkStep(s, i, wake);
      }
    } else {
      ListFrame(s, i, wake);
      match s.queueMutex
      case Some(WorkerThread(k)) =>
        if k != i {
          OtherWorkersStay(s, i, wake, k);
        }
      case _ =>
    }
  }

  /** No other worker is inside thpool_dequeue_job while worker i moves the list. */
  lemma BystandersKeepViews(s: State, i: nat, wake: Option<nat>, k: nat)
    requires Locks(s) && Views(s)
    requires i < |s.workers| && WorkerEnabled(s, i, wake)
    requires k < |s.workers| && k != i
    ensures var t := WorkerStep(s, i, wake); k < |t.workers| && View(t, t.workers[k])
  {
    OtherWorkersStay(s, i, wake, k);
    if !Dequeues(s.workers[i]) {
      ListFrame(s, i, wake);
    }
  }

  lemma WorkerKeepsViews(s: State, i: nat, wake: Option<nat>)
    requires Counters(s) && Teardown(s) && Locks(s) && CountMatches(s) && Views(s)
    requires i < |s.workers| && WorkerEnabled(s, i, wake)
    ensures Views(WorkerStep(s, i, wake))
  {
    hide WorkerStep;
    var t := WorkerStep(s, i, wake);
    OneWorkerMoves(s, i, wake);
    if Dequeues(s.workers[i]) {
      DequeuerView(s, i);
      if s.workers[i].SubCount? {
        SubCountStep(s, i, wake);
      } else {
        UnlinkStep(s, i, wake);
      }
    } else {
      ListFrame(s, i, wake);
    }
    assert View(t, t.workers[i]);
    forall k: nat | k < |s.workers| && k != i {
      BystandersKeepViews(s, i, wake, k);
    }
  }

  lemma WorkerKeepsOrder(s: State, i: nat, wake: Option<nat>)
    requires Counters(s) && Teardown(s) && Locks(s) && CountMatches(s) && Views(s) && Order(s)
    requires i < |s.workers| && WorkerEnabled(s, i, wake)
    ensures Order(WorkerStep(s, i, wake))
  {
    hide WorkerStep, Distinct;
    var t := WorkerStep(s, i, wake);
    LogFrame(s, i, wake);
    MutexSteps(s, i, wake);
    assert Uncounted(t) == Uncounted(s);
    if Dequeues(s.workers[i]) {
      DequeuerView(s, i);
      if s.workers[i].SubCount? {
        SubCountStep(s, i, wake);
      } else {
        UnlinkStep(s, i, wake);
      }
    } else {
      ListFrame(s, i, wake);
    }
  }

  // ----- accounts

  /** The job a worker's next step unlinks. */
  function TakenBy(s: State, w: Worker): seq<JobId> {
    match w
    case ReadHead => if s.count == 1 then Listed(Front(s.queue)) else []
    case ReadNext(work) => if s.count > 1 then Listed(work) else []
    case _ => []
  }

  lemma TakingStep(s: State, i: nat, wake: Option<nat>)
    requires i < |s.workers| && WorkerEnabled(s, i, wake)
    ensures WorkerStep(s, i, wake).log.taken == s.log.taken + TakenBy(s, s.workers[i])
  {
  }

  lemma JobSteps(s: State, i: nat, wake: Option<nat>)
    requires i < |s.workers| && WorkerEnabled(s, i, wake)
    ensures var w, t := s.workers[i], WorkerStep(s, i, wake);
            && t.log.started == s.log.started + StartedBy(w)
            && t.log.finished == s.log.finished + FinishedBy(w)
            && t.log.released == s.log.released + ReleasedBy(w)
  {
  }

  /** A job enters a worker's hands as it leaves the list, and leaves them as it finishes. */
  lemma HeldMoves(s: State, w: Worker)
    requires w.ReadNext? && s.count <= 1 ==> w.work == None
    ensures var v := NextLine(s, w);
            || (HeldJob(v) == HeldJob(w) && FinishedBy(w) == TakenBy(s, w) == [])
            || (HeldJob(v) == TakenBy(s, w) && HeldJob(w) == FinishedBy(w) == [])
            || (HeldJob(v) == TakenBy(s, w) == [] && HeldJob(w) == FinishedBy(w))
  {
  }

  /** A job executes from line 451 until its function returns, and is freed after that. */
  lemma ExecutingMoves(s: State, w: Worker)
    ensures var v := NextLine(s, w);
            if w.StartJob? || w.Running? || w.FreeJob? then
              && FinishedBy(v) == StartedBy(w) && ReleasedBy(v) == FinishedBy(w)
            else
              && FinishedBy(v) == FinishedBy(w) == StartedBy(w) == []
              && ReleasedBy(v) == ReleasedBy(w) == []
  {
  }

  /** A balance a == b + c survives when a gains x, b gains y and c moves from h to h'. */
  lemma Rebalance<X>(a: multiset<X>, b: multiset<X>, c: multiset<X>, c': multiset<X>,
                     x: multiset<X>, y: multiset<X>, h: multiset<X>, h': multiset<X>)
    requires a == b + c
    requires c' + h == c + h'
    requires h' + y == h + x
    ensures a + x == b + y + c'
  {
    forall e ensures (a + x)[e] == (b + y + c')[e] {
      assert (c' + h)[e] == (c + h')[e];
      assert (h' + y)[e] == (h + x)[e];
    }
  }

  lemma WorkerKeepsHeld(s: State, i: nat, wake: Option<nat>)
    requires Counters(s) && Teardown(s) && Locks(s) && CountMatches(s) && Views(s)
    requires i < |s.workers| && WorkerEnabled(s, i, wake)
    requires multiset(s.log.taken) == multiset(s.log.finished) + Collect(s.workers, Held)
    ensures var t := WorkerStep(s, i, wake);
            multiset(t.log.taken) == multiset(t.log.finished) + Collect(t.workers, Held)
  {
    hide WorkerStep, Counters, Teardown, Locks, CountMatches;
    var w, t := s.workers[i], WorkerStep(s, i, wake);
    if HoldsQueue(w) {
      DequeuerView(s, i);
    }
    TakingStep(s, i, wake);
    JobSteps(s, i, wake);
    HeldMoves(s, w);
    CollectStep(s, i, wake, Held);
    Rebalance(multiset(s.log.taken), multiset(s.log.finished), Collect(s.workers, Held), Collect(t.workers, Held),
              multiset(TakenBy(s, w)), multiset(FinishedBy(w)), Held(w), Held(NextLine(s, w)));
  }

  lemma WorkerKeepsExecuting(s: State, i: nat, wake: Option<nat>)
    requires i < |s.workers| && WorkerEnabled(s, i, wake)
    requires multiset(s.log.started) == multiset(s.log.finished) + Collect(s.workers, Executing)
    ensures var t := WorkerStep(s, i, wake);
            multiset(t.log.started) == multiset(t.log.finished) + Collect(t.workers, Executing)
  {
    hide WorkerStep;
    var w, t := s.workers[i], WorkerStep(s, i, wake);
    JobSteps(s, i, wake);
    ExecutingMoves(s, w);
    CollectStep(s, i, wake, Executing);
    Rebalance(multiset(s.log.started), multiset(s.log.finished),
              Collect(s.workers, Executing), Collect(t.workers, Executing),
              multiset(StartedBy(w)), multiset(FinishedBy(w)), Executing(w), Executing(NextLine(s, w)));
  }

  lemma WorkerKeepsUnreleased(s: State, i: nat, wake: Option<nat>)
    requires i < |s.workers| && WorkerEnabled(s, i, wake)
    requires multiset(s.log.finished) == multiset(s.log.released) + Collect(s.workers, Unreleased)
    ensures var t := WorkerStep(s, i, wake);
            multiset(t.log.finished) == multiset(t.log.released) + Collect(t.workers, Unreleased)
  {
    hide WorkerStep;
    var w, t := s.workers[i], WorkerStep(s, i, wake);
    JobSteps(s, i, wake);
    ExecutingMoves(s, w);
    CollectStep(s, i, wake, Unreleased);
    Rebalance(multiset(s.log.finished), multiset(s.log.released),
              Collect(s.workers, Unreleased), Collect(t.workers, Unreleased),
              multiset(FinishedBy(w)), multiset(ReleasedBy(w)), Unreleased(w), Unreleased(NextLine(s, w)));
  }

  /** Only workers move the logs of what happens to an unlinked job. */
  lemma OthersKeepJobLogs(s: State, a: Action)
    requires Enabled(s, a) && !a.Work?
    ensures var t := Step(s, a);
            && t.log.taken == s.log.taken && t.log.started == s.log.started
            && t.log.finished == s.log.finished && t.log.released == s.log.released
  {
  }

  lemma WakingKeepsHands(ws: seq<Worker>, vs: seq<Worker>)
    requires OnlyWoken(ws, vs)
    ensures Collect(vs, Held) == Collect(ws, Held)
    ensures Collect(vs, Executing) == Collect(ws, Executing)
    ensures Collect(vs, Unreleased) == Collect(ws, Unreleased)
  {
    hide OnlyWoken, Collect;
    WakingKeepsCollect(ws, vs, Held);
    WakingKeepsCollect(ws, vs, Executing);
    WakingKeepsCollect(ws, vs, Unreleased);
  }

  lemma OthersKeepAccounts(s: State, a: Action)
    requires Accounts(s) && Enabled(s, a) && !a.Work?
    ensures Accounts(Step(s, a))
  {
    hide Step, Enabled, OnlyWoken, Collect;
    OthersOnlyWake(s, a);
    OthersKeepJobLogs(s, a);
    WakingKeepsHands(s.workers, Step(s, a).workers);
  }

  lemma KeepsAccounts(s: State, a: Action)
    requires Counters(s) && Teardown(s) && Locks(s) && CountMatches(s) && Views(s) && Accounts(s)
    requires Enabled(s, a)
    ensures Accounts(Step(s, a))
  {
    if a.Work? {
      hide WorkerStep;
      WorkerKeepsHeld(s, a.index, a.wake);
      WorkerKeepsExecuting(s, a.index, a.wake);
      WorkerKeepsUnreleased(s, a.index, a.wake);
    } else {
      OthersKeepAccounts(s, a);
    }
  }

  // ----- teardown

  /** A worker's step is none of the clients' or the destroyer's business. */
  lemma ClientFrame(s: State, i: nat, wake: Option<nat>)
    requires i < |s.workers| && WorkerEnabled(s, i, wake)
    ensures var t := WorkerStep(s, i, wake);
            && t.ready == s.ready && t.enqueuers == s.enqueuers && t.destroyer == s.destroyer
            && t.size == s.size && (s.waiter == WaitIdle <==> t.waiter == WaitIdle)
  {
  }

  lemma WorkerKeepsTeardown(s: State, i: nat, wake: Option<nat>)
    requires Counters(s) && Startup(s) && Teardown(s) && i < |s.workers| && WorkerEnabled(s, i, wake)
    ensures Teardown(WorkerStep(s, i, wake))
  {
    hide WorkerStep;
    ClientFrame(s, i, wake);
    LogFrame(s, i, wake);
    if AliveBit(s.workers[i]) == 1 {
      LiveWorkerHoldsOffDrain(s, i);
    }
  }

  lemma EnqueueKeepsTeardown(s: State, j: JobId, wake: Option<nat>)
    requires Startup(s) && Teardown(s) && Enabled(s, Enqueue(j, wake))
    ensures Teardown(EnqueueStep(s, j, wake))
  {
    hide Wake, Link;
  }

  lemma KeepsTeardown(s: State, a: Action)
    requires Counters(s) && Startup(s) && Teardown(s) && Enabled(s, a)
    ensures Teardown(Step(s, a))
  {
    hide WorkerStep, EnqueueStep;
    if a.Work? {
      WorkerKeepsTeardown(s, a.index, a.wake);
    } else if a.Enqueue? {
      EnqueueKeepsTeardown(s, a.job, a.wake);
    }
  }

  // ----- what the other actions do to the list and its logs

  /** Inside its critical section, the call for job j sees the count and the list agree. */
  lemma EnqueuerView(s: State, j: JobId)
    requires Locks(s) && CountMatches(s) && Teardown(s) && Startup(s)
    requires j in s.enqueuers && EnqHoldsQueue(s.enqueuers[j])
    ensures s.log.drained == [] && Overcounted(s) == 0
    ensures s.enqueuers[j] == EnqAdd ==> Uncounted(s) == [j] && s.count + 1 == |s.queue|
    ensures s.enqueuers[j] != EnqAdd ==> Uncounted(s) == [] && s.count == |s.queue|
  {
  }

  /** The list never outgrows the address space, so job_count cannot wrap. */
  lemma QueueFits(s: State)
    requires CountMatches(s) && Order(s) && Accounts(s)
    ensures |s.queue| < RANGE64
  {
    DistinctBelow(s.log.linked, s.issued);
    assert |multiset(s.log.taken)| == |s.log.taken|;
    assert |multiset(s.log.finished)| == |s.log.finished|;
    assert |multiset(s.log.released)| == |s.log.released|;
  }

  lemma EnqueueKeepsCount(s: State, j: JobId, wake: Option<nat>)
    requires Startup(s) && Locks(s) && CountMatches(s) && Teardown(s) && Enabled(s, Enqueue(j, wake))
    requires |s.queue| < RANGE64
    ensures CountMatches(EnqueueStep(s, j, wake))
  {
    OthersOnlyWake(s, Enqueue(j, wake));
    var t := EnqueueStep(s, j, wake);
    match s.enqueuers[j]
    case EnqLock =>
    case EnqLink => EnqueuerView(s, j);
    case EnqAdd => EnqueuerView(s, j);
    case EnqUnlock => EnqueuerView(s, j);
    case EnqSignal => assert Uncounted(t) == Uncounted(s);
  }

  lemma EnqueueKeepsOrder(s: State, j: JobId, wake: Option<nat>)
    requires Startup(s) && Locks(s) && CountMatches(s) && Order(s) && Teardown(s)
    requires Enabled(s, Enqueue(j, wake))
    ensures Order(EnqueueStep(s, j, wake))
  {
    hide Startup, CountMatches, Teardown, Distinct;
    var t := EnqueueStep(s, j, wake);
    match s.enqueuers[j]
    case EnqLock =>
    case EnqLink =>
      EnqueuerView(s, j);
      LinkKeepsOrder(s, t, j);
    case EnqAdd => EnqueuerView(s, j);
    case EnqUnlock => EnqueuerView(s, j);
    case EnqSignal => assert Uncounted(t) == Uncounted(s);
  }

  lemma LinkKeepsOrder(s: State, t: State, j: JobId)
    requires Order(s) && Uncounted(s) == [] && s.log.drained == [] && s.count == |s.queue|
    requires j in s.enqueuers && s.enqueuers[j] == EnqLink && s.queueMutex == Some(EnqueueCall(j))
    requires t == s.(queue := Link(s.queue, s.count, j), enqueuers := s.enqueuers[j := EnqAdd],
                     log := s.log.(linked := s.log.linked + [j]))
    ensures Order(t)
  {
    hide Distinct;
    DistinctAppend(s.log.linked, j);
  }

  lemma EnqueueKeepsViews(s: State, j: JobId, wake: Option<nat>)
    requires Locks(s) && Views(s) && Enabled(s, Enqueue(j, wake))
    ensures Views(EnqueueStep(s, j, wake))
  {
    OthersOnlyWake(s, Enqueue(j, wake));
    var t := EnqueueStep(s, j, wake);
    forall i | 0 <= i < |t.workers| ensures View(t, t.workers[i]) {
      assert View(s, s.workers[i]);
      match s.enqueuers[j]
      case EnqLink => assert !HoldsQueue(s.workers[i]);
      case EnqAdd => assert !HoldsQueue(s.workers[i]);
      case _ =>
    }
  }

  /** Actions that are no step of an enqueue or of a worker. */
  predicate Elsewhere(a: Action) { !a.Work? && !a.Enqueue? }

  /** They do not change what is linked, counted or taken, nor which job is between the two. */
  lemma OthersFrame(s: State, a: Action)
    requires Enabled(s, a) && Elsewhere(a) && (forall j :: j in s.enqueuers ==> j < s.issued)
    ensures var t := Step(s, a);
            && t.count == s.count && t.queueMutex == s.queueMutex
            && Uncounted(t) == Uncounted(s) && Overcounted(t) == Overcounted(s)
            && t.log == s.log.(drained := t.log.drained, dismantled := t.log.dismantled)
            && t.log.drained + t.queue == s.log.drained + s.queue
            && |s.log.drained| <= |t.log.drained|
  {
    OthersOnlyWake(s, a);
  }

  lemma OthersKeepCount(s: State, a: Action)
    requires CountMatches(s) && (forall j :: j in s.enqueuers ==> j < s.issued)
    requires Enabled(s, a) && Elsewhere(a)
    ensures CountMatches(Step(s, a))
  {
    OthersFrame(s, a);
    hide WorkerStep, EnqueueStep, WaitStep, DestroyStep, Uncounted, Overcounted;
    var t := Step(s, a);
    assert |t.log.drained + t.queue| == |s.log.drained + s.queue|;
    assert t.issued == (if a == CallEnqueue then s.issued + 1 else s.issued) by {
      if a == Destroy {
        DestroyFrame(s);
      } else if a == Wait {
      }
    }
  }

  lemma OthersKeepOrder(s: State, a: Action)
    requires Order(s) && Enabled(s, a) && Elsewhere(a)
    ensures Order(Step(s, a))
  {
    hide Distinct;
    OthersFrame(s, a);
    if a == Destroy {
      DestroyFrame(s);
    }
  }

  lemma OthersKeepViews(s: State, a: Action)
    requires Counters(s) && Teardown(s) && Views(s) && Enabled(s, a) && !a.Work? && !a.Enqueue?
    ensures Views(Step(s, a))
  {
    OthersOnlyWake(s, a);
    var t := Step(s, a);
    forall i | 0 <= i < |t.workers| ensures View(t, t.workers[i]) {
      assert View(s, s.workers[i]);
      if a == Destroy && (s.workers[i].ReadNext? || s.workers[i].SubCount?) {
        LiveWorkerHoldsOffDrain(s, i);
      }
    }
  }

  // ----- every step, every run

  /** Each step keeps the invariant. */
  lemma StepInv(s: State, a: Action)
    requires Inv(s) && Enabled(s, a)
    ensures Inv(Step(s, a))
  {
    hide WorkerStep, EnqueueStep;
    KeepsCounters(s, a);
    KeepsStartup(s, a);
    KeepsLocks(s, a);
    KeepsAccounts(s, a);
    KeepsTeardown(s, a);
    if a.Work? {
      WorkerKeepsCount(s, a.index, a.wake);
      WorkerKeepsOrder(s, a.index, a.wake);
      WorkerKeepsViews(s, a.index, a.wake);
    } else if a.Enqueue? {
      QueueFits(s);
      EnqueueKeepsCount(s, a.job, a.wake);
      EnqueueKeepsOrder(s, a.job, a.wake);
      EnqueueKeepsViews(s, a.job, a.wake);
    } else {
      OthersKeepCount(s, a);
      OthersKeepOrder(s, a);
      OthersKeepViews(s, a);
    }
  }

  /** Each run keeps the invariant. */
  lemma {:induction false} RunInv(s: State, run: seq<Action>)
    requires Inv(s) && Feasible(s, run)
    ensures Inv(After(s, run))
    decreases |run|
  {
    if run != [] {
      StepInv(s, run[0]);
      RunInv(Step(s, run[0]), run[1..]);
    }
  }

  /** Every reachable state has the invariant. */
  lemma ReachableInv(s: State)
    requires Reachable(s)
    ensures Inv(s)
  {
    var start, run :| Init(start) && Feasible(start, run) && After(start, run) == s;
    InitInv(start);
    RunInv(start, run);
  }
}
