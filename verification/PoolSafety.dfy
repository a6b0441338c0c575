/** What the invariant means to a user of the thread pool, in every reachable state. */
module PoolSafety {
  import opened Wrappers
  import opened JobQueue
  import opened Sequences
  import opened PoolModel
  import opened Tally
  import opened PoolInvariant

  // ----- jobs are conserved, executed once, and in order

  /** Every linked job is finished, held by a worker, still listed, or was drained. */
  lemma JobsConserved(s: State)
    requires Reachable(s)
    ensures multiset(s.log.linked)
            == multiset(s.log.finished) + Collect(s.workers, Held) + multiset(s.queue) + multiset(s.log.drained)
  {
    ReachableInv(s);
    assert multiset(s.log.linked) == multiset(s.log.taken) + multiset(s.log.drained) + multiset(s.queue);
  }

  /** A job is in at most one place: listed, held, finished but not freed, or freed, and once there. */
  lemma JobInOnePlace(s: State, j: JobId)
    requires Inv(s)
    ensures multiset(s.queue)[j] + Collect(s.workers, Held)[j] + Collect(s.workers, Unreleased)[j]
            + multiset(s.log.released)[j] + multiset(s.log.drained)[j] == multiset(s.log.linked)[j] <= 1
  {
    assert multiset(s.log.linked) == multiset(s.log.taken) + multiset(s.log.drained) + multiset(s.queue);
    assert multiset(s.log.taken)[j] == multiset(s.log.finished)[j] + Collect(s.workers, Held)[j];
    assert multiset(s.log.finished)[j] == multiset(s.log.released)[j] + Collect(s.workers, Unreleased)[j];
  }

  /** A taken job is in hand or finished, a finished one about to be freed or freed. */
  lemma TakenSplit(s: State, j: JobId)
    requires Inv(s)
    ensures multiset(s.log.taken)[j] == multiset(s.log.finished)[j] + Collect(s.workers, Held)[j]
    ensures multiset(s.log.finished)[j] == multiset(s.log.released)[j] + Collect(s.workers, Unreleased)[j]
    ensures multiset(s.log.started)[j] == multiset(s.log.finished)[j] + Collect(s.workers, Executing)[j]
  {
  }

  /** No job is started twice, finished twice, or freed twice, by worker or destroyer. */
  lemma NothingHappensTwice(s: State)
    requires Reachable(s)
    ensures Distinct(s.log.taken) && Distinct(s.log.started)
    ensures Distinct(s.log.finished) && Distinct(s.log.released + s.log.drained)
  {
    hide Distinct, Inv, Reachable;
    ReachableInv(s);
    forall j {
      CountedOnce(s, j);
    }
    DistinctIfCountedOnce(s.log.taken);
    DistinctIfCountedOnce(s.log.started);
    DistinctIfCountedOnce(s.log.finished);
    DistinctIfCountedOnce(s.log.released + s.log.drained);
  }

  lemma CountedOnce(s: State, j: JobId)
    requires Inv(s)
    ensures multiset(s.log.taken)[j] <= 1 && multiset(s.log.started)[j] <= 1
    ensures multiset(s.log.finished)[j] <= 1 && multiset(s.log.released + s.log.drained)[j] <= 1
  {
    hide Inv, Collect;
    JobInOnePlace(s, j);
    TakenSplit(s, j);
    ExecutingIsHeld(s.workers);
    assert Collect(s.workers, Executing)[j] <= Collect(s.workers, Held)[j];
  }

  lemma {:induction false} ExecutingIsHeld(ws: seq<Worker>)
    ensures Collect(ws, Executing) <= Collect(ws, Held)
  {
    if ws != [] {
      assert Executing(ws[0]) <= Held(ws[0]);
      hide Executing, Held;
      ExecutingIsHeld(ws[1..]);
    }
  }

  /** Two workers never have the same job in hand. */
  lemma HandsAreDisjoint(s: State, i: nat, k: nat, j: JobId)
    requires Reachable(s) && i < k < |s.workers|
    ensures j in HeldJob(s.workers[i]) ==> j !in HeldJob(s.workers[k])
  {
    hide Inv;
    ReachableInv(s);
    CollectPair(s.workers, i, k, Held);
    JobInOnePlace(s, j);
    assert (Held(s.workers[i]) + Held(s.workers[k]))[j] <= Collect(s.workers, Held)[j];
  }

  /** First come, first served: jobs leave the list, to workers and then to the drain, in link order. */
  lemma FirstComeFirstServed(s: State)
    requires Reachable(s)
    ensures s.log.taken <= s.log.linked
    ensures s.log.taken + s.log.drained <= s.log.linked
    ensures s.queue == s.log.linked[|s.log.taken| + |s.log.drained|..]
  {
    ReachableInv(s);
  }

  // ----- the list and its mutex

  /** Outside the critical sections, and until the drain begins, job_count is the length of the list. */
  lemma CountIsLength(s: State)
    requires Reachable(s) && s.queueMutex == None
    requires s.destroyer in {NotCalled, LoadAlive, Broadcast, ReadJobs}
    ensures s.count == |s.queue|
    ensures s.count == 0 <==> Front(s.queue) == None
  {
    ReachableInv(s);
  }

  /** The thread an action belongs to, if that thread is inside a critical section of the queue. */
  function InSection(s: State, a: Action): Option<Thread> {
    match a
    case Work(i, _) => if i < |s.workers| && HoldsQueue(s.workers[i]) then Some(WorkerThread(i)) else None
    case Enqueue(j, _) =>
      if j in s.enqueuers && EnqHoldsQueue(s.enqueuers[j]) then Some(EnqueueCall(j)) else None
    case _ => None
  }

  lemma SectionHolder(s: State, a: Action)
    requires Locks(s) && InSection(s, a).Some?
    ensures s.queueMutex == InSection(s, a)
  {
  }

  /** At most one thread is inside a critical section of the queue. */
  lemma MutualExclusion(s: State, a: Action, b: Action)
    requires Reachable(s) && InSection(s, a).Some? && InSection(s, b).Some?
    ensures InSection(s, a) == InSection(s, b)
  {
    hide InSection, Locks, Reachable;
    ReachableInv(s);
    SectionHolder(s, a);
    SectionHolder(s, b);
  }

  /** Only that thread changes the list or the count, except for the drain, when no other thread is left
      that could look. */
  lemma ListMovesUnderLock(s: State, a: Action)
    requires Reachable(s) && Enabled(s, a)
    requires Step(s, a).queue != s.queue || Step(s, a).count != s.count
    ensures || InSection(s, a).Some?
            || (a == Destroy && s.alive == 0 && s.enqueuers == map[] && s.waiter == WaitIdle)
  {
    hide Counters, Startup, Locks, CountMatches, Views, Order, Accounts;
    ReachableInv(s);
    match a
    case Work(i, wake) =>
      hide WorkerStep;
      if !Dequeues(s.workers[i]) {
        ListFrame(s, i, wake);
      }
    case _ =>
  }

  // ----- the counters

  /** workers_working counts the workers between lines 438 and 456, and the counters are bounded. */
  lemma CounterBounds(s: State)
    requires Reachable(s)
    ensures s.working == Sum(s.workers, WorkingBit)
    ensures s.alive == Sum(s.workers, AliveBit)
    ensures s.working <= s.alive <= s.size <= 255
  {
    ReachableInv(s);
    AliveBounds(s.workers);
  }

  lemma AliveBounds(ws: seq<Worker>)
    ensures Sum(ws, WorkingBit) <= Sum(ws, AliveBit) <= |ws|
  {
    SumMonotone(ws, ws, WorkingBit, AliveBit);
    SumBound(ws, AliveBit, 1);
  }

  /** What an action adds to workers_alive, workers_working and job_count, were they unbounded. */
  function AliveGain(s: State, a: Action): int {
    if !a.Work? || a.index >= |s.workers| then 0
    else if s.workers[a.index] == Spawned then 1
    else if s.workers[a.index] == MarkDead then -1
    else 0
  }

  function WorkingGain(s: State, a: Action): int {
    if !a.Work? || a.index >= |s.workers| then 0
    else if s.workers[a.index] == MarkWorking then 1
    else if s.workers[a.index] == UnmarkWorking then -1
    else 0
  }

  function CountGain(s: State, a: Action): int {
    if a.Work? && a.index < |s.workers| && s.workers[a.index].SubCount? then -1
    else if a.Enqueue? && a.job in s.enqueuers && s.enqueuers[a.job] == EnqAdd then 1
    else 0
  }

  /** The model's atomics have 8 and 64 bits, and wrap in both directions. */
  lemma AtomicsWrap(x: nat)
    ensures Inc8(0xFF) == 0 && Dec8(0) == 0xFF
    ensures x < 0xFF ==> Inc8(x) == x + 1 && Dec8(x + 1) == x
    ensures Inc64(0xFFFF_FFFF_FFFF_FFFF) == 0 && Dec64(0) == 0xFFFF_FFFF_FFFF_FFFF
    ensures x < 0xFFFF_FFFF_FFFF_FFFF ==> Inc64(x) == x + 1 && Dec64(x + 1) == x
  {
  }

  /** No atomic counter ever wraps, up or down. */
  lemma CountersNeverWrap(s: State, a: Action)
    requires Reachable(s) && Enabled(s, a)
    ensures Step(s, a).alive == s.alive + AliveGain(s, a)
    ensures Step(s, a).working == s.working + WorkingGain(s, a)
    ensures Step(s, a).count == s.count + CountGain(s, a)
    ensures a == CallDestroy ==> s.active == 1
  {
    ReachableInv(s);
    StepNeverWraps(s, a);
  }

  lemma StepNeverWraps(s: State, a: Action)
    requires Inv(s) && Enabled(s, a)
    ensures Step(s, a).alive == s.alive + AliveGain(s, a)
    ensures Step(s, a).working == s.working + WorkingGain(s, a)
    ensures Step(s, a).count == s.count + CountGain(s, a)
    ensures a == CallDestroy ==> s.active == 1
  {
    hide WorkerStep, EnqueueStep, Startup, Locks, CountMatches, Views, Order, Accounts, Teardown;
    if a.Work? {
      WorkersNeverWrap(s, a.index, a.wake);
      CountNeverWraps(s, a.index, a.wake);
    } else if a.Enqueue? {
      EnqueueNeverWraps(s, a.job, a.wake);
    } else {
      hide DestroyStep, WaitStep;
      OthersKeepCounters(s, a);
      OthersLeaveCount(s, a);
    }
  }

  lemma OthersLeaveCount(s: State, a: Action)
    requires Enabled(s, a) && !a.Work? && !a.Enqueue?
    ensures Step(s, a).count == s.count
  {
  }

  lemma EnqueueNeverWraps(s: State, j: JobId, wake: Option<nat>)
    requires Startup(s) && Locks(s) && CountMatches(s) && Order(s) && Accounts(s) && Teardown(s)
    requires Enabled(s, Enqueue(j, wake))
    ensures var t := EnqueueStep(s, j, wake);
            && t.alive == s.alive && t.working == s.working
            && t.count == s.count + CountGain(s, Enqueue(j, wake))
  {
    hide Startup, Locks, CountMatches, Order, Accounts, Teardown;
    QueueFits(s);
    if s.enqueuers[j] == EnqAdd {
      EnqueuerView(s, j);
    }
  }

  lemma WorkersNeverWrap(s: State, i: nat, wake: Option<nat>)
    requires Counters(s)
    requires i < |s.workers| && WorkerEnabled(s, i, wake)
    ensures var t, a := WorkerStep(s, i, wake), Work(i, wake);
            && t.alive == s.alive + AliveGain(s, a)
            && t.working == s.working + WorkingGain(s, a)
  {
    hide WorkerStep, Sum;
    var v := NextLine(s, s.workers[i]);
    AliveSteps(s, i, wake);
    WorkingSteps(s, i, wake);
    SumMember(s.workers, i, AliveBit);
    SumMember(s.workers, i, WorkingBit);
    TotalsAfter(s, i, wake);
    assert AliveBit(s.workers[i]) < AliveBit(v) <==> s.workers[i] == Spawned;
    assert AliveBit(s.workers[i]) > AliveBit(v) <==> s.workers[i] == MarkDead;
    assert WorkingBit(s.workers[i]) < WorkingBit(v) <==> s.workers[i] == MarkWorking;
    assert WorkingBit(s.workers[i]) > WorkingBit(v) <==> s.workers[i] == UnmarkWorking;
  }

  /** The tallies after a worker's step still leave room in 8 bits. */
  lemma TotalsAfter(s: State, i: nat, wake: Option<nat>)
    requires Counters(s)
    requires i < |s.workers| && WorkerEnabled(s, i, wake)
    ensures var w, v := s.workers[i], NextLine(s, s.workers[i]);
            && s.alive + AliveBit(v) - AliveBit(w) < RANGE8
            && s.working + WorkingBit(v) - WorkingBit(w) < RANGE8
  {
    hide WorkerStep, NextLine, Sum;
    SumStep(s, i, wake, AliveBit);
    SumStep(s, i, wake, WorkingBit);
    OneWorkerMoves(s, i, wake);
    AliveBounds(WorkerStep(s, i, wake).workers);
  }

  lemma CountNeverWraps(s: State, i: nat, wake: Option<nat>)
    requires Counters(s) && Teardown(s) && Locks(s) && CountMatches(s) && Views(s)
    requires i < |s.workers| && WorkerEnabled(s, i, wake)
    ensures WorkerStep(s, i, wake).count == s.count + CountGain(s, Work(i, wake))
  {
    hide WorkerStep, Counters, Teardown, Locks, CountMatches;
    if Dequeues(s.workers[i]) {
      DequeuerView(s, i);
      if s.workers[i].SubCount? {
        SubCountStep(s, i, wake);
      } else {
        UnlinkStep(s, i, wake);
      }
    } else {
      ListFrame(s, i, wake);
    }
  }

  // ----- quiescence

  /** Every job whose enqueue has incremented job_count has finished running. */
  ghost predicate AllCountedFinished(s: State) {
    forall j :: j in s.log.counted ==> j in s.log.finished
  }

  /** With job_count 0, the counted jobs are exactly the jobs workers have unlinked. */
  lemma ZeroCountMeansTaken(s: State)
    requires Inv(s) && s.count == 0
    ensures s.log.counted == s.log.taken && s.log.drained == [] && Overcounted(s) == 0
  {
    hide Counters, Startup, Locks, Views, Accounts, Teardown;
    if |Uncounted(s)| == 1 {
      var j := s.queueMutex.value.job;
      assert s.enqueuers[j] == EnqAdd;
      EnqueuerView(s, j);
      assert s.log.linked == s.log.taken + s.queue == s.log.counted + [j];
      assert s.log.taken == s.log.linked[..|s.log.linked| - 1];
    } else {
      assert s.queue == [] && s.log.drained == [] && Uncounted(s) == [];
      assert s.log.linked == s.log.taken;
      assert s.log.linked == s.log.counted;
    }
  }

  /** Idle workers hold no job. */
  lemma IdleHandsAreEmpty(s: State)
    requires Counters(s) && s.working == 0
    ensures EmptyHanded(s.workers)
  {
    SumZero(s.workers, WorkingBit);
    forall i | 0 <= i < |s.workers| ensures HeldJob(s.workers[i]) == [] {
      assert WorkingBit(s.workers[i]) == 0;
    }
  }

  ghost predicate EmptyHanded(ws: seq<Worker>) {
    forall i :: 0 <= i < |ws| ==> HeldJob(ws[i]) == []
  }

  /** A job in hand is taken and not finished. */
  lemma HeldIsUnfinished(s: State, i: nat, j: JobId)
    requires Inv(s) && i < |s.workers| && j in HeldJob(s.workers[i])
    ensures j in s.log.taken && j !in s.log.finished
  {
    hide Inv;
    CollectMember(s.workers, i, Held);
    assert j in Held(s.workers[i]);
    JobInOnePlace(s, j);
    TakenSplit(s, j);
    assert multiset(s.log.taken)[j] > 0 && multiset(s.log.finished)[j] == 0;
  }

  /** With nothing in hand, every unlinked job has finished. */
  lemma EmptyHandsFinish(s: State, j: JobId)
    requires Accounts(s) && EmptyHanded(s.workers) && j in s.log.taken
    ensures j in s.log.finished
  {
    CollectEmpty(s.workers, Held);
    assert j in multiset(s.log.taken);
  }

  /** With job_count 0, all counted jobs are finished exactly when no worker has one in hand. */
  lemma ZeroCountExactly(s: State)
    requires Inv(s) && s.count == 0
    ensures AllCountedFinished(s) <==> EmptyHanded(s.workers)
  {
    ZeroCountMeansTaken(s);
    hide Counters, Startup, Locks, CountMatches, Views, Order, Accounts, Teardown;
    if EmptyHanded(s.workers) {
      forall j | j in s.log.counted {
        EmptyHandsFinish(s, j);
      }
    } else {
      var i :| 0 <= i < |s.workers| && HeldJob(s.workers[i]) != [];
      var j := HeldJob(s.workers[i])[0];
      HeldIsUnfinished(s, i, j);
    }
  }

  /** In a single state, both counters at 0 mean that every counted job has finished. */
  lemma Quiescence(s: State)
    requires Reachable(s) && s.working == 0 && s.count == 0
    ensures AllCountedFinished(s)
  {
    ReachableInv(s);
    IdleHandsAreEmpty(s);
    ZeroCountExactly(s);
  }

  /** Enqueues only ever extend the log of counted jobs, one job for each rise of job_count. */
  lemma CountedGrowsWithCount(s: State, a: Action)
    requires Enabled(s, a)
    ensures s.log.counted <= Step(s, a).log.counted
    ensures CountGain(s, a) == 1 ==> |Step(s, a).log.counted| == |s.log.counted| + 1
  {
    if a.Work? {
      hide WorkerStep;
      LogFrame(s, a.index, a.wake);
    }
  }

  lemma {:induction false} CountedOnlyGrows(s: State, run: seq<Action>)
    requires Inv(s) && Feasible(s, run)
    ensures s.log.counted <= After(s, run).log.counted
    ensures s.count == 0 && After(s, run).log.counted == s.log.counted ==> After(s, run).count == 0
    decreases |run|
  {
    if run != [] {
      var t := Step(s, run[0]);
      StepInv(s, run[0]);
      CountedGrowsWithCount(s, run[0]);
      StepNeverWraps(s, run[0]);
      CountedOnlyGrows(t, run[1..]);
    }
  }

  /** Reading job_count as 0 and later workers_working as 0 is sound if nothing is counted between. */
  lemma CountFirstIsSound(s: State, run: seq<Action>)
    requires Reachable(s) && s.count == 0 && Feasible(s, run)
    requires After(s, run).log.counted == s.log.counted && After(s, run).working == 0
    ensures AllCountedFinished(After(s, run))
  {
    ReachableInv(s);
    RunInv(s, run);
    CountedOnlyGrows(s, run);
    IdleHandsAreEmpty(After(s, run));
    ZeroCountExactly(After(s, run));
  }

  // ----- memory

  /** What the C code dereferences. Job objects come and go; the rest lives until thpool_destroy. */
  datatype Object = Null | PoolObject | QueueObject | WorkerObject(index: nat) | JobObject(job: JobId)

  function JobAt(work: Option<JobId>): Object {
    match work
    case None => Null
    case Some(j) => JobObject(j)
  }

  /** NULL, and every object already passed to free. */
  predicate Dead(s: State, o: Object) {
    match o
    case Null => true
    case PoolObject => PoolPart in s.log.dismantled
    case QueueObject => QueuePart in s.log.dismantled
    case WorkerObject(i) => WorkerPart(i) in s.log.dismantled
    case JobObject(j) => j in s.log.released || j in s.log.drained
  }

  /** The job a worker's next step dereferences: `work->next_job`, the call, or the free. */
  function JobTouched(s: State, w: Worker): set<Object> {
    match w
    case ReadNext(work) => if s.count > 1 then {JobAt(work)} else {}
    case StartJob(j) => {JobObject(j)}
    case FreeJob(j) => {JobObject(j)}
    case _ => {}
  }

  /** The objects a step reads, writes or frees. */
  function Touches(s: State, a: Action): set<Object> {
    match a
    case Work(i, _) =>
      if i < |s.workers| then {PoolObject, QueueObject, WorkerObject(i)} + JobTouched(s, s.workers[i]) else {}
    case Spurious(i) => {PoolObject, WorkerObject(i)}
    case Enqueue(j, _) =>
      {PoolObject, QueueObject} +
      (if j in s.enqueuers && s.enqueuers[j] == EnqLink then
         // line 343 writes through job_tail unless the count is 0
         {JobObject(j)} + (if s.count == 0 then {} else {JobAt(Back(s.queue))})
       else {})
    case Wait => {PoolObject, QueueObject}
    case Destroy =>
      (match s.destroyer
       case Drain => if s.queue == [] then {} else {JobObject(s.queue[0])}
       case FreeWorkers(k) => {PoolObject} + (if k < s.size then {WorkerObject(k)} else {})
       case _ => {PoolObject, QueueObject})
    case _ => {PoolObject}
  }

  /** The pointer `job_tail`. */
  function Back<T>(queue: seq<T>): Option<T> {
    if queue == [] then None else Some(queue[|queue| - 1])
  }

  /** A listed job has not been freed, nor has one in a worker's hands. */
  lemma PlacedIsUnfreed(s: State, j: JobId)
    requires Inv(s)
    requires multiset(s.queue)[j] + Collect(s.workers, Held)[j] + Collect(s.workers, Unreleased)[j] > 0
    ensures j !in s.log.released && j !in s.log.drained
  {
    hide *;
    JobInOnePlace(s, j);
    assert multiset(s.log.released)[j] == 0 && multiset(s.log.drained)[j] == 0;
  }

  /** A job that is allocated and not linked has not been freed. */
  lemma UnlinkedIsUnfreed(s: State, j: JobId)
    requires Inv(s) && j !in s.log.linked
    ensures j !in s.log.released && j !in s.log.drained
  {
    hide *;
    JobInOnePlace(s, j);
    assert multiset(s.log.linked)[j] == 0;
    assert multiset(s.log.released)[j] == 0 && multiset(s.log.drained)[j] == 0;
  }

  lemma ListedIsUnfreed(s: State, k: nat)
    requires Inv(s) && k < |s.queue|
    ensures s.queue[k] !in s.log.released && s.queue[k] !in s.log.drained
  {
    hide *;
    assert s.queue[k] in multiset(s.queue);
    PlacedIsUnfreed(s, s.queue[k]);
  }

  lemma InHandIsUnfreed(s: State, i: nat, j: JobId)
    requires Inv(s) && i < |s.workers|
    requires j in HeldJob(s.workers[i]) || j in ReleasedBy(s.workers[i])
    ensures j !in s.log.released && j !in s.log.drained
  {
    hide Inv, Collect, HeldJob, ReleasedBy;
    CollectMember(s.workers, i, Held);
    CollectMember(s.workers, i, Unreleased);
    assert j in Held(s.workers[i]) || j in Unreleased(s.workers[i]);
    PlacedIsUnfreed(s, j);
  }

  /** A worker at line 384 has the head of a nonempty list. */
  lemma ReaderView(s: State, i: nat)
    requires Inv(s) && i < |s.workers| && s.workers[i].ReadNext? && s.count > 1
    ensures s.queue != [] && s.workers[i].work == Some(s.queue[0])
  {
    assert View(s, s.workers[i]);
    DequeuerView(s, i);
  }

  lemma WorkerTouchesLive(s: State, i: nat)
    requires Inv(s) && i < |s.workers|
    ensures forall o :: o in JobTouched(s, s.workers[i]) ==> !Dead(s, o)
  {
    hide Inv, Collect;
    var w := s.workers[i];
    if w.ReadNext? && s.count > 1 {
      ReaderView(s, i);
      ListedIsUnfreed(s, 0);
    } else if w.StartJob? {
      InHandIsUnfreed(s, i, w.job);
    } else if w.FreeJob? {
      InHandIsUnfreed(s, i, w.job);
    }
  }

  /** Between lines 336 and 344 the new job is in no list, and a nonzero count means a nonempty one. */
  lemma LinkerView(s: State, j: JobId)
    requires Inv(s) && j in s.enqueuers && s.enqueuers[j] == EnqLink
    ensures j !in s.log.linked
    ensures s.count == |s.queue|
  {
    EnqueuerView(s, j);
  }

  /** Lines 336-344 write through the new job and the tail, both live. */
  lemma EnqueuerTouchesLive(s: State, j: JobId)
    requires Inv(s) && j in s.enqueuers && s.enqueuers[j] == EnqLink
    ensures !Dead(s, JobObject(j))
    ensures s.count != 0 ==> !Dead(s, JobAt(Back(s.queue)))
  {
    hide Inv, Collect;
    LinkerView(s, j);
    UnlinkedIsUnfreed(s, j);
    if s.queue != [] {
      ListedIsUnfreed(s, |s.queue| - 1);
    }
  }

  /** While a worker can step, or a client is inside a call, the destroyer has freed nothing. */
  lemma PoolIsLive(s: State, a: Action)
    requires Inv(s) && Enabled(s, a) && a != Destroy
    ensures s.log.dismantled == []
  {
    hide Locks, CountMatches, Views, Order, Accounts;
    match a
    case Work(i, _) => SumMember(s.workers, i, AliveBit);
    case Spurious(i) => SumMember(s.workers, i, AliveBit);
    case _ =>
  }

  lemma ThingsGone(s: State)
    requires Inv(s)
    ensures s.log.dismantled == Gone(s)
  {
  }

  lemma DestroyerTouchesLive(s: State)
    requires Inv(s) && Enabled(s, Destroy)
    ensures forall o :: o in Touches(s, Destroy) ==> !Dead(s, o)
  {
    hide Inv, Collect;
    ThingsGone(s);
    if s.queue != [] {
      ListedIsUnfreed(s, 0);
    }
  }

  /** No step of any thread touches NULL or a freed object. */
  lemma NoUseAfterFree(s: State, a: Action)
    requires Reachable(s) && Enabled(s, a)
    ensures forall o :: o in Touches(s, a) ==> !Dead(s, o)
  {
    hide Inv, Collect, JobTouched, Reachable;
    ReachableInv(s);
    if a == Destroy {
      DestroyerTouchesLive(s);
    } else {
      PoolIsLive(s, a);
      match a
      case Work(i, _) => WorkerTouchesLive(s, i);
      case Enqueue(j, _) =>
        if s.enqueuers[j] == EnqLink {
          EnqueuerTouchesLive(s, j);
        }
      case _ =>
    }
  }

  /** Job j has not been passed to free. */
  predicate Unfreed(s: State, j: JobId) { j !in s.log.released && j !in s.log.drained }

  /** The same, line by line: every job, worker, queue or pool object a step of any thread uses has been
      allocated and not freed. */
  lemma NothingFreedIsUsed(s: State, a: Action)
    requires Reachable(s) && Enabled(s, a)
    ensures a.Work? ==>
              var w := s.workers[a.index];
              && (w.ReadNext? && s.count > 1 ==> w.work.Some? && Unfreed(s, w.work.value))
              && (w.StartJob? || w.Running? || w.FreeJob? ==> Unfreed(s, w.job))
    ensures a.Enqueue? && s.enqueuers[a.job] == EnqLink ==>
              Unfreed(s, a.job) && (s.count != 0 ==> s.queue != [] && Unfreed(s, s.queue[|s.queue| - 1]))
    ensures a == Destroy && s.destroyer == Drain && s.queue != [] ==> Unfreed(s, s.queue[0])
    ensures a != Destroy ==> s.log.dismantled == []
    ensures a == Destroy && s.destroyer.FreeWorkers? && s.destroyer.next < s.size ==>
              WorkerPart(s.destroyer.next) !in s.log.dismantled
    ensures a == Destroy ==>
              QueuePart !in s.log.dismantled && ArrayPart !in s.log.dismantled && PoolPart !in s.log.dismantled
  {
    hide Inv, Collect, Reachable;
    ReachableInv(s);
    ThingsGone(s);
    if a != Destroy {
      PoolIsLive(s, a);
    }
    match a
    case Work(i, _) =>
      var w := s.workers[i];
      WorkerTouchesLive(s, i);
      if w.ReadNext? && s.count > 1 {
        ReaderView(s, i);
        ListedIsUnfreed(s, 0);
      } else if w.Running? {
        InHandIsUnfreed(s, i, w.job);
      } else if w.StartJob? || w.FreeJob? {
        InHandIsUnfreed(s, i, w.job);
      }
    case Enqueue(j, _) =>
      if s.enqueuers[j] == EnqLink {
        LinkerView(s, j);
        EnqueuerTouchesLive(s, j);
      }
    case Destroy =>
      if s.queue != [] {
        ListedIsUnfreed(s, 0);
      }
    case _ =>
  }

  lemma AllExited(s: State)
    requires Counters(s) && Startup(s) && s.ready && s.alive == 0
    ensures forall i :: 0 <= i < |s.workers| ==> s.workers[i] == Exited
  {
    SumZero(s.workers, AliveBit);
    forall i | 0 <= i < |s.workers| ensures s.workers[i] == Exited {
      assert AliveBit(s.workers[i]) == 0;
    }
  }

  /** Once the destroyer has read workers_alive as 0, no worker takes another step. */
  lemma WorkersAreGone(s: State, a: Action)
    requires Reachable(s) && s.ready && s.alive == 0 && Enabled(s, a)
    ensures !a.Work? && !a.Spurious?
  {
    ReachableInv(s);
    AllExited(s);
  }

  // ----- the end

  /** The call for job j has still to link it. */
  predicate Unlinked(s: State, j: JobId) {
    j in s.enqueuers && s.enqueuers[j] in {EnqLock, EnqLink}
  }

  /** Every job object allocated is linked, or its call has still to link it. */
  ghost predicate Tracked(s: State) {
    forall j :: 0 <= j < s.issued ==> j in s.log.linked || Unlinked(s, j)
  }

  lemma EnqueueKeepsTracked(s: State, j: JobId, wake: Option<nat>)
    requires Tracked(s) && Enabled(s, Enqueue(j, wake))
    ensures Tracked(EnqueueStep(s, j, wake))
  {
    var t := EnqueueStep(s, j, wake);
    forall k: nat | k < t.issued ensures k in t.log.linked || Unlinked(t, k) {
      assert k in s.log.linked || Unlinked(s, k);
    }
  }

  lemma KeepsTracked(s: State, a: Action)
    requires Tracked(s) && Enabled(s, a)
    ensures Tracked(Step(s, a))
  {
    hide WorkerStep, EnqueueStep, DestroyStep, WaitStep;
    match a
    case Work(i, wake) =>
      LogFrame(s, i, wake);
      ClientFrame(s, i, wake);
    case Enqueue(j, wake) => EnqueueKeepsTracked(s, j, wake);
    case CallEnqueue =>
      var t := Step(s, a);
      forall j: nat | j < t.issued ensures j in t.log.linked || Unlinked(t, j) {
        assert j == s.issued || j in s.log.linked || Unlinked(s, j);
      }
    case Wait => WaitFrame(s);
    case Destroy => DestroyFrame(s);
    case _ =>
  }

  lemma WaitFrame(s: State)
    ensures var t := WaitStep(s);
            t.log == s.log && t.enqueuers == s.enqueuers && t.issued == s.issued
  {
  }

  lemma {:induction false} RunKeepsTracked(s: State, run: seq<Action>)
    requires Tracked(s) && Feasible(s, run)
    ensures Tracked(After(s, run))
    decreases |run|
  {
    hide Enabled, Step, Tracked;
    if run != [] {
      KeepsTracked(s, run[0]);
      RunKeepsTracked(Step(s, run[0]), run[1..]);
    }
  }

  /** No allocated job is lost on its way into the list, in any reachable state. */
  lemma NoJobIsLost(s: State, j: JobId)
    requires Reachable(s)
    ensures j < s.issued <==> j in s.log.linked || Unlinked(s, j)
    ensures !(j in s.log.linked && Unlinked(s, j))
  {
    ReachableInv(s);
    var start, run :| Init(start) && Feasible(start, run) && After(start, run) == s;
    hide Feasible, After;
    RunKeepsTracked(start, run);
  }

  /** With all workers gone, what was taken was started, finished and freed. */
  lemma NothingInHand(s: State)
    requires Counters(s) && Startup(s) && Accounts(s) && s.ready && s.alive == 0
    ensures multiset(s.log.taken) == multiset(s.log.started) == multiset(s.log.finished) == multiset(s.log.released)
  {
    AllExited(s);
    CollectEmpty(s.workers, Held);
    CollectEmpty(s.workers, Executing);
    CollectEmpty(s.workers, Unreleased);
  }

  /** When thpool_destroy is done, every job object ever allocated was linked, and was run to its end once or
      freed unrun by the drain, which freed exactly what was left, in order. After that each worker object, the
      queue, the array of workers and the pool were freed, in order and once. Nothing is left over or leaked. */
  lemma ShutdownAccounting(s: State)
    requires Reachable(s) && s.destroyer == Destroyed
    ensures forall j: nat :: j < s.issued <==> j in s.log.linked
    ensures s.log.linked == s.log.taken + s.log.drained && s.log.counted == s.log.linked
    ensures Distinct(s.log.linked)
    ensures multiset(s.log.taken) == multiset(s.log.started) == multiset(s.log.finished) == multiset(s.log.released)
    ensures |s.log.dismantled| == s.size + 3
    ensures forall i :: 0 <= i < s.size ==> s.log.dismantled[i] == WorkerPart(i)
    ensures s.log.dismantled[s.size..] == [QueuePart, ArrayPart, PoolPart]
  {
    ReachableInv(s);
    NothingInHand(s);
    ThingsGone(s);
    forall j: nat ensures j < s.issued <==> j in s.log.linked {
      NoJobIsLost(s, j);
    }
  }
}
