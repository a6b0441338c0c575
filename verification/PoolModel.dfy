/** The thread pool as a labelled transition system.

    Every atomic load, atomic read-modify-write, mutex operation and condition
    variable operation of `thread_pool.c` is one step. Plain memory accesses made
    under a mutex travel with the atomic access next to them. A state records the
    program counter of every worker, of every call of `thpool_enqueue_job` in
    flight, of one client of `thpool_wait` and of the caller of `thpool_destroy`. */
module PoolModel {
  import opened Wrappers
  import opened JobQueue

  /** A job is named by the number of its allocation. */
  type JobId = nat

  // The widths of `atomic_uint_fast8_t` (at least 8 bits) and `atomic_uint_fast64_t`.
  const RANGE8: nat := 0x100
  const RANGE64: nat := 0x1_0000_0000_0000_0000

  function Inc8(x: nat): nat { if x == RANGE8 - 1 then 0 else x + 1 }
  function Dec8(x: nat): nat { if x == 0 then RANGE8 - 1 else x - 1 }
  function Inc64(x: nat): nat { if x == RANGE64 - 1 then 0 else x + 1 }
  function Dec64(x: nat): nat { if x == 0 then RANGE64 - 1 else x - 1 }

  /** Where a worker is in `thread_pool` (401-477) or `thpool_dequeue_job` (365-393). */
  datatype Worker =
    | Spawned                          // 405  fetch_add workers_alive
    | LoopHead                         // 408  load thpool_active
    | LockRun                          // 410  lock run_mutex
    | TestCount                        // 413  load job_count
    | TestActive                       // 413  load thpool_active
    | EnterWait                        // 417  cnd_wait: release and block
    | Waiting                          // 417  blocked on run_cond
    | Woken                            // 417  unblocked, needs run_mutex again
    | UnlockRun                        // 422  unlock run_mutex
    | SecondCheck                      // 426  load thpool_active
    | LastCount                        // 430  load job_count
    | LastSignal                       // 432  signal wait_cond
    | MarkWorking                      // 438  fetch_add workers_working
    | LockQueue                        // 367  lock queue_access_mutex
    | ReadHead                         // 370  read job_head, 373 load job_count
    | ReadNext(work: Option<JobId>)    // 382  load job_count
    | SubCount(work: Option<JobId>)    // 377, 385  fetch_sub job_count
    | UnlockQueue(work: Option<JobId>) // 388  unlock queue_access_mutex
    | SignalRun(work: Option<JobId>)   // 391  signal run_cond, 449 test for NULL
    | StartJob(job: JobId)             // 451  call the job
    | Running(job: JobId)              // 451  inside the job
    | FreeJob(job: JobId)              // 452  free the job
    | UnmarkWorking                    // 456  fetch_sub workers_working
    | IdleCount                        // 465  load job_count
    | IdleSignal                       // 467  signal wait_cond
    | MarkDead                         // 475  fetch_sub workers_alive
    | Exited                           // 476

  /** Where a call of `thpool_enqueue_job` is once its job is allocated (322-331). */
  datatype Enqueuer =
    | EnqLock    // 333  lock queue_access_mutex
    | EnqLink    // 336  load job_count, 338-344 link the job
    | EnqAdd     // 346  fetch_add job_count
    | EnqUnlock  // 354  unlock queue_access_mutex
    | EnqSignal  // 355  signal run_cond

  /** Where the client of `thpool_wait` is. It alone ever locks wait_mutex. */
  datatype Waiter =
    | WaitIdle      // not in thpool_wait
    | WaitWorking   // 231  load workers_working
    | WaitCount     // 231  load job_count
    | WaitEnter     // 238  cnd_wait: release and block
    | WaitBlocked   // 238  blocked on wait_cond
    | WaitWoken     // 238  unblocked, needs wait_mutex again
    | WaitUnlock    // 242  unlock wait_mutex and return

  /** Where the caller of `thpool_destroy` is. */
  datatype Destroyer =
    | NotCalled
    | LoadAlive                 // 261  load workers_alive
    | Broadcast                 // 266  broadcast run_cond
    | ReadJobs                  // 271  read job_head
    | Drain                     // 273-279  one turn frees one job
    | FreeWorkers(next: nat)    // 282-287  one turn frees one worker object
    | FreePool                  // 291-302  free the queue, the array and the pool
    | Destroyed

  datatype Thread = WorkerThread(index: nat) | EnqueueCall(job: JobId)

  /** History of a run. No step reads it, except that `malloc` counts live jobs. */
  datatype Log = Log(
    linked: seq<JobId>,    // linked into the list, in order
    counted: seq<JobId>,   // included in job_count, in order
    taken: seq<JobId>,     // unlinked by workers, in order
    started: seq<JobId>,   // job function called
    finished: seq<JobId>,  // job function returned
    released: seq<JobId>,  // freed by the worker that ran it
    drained: seq<JobId>,   // freed unexecuted by thpool_destroy, in order
    dismantled: seq<Part>) // freed by thpool_destroy after that, in order

  /** What the pool is made of. */
  datatype Part = WorkerPart(index: nat) | QueuePart | ArrayPart | PoolPart

  datatype State = State(
    size: nat,               // thread_count
    ready: bool,             // thpool_init has returned the pool
    active: nat,             // thpool_active
    alive: nat,              // workers_alive
    working: nat,            // workers_working
    count: nat,              // job_count
    queue: seq<JobId>,       // the list from job_head
    queueMutex: Option<Thread>,
    runMutex: Option<nat>,   // index of the worker holding run_mutex
    workers: seq<Worker>,
    enqueuers: map<JobId, Enqueuer>,
    waiter: Waiter,
    destroyer: Destroyer,
    issued: nat,             // job objects allocated so far
    log: Log)

  datatype Action =
    | InitReturns                              // the load at 209 that ends the loop
    | Work(index: nat, wake: Option<nat>)      // a worker's own next step
    | Spurious(index: nat)                     // cnd_wait returns unasked
    | CallEnqueue                              // allocate a job and start enqueuing it
    | Enqueue(job: JobId, wake: Option<nat>)   // next step of that call
    | CallWait
    | Wait
    | WaitSpurious
    | CallDestroy                              // 257  fetch_sub thpool_active
    | Destroy

  /** The pool as `thpool_init` leaves it when its last `thrd_create` succeeds. */
  ghost predicate Init(s: State) {
    && 1 <= s.size < RANGE8
    && s == State(s.size, false, 1, 0, 0, 0, [], None, None, seq(s.size, i => Spawned), map[],
                  WaitIdle, NotCalled, 0, Log([], [], [], [], [], [], [], []))
  }

  /** `cnd_signal(run_cond)` unblocks one blocked worker, and none only if none is blocked. */
  ghost predicate SignalChoice(workers: seq<Worker>, wake: Option<nat>) {
    match wake
    case Some(k) => k < |workers| && workers[k] == Waiting
    case None => forall k :: 0 <= k < |workers| ==> workers[k] != Waiting
  }

  function Wake(workers: seq<Worker>, wake: Option<nat>): (r: seq<Worker>)
    ensures |r| == |workers|
  {
    if wake.Some? && wake.value < |workers| then workers[wake.value := Woken] else workers
  }

  function WakeAll(workers: seq<Worker>): (r: seq<Worker>)
    ensures |r| == |workers|
  {
    seq(|workers|, i requires 0 <= i < |workers| => if workers[i] == Waiting then Woken else workers[i])
  }

  function SignalWaiter(w: Waiter): Waiter {
    if w == WaitBlocked then WaitWoken else w
  }

  /** Calls on the pool may begin until the destroyer starts freeing it. */
  predicate Accepting(s: State) {
    s.ready && s.destroyer in {NotCalled, LoadAlive, Broadcast, ReadJobs}
  }

  ghost predicate WorkerEnabled(s: State, i: nat, wake: Option<nat>)
    requires i < |s.workers|
  {
    match s.workers[i]
    case LockRun => s.runMutex == None
    case Woken => s.runMutex == None
    case LockQueue => s.queueMutex == None
    case Waiting => false
    case Exited => false
    case SignalRun(_) => SignalChoice(s.workers, wake)
    case _ => true
  }

  ghost predicate Enabled(s: State, a: Action) {
    match a
    case InitReturns => !s.ready && s.alive == s.size
    case Work(i, wake) => i < |s.workers| && WorkerEnabled(s, i, wake)
    case Spurious(i) => i < |s.workers| && s.workers[i] == Waiting
    // Live job objects have distinct non-NULL addresses, so fewer than RANGE64 are live.
    case CallEnqueue => Accepting(s) && s.issued < |s.log.released| + |s.log.drained| + RANGE64 - 1
    case Enqueue(j, wake) =>
      && j in s.enqueuers
      && (s.enqueuers[j] == EnqLock ==> s.queueMutex == None)
      && (s.enqueuers[j] == EnqSignal ==> SignalChoice(s.workers, wake))
    case CallWait => Accepting(s) && s.waiter == WaitIdle
    case Wait => s.waiter != WaitIdle && s.waiter != WaitBlocked
    case WaitSpurious => s.waiter == WaitBlocked
    case CallDestroy => s.ready && s.destroyer == NotCalled
    case Destroy =>
      && s.destroyer != NotCalled
      && s.destroyer != Destroyed
      // The caller's side of the contract: no other call is still using the pool.
      && (s.destroyer == ReadJobs ==> s.enqueuers == map[] && s.waiter == WaitIdle)
  }

  /** Where worker w goes from here. */
  function NextLine(s: State, w: Worker): Worker {
    match w
    case Spawned => LoopHead
    case LoopHead => if s.active == 1 then LockRun else MarkDead
    case LockRun => TestCount
    case TestCount => if s.count == 0 then TestActive else UnlockRun
    case TestActive => if s.active == 1 then EnterWait else UnlockRun
    case EnterWait => Waiting
    case Waiting => Waiting
    case Woken => TestCount
    case UnlockRun => SecondCheck
    case SecondCheck => if s.active == 0 then LastCount else MarkWorking
    case LastCount => if s.count == 0 then LastSignal else MarkDead
    case LastSignal => MarkDead
    case MarkWorking => LockQueue
    case LockQueue => ReadHead
    case ReadHead => if s.count == 1 then SubCount(Front(s.queue)) else ReadNext(Front(s.queue))
    case ReadNext(work) => if s.count > 1 then SubCount(work) else UnlockQueue(work)
    case SubCount(work) => UnlockQueue(work)
    case UnlockQueue(work) => SignalRun(work)
    case SignalRun(work) => if work.Some? then StartJob(work.value) else UnmarkWorking
    case StartJob(j) => Running(j)
    case Running(j) => FreeJob(j)
    case FreeJob(_) => UnmarkWorking
    case UnmarkWorking => IdleCount
    case IdleCount => if s.count == 0 then IdleSignal else LoopHead
    case IdleSignal => LoopHead
    case MarkDead => Exited
    case Exited => Exited
  }

  /** The other workers after worker i's step: only line 391 may wake one of them. */
  function Signalled(s: State, i: nat, wake: Option<nat>): (r: seq<Worker>)
    requires i < |s.workers|
    ensures |r| == |s.workers|
  {
    if s.workers[i].SignalRun? then Wake(s.workers, wake) else s.workers
  }

  /** One step of worker i: it moves on, and the shared state changes as its line says. */
  function WorkerStep(s: State, i: nat, wake: Option<nat>): State
    requires i < |s.workers|
  {
    var w := s.workers[i];
    var t := s.(workers := Signalled(s, i, wake)[i := NextLine(s, w)]);
    match w
    case Spawned => t.(alive := Inc8(s.alive))
    case LockRun => t.(runMutex := Some(i))
    case EnterWait => t.(runMutex := None)
    case Woken => t.(runMutex := Some(i))
    case UnlockRun => t.(runMutex := None)
    case LastSignal => t.(waiter := SignalWaiter(s.waiter))
    case MarkWorking => t.(working := Inc8(s.working))
    case LockQueue => t.(queueMutex := Some(WorkerThread(i)))
    case ReadHead => if s.count == 1 then UnlinkBy(t, Front(s.queue)) else t
    case ReadNext(work) => if s.count > 1 then UnlinkBy(t, work) else t
    case SubCount(_) => t.(count := Dec64(s.count))
    case UnlockQueue(_) => t.(queueMutex := None)
    case StartJob(j) => t.(log := s.log.(started := s.log.started + [j]))
    case Running(j) => t.(log := s.log.(finished := s.log.finished + [j]))
    case FreeJob(j) => t.(log := s.log.(released := s.log.released + [j]))
    case UnmarkWorking => t.(working := Dec8(s.working))
    case IdleSignal => t.(waiter := SignalWaiter(s.waiter))
    case MarkDead => t.(alive := Dec8(s.alive))
    case _ => t
  }

  /** Lines 375-376 and 384: the list loses its head, which `work` points to. */
  function UnlinkBy(s: State, work: Option<JobId>): State {
    s.(queue := Unlink(s.queue, s.count), log := s.log.(taken := s.log.taken + Listed(work)))
  }

  /** One step of the call enqueuing job j. */
  function EnqueueStep(s: State, j: JobId, wake: Option<nat>): State
    requires j in s.enqueuers
  {
    match s.enqueuers[j]
    case EnqLock =>
      s.(queueMutex := Some(EnqueueCall(j)), enqueuers := s.enqueuers[j := EnqLink])
    case EnqLink =>
      s.(queue := Link(s.queue, s.count, j), enqueuers := s.enqueuers[j := EnqAdd],
         log := s.log.(linked := s.log.linked + [j]))
    case EnqAdd =>
      s.(count := Inc64(s.count), enqueuers := s.enqueuers[j := EnqUnlock],
         log := s.log.(counted := s.log.counted + [j]))
    case EnqUnlock =>
      s.(queueMutex := None, enqueuers := s.enqueuers[j := EnqSignal])
    case EnqSignal =>
      s.(workers := Wake(s.workers, wake), enqueuers := s.enqueuers - {j})
  }

  function WaitStep(s: State): State {
    s.(waiter :=
      match s.waiter
      case WaitIdle => WaitIdle
      case WaitWorking => if s.working != 0 then WaitEnter else WaitCount
      case WaitCount => if s.count != 0 then WaitEnter else WaitUnlock
      case WaitEnter => WaitBlocked
      case WaitBlocked => WaitBlocked
      case WaitWoken => WaitWorking
      case WaitUnlock => WaitIdle)
  }

  function Dismantle(s: State, parts: seq<Part>): State {
    s.(log := s.log.(dismantled := s.log.dismantled + parts))
  }

  function DestroyStep(s: State): State {
    match s.destroyer
    case NotCalled => s
    case LoadAlive => s.(destroyer := if s.alive != 0 then Broadcast else ReadJobs)
    case Broadcast => s.(destroyer := LoadAlive, workers := WakeAll(s.workers))
    case ReadJobs => s.(destroyer := Drain)
    case Drain =>
      if s.queue == [] then s.(destroyer := FreeWorkers(0))
      else s.(queue := s.queue[1..], log := s.log.(drained := s.log.drained + [s.queue[0]]))
    case FreeWorkers(k) =>
      if k < s.size then Dismantle(s, [WorkerPart(k)]).(destroyer := FreeWorkers(k + 1))
      else s.(destroyer := FreePool)
    case FreePool => Dismantle(s, [QueuePart, ArrayPart, PoolPart]).(destroyer := Destroyed)
    case Destroyed => s
  }

  function Step(s: State, a: Action): State
    requires Enabled(s, a)
  {
    match a
    case InitReturns => s.(ready := true)
    case Work(i, wake) => WorkerStep(s, i, wake)
    case Spurious(i) => s.(workers := s.workers[i := Woken])
    case CallEnqueue => s.(enqueuers := s.enqueuers[s.issued := EnqLock], issued := s.issued + 1)
    case Enqueue(j, wake) => EnqueueStep(s, j, wake)
    case CallWait => s.(waiter := WaitWorking)
    case Wait => WaitStep(s)
    case WaitSpurious => s.(waiter := WaitWoken)
    case CallDestroy => s.(active := Dec8(s.active), destroyer := LoadAlive)
    case Destroy => DestroyStep(s)
  }

  /** Every action of the run is enabled when its turn comes. */
  ghost predicate Feasible(s: State, run: seq<Action>)
    decreases |run|
  {
    run == [] || (Enabled(s, run[0]) && Feasible(Step(s, run[0]), run[1..]))
  }

  /** The state a run ends in. */
  ghost function After(s: State, run: seq<Action>): State
    requires Feasible(s, run)
    decreases |run|
  {
    if run == [] then s else After(Step(s, run[0]), run[1..])
  }

  /** A run one action longer at the front. */
  lemma RunCons(s: State, a: Action, rest: seq<Action>)
    requires Enabled(s, a) && Feasible(Step(s, a), rest)
    ensures Feasible(s, [a] + rest) && After(s, [a] + rest) == After(Step(s, a), rest)
  {
    hide Enabled, Step;
    var run := [a] + rest;
    assert run[0] == a && run[1..] == rest;
  }

  /** A run continued by another. */
  lemma {:induction false} RunAppend(s: State, run: seq<Action>, more: seq<Action>)
    requires Feasible(s, run) && Feasible(After(s, run), more)
    ensures Feasible(s, run + more) && After(s, run + more) == After(After(s, run), more)
    decreases |run|
  {
    hide Enabled, Step;
    if run == [] {
      assert run + more == more;
    } else {
      assert (run + more)[1..] == run[1..] + more;
      RunAppend(Step(s, run[0]), run[1..], more);
    }
  }

  ghost predicate Reachable(s: State) {
    exists start, run :: Init(start) && Feasible(start, run) && After(start, run) == s
  }

  /** A run one action longer at the end. */
  lemma RunSnoc(s: State, run: seq<Action>, a: Action)
    requires Feasible(s, run) && Enabled(After(s, run), a)
    ensures Feasible(s, run + [a]) && After(s, run + [a]) == Step(After(s, run), a)
  {
    hide Enabled, Step;
    assert Feasible(Step(After(s, run), a), []);
    RunCons(After(s, run), a, []);
    assert [a] + [] == [a];
    RunAppend(s, run, [a]);
  }

  /** One more step stays within reach. */
  lemma ReachNext(s: State, a: Action)
    requires Reachable(s) && Enabled(s, a)
    ensures Reachable(Step(s, a))
  {
    hide Enabled, Step, Init;
    var start, run :| Init(start) && Feasible(start, run) && After(start, run) == s;
    RunSnoc(start, run, a);
  }

  /** Where a run from within reach ends is within reach. */
  lemma ReachRun(s: State, run: seq<Action>)
    requires Reachable(s) && Feasible(s, run)
    ensures Reachable(After(s, run))
  {
    hide Enabled, Step, Init;
    var start, before :| Init(start) && Feasible(start, before) && After(start, before) == s;
    RunAppend(start, before, run);
  }
}
