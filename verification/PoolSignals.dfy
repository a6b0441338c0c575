/** What the signals and the broadcast do, and that nothing else moves another thread. */
module PoolSignals {
  import opened Wrappers
  import opened PoolModel
  import opened Tally
  import opened PoolInvariant

  /** 1 for a worker blocked on run_cond. */
  function WaitingBit(w: Worker): nat { if w == Waiting then 1 else 0 }

  /** The steps that execute `cnd_signal(run_cond)`, lines 355 and 391. */
  predicate SignalsRun(s: State, a: Action) {
    || (a.Work? && a.index < |s.workers| && s.workers[a.index].SignalRun?)
    || (a.Enqueue? && a.job in s.enqueuers && s.enqueuers[a.job] == EnqSignal)
  }

  /** Worker k is not the one that takes the step. */
  predicate IsOther(a: Action, k: nat) { !a.Work? || a.index != k }

  /** Worker k is blocked on run_cond before the step, not after it, and no third worker moves. */
  ghost predicate WakesOnly(s: State, a: Action, t: State, k: nat) {
    && k < |s.workers| == |t.workers| && IsOther(a, k)
    && s.workers[k] == Waiting && t.workers[k] == Woken
    && forall m :: 0 <= m < |s.workers| && m != k && IsOther(a, m) ==> t.workers[m] == s.workers[m]
  }

  /** No other worker moves. */
  ghost predicate WakesNobody(s: State, a: Action, t: State) {
    && |t.workers| == |s.workers|
    && forall m :: 0 <= m < |s.workers| && IsOther(a, m) ==> t.workers[m] == s.workers[m]
  }

  /** A signal wakes exactly one blocked worker if there is one, and nobody if there is none. */
  lemma SignalWakesOne(s: State, a: Action)
    requires Enabled(s, a) && SignalsRun(s, a)
    ensures var t := Step(s, a);
            if exists k :: 0 <= k < |s.workers| && s.workers[k] == Waiting
            then exists k :: WakesOnly(s, a, t, k)
            else WakesNobody(s, a, t)
  {
    var t := Step(s, a);
    if k :| 0 <= k < |s.workers| && s.workers[k] == Waiting {
      assert WakesOnly(s, a, t, a.wake.value);
    }
  }

  lemma {:induction false} CountAfterWaking(ws: seq<Worker>, vs: seq<Worker>, k: nat)
    requires |ws| == |vs| && k < |ws| && ws[k] == Waiting && vs[k] != Waiting
    requires forall m :: 0 <= m < |ws| && m != k ==> WaitingBit(vs[m]) == WaitingBit(ws[m])
    ensures Sum(vs, WaitingBit) + 1 == Sum(ws, WaitingBit)
  {
    var us := ws[k := vs[k]];
    SumUpdate(ws, k, vs[k], WaitingBit);
    SumMonotone(us, vs, WaitingBit, WaitingBit);
    SumMonotone(vs, us, WaitingBit, WaitingBit);
  }

  lemma SameWaiting(ws: seq<Worker>, vs: seq<Worker>)
    requires |ws| == |vs|
    requires forall m :: 0 <= m < |ws| ==> WaitingBit(vs[m]) == WaitingBit(ws[m])
    ensures Sum(vs, WaitingBit) == Sum(ws, WaitingBit)
  {
    SumMonotone(ws, vs, WaitingBit, WaitingBit);
    SumMonotone(vs, ws, WaitingBit, WaitingBit);
  }

  lemma SignallerKeepsOwnBit(s: State, a: Action)
    requires Enabled(s, a) && SignalsRun(s, a)
    ensures var t := Step(s, a);
            |t.workers| == |s.workers| &&
            (a.Work? ==> WaitingBit(t.workers[a.index]) == WaitingBit(s.workers[a.index]) == 0)
  {
  }

  /** The number of blocked workers falls by exactly one, or is 0 and stays so. */
  lemma SignalCounts(s: State, a: Action)
    requires Enabled(s, a) && SignalsRun(s, a)
    ensures var before, after := Sum(s.workers, WaitingBit), Sum(Step(s, a).workers, WaitingBit);
            if before > 0 then after == before - 1 else after == 0
  {
    hide Enabled, Step, SignalsRun;
    var t := Step(s, a);
    SignalWakesOne(s, a);
    SignallerKeepsOwnBit(s, a);
    if exists k :: 0 <= k < |s.workers| && s.workers[k] == Waiting {
      var k :| WakesOnly(s, a, t, k);
      CountAfterWaking(s.workers, t.workers, k);
    } else {
      SameWaiting(s.workers, t.workers);
      SumBound(s.workers, WaitingBit, 0);
    }
  }

  /** The broadcast of line 266 wakes every blocked worker and moves no other. */
  lemma BroadcastWakesAll(s: State, k: nat)
    requires s.destroyer == Broadcast && k < |s.workers|
    ensures var t := Step(s, Destroy);
            && |t.workers| == |s.workers|
            && t.workers[k] == if s.workers[k] == Waiting then Woken else s.workers[k]
  {
  }

  /** The signals of lines 432 and 467 wake the waiter if it is blocked. */
  lemma WaiterIsSignalled(s: State, a: Action)
    requires Enabled(s, a) && a.Work? && (s.workers[a.index] == LastSignal || s.workers[a.index] == IdleSignal)
    ensures Step(s, a).waiter == if s.waiter == WaitBlocked then WaitWoken else s.waiter
  {
  }

  /** A worker about to signal the waiter. */
  predicate AboutToSignal(w: Worker) { w == LastSignal || w == IdleSignal }

  /** A worker comes to these lines exactly when its load of job_count at 430 or 465 reads 0. */
  lemma SignalsExactlyWhenEmpty(s: State, a: Action)
    requires Enabled(s, a) && a.Work? && !AboutToSignal(s.workers[a.index])
    ensures var t := Step(s, a);
            && |t.workers| == |s.workers|
            && (AboutToSignal(t.workers[a.index]) <==>
                  s.count == 0 && (s.workers[a.index] == LastCount || s.workers[a.index] == IdleCount))
  {
  }

  /** The steps that move a thread other than the one that takes them. */
  predicate MovesOthers(s: State, a: Action) {
    || SignalsRun(s, a)
    || (a == Destroy && s.destroyer == Broadcast)
  }

  /** Apart from those, and from a wakeup that nobody asked for, no step moves a worker but its own. */
  lemma WorkersMoveThemselves(s: State, a: Action)
    requires Enabled(s, a) && !MovesOthers(s, a) && !a.Spurious?
    ensures WakesNobody(s, a, Step(s, a))
  {
  }

  /** The waiter moves by its own steps and by the signals of wait_cond only. */
  lemma WaiterMovesItself(s: State, a: Action)
    requires Enabled(s, a) && a != Wait && a != WaitSpurious && a != CallWait
    requires a.Work? ==> s.workers[a.index] != LastSignal && s.workers[a.index] != IdleSignal
    ensures Step(s, a).waiter == s.waiter
  {
  }
}
