/**
 The blocking mutex of semestr2/Task2/Task2_4/mutex.c as a system of any number of threads, each
 running "for i < count: lock; ++counter; unlock".  One action is one atomic step of one thread or
 of the kernel; `++counter` is a load and a separate store.
 */
module FutexMutex {
  import opened Sums
  import opened LockWord
  import opened Wrappers

  datatype Pc =
    | LoopHead       // i < COUNT_ITERATION ?
    | TryLock        // CAS(lock, UNLOCK -> LOCK)
    | FutexWait      // FUTEX_WAIT(lock, LOCK): compare and sleep in one action
    | Asleep         // queued in the kernel
    | LoadCounter
    | StoreCounter
    | Unlock         // CAS(lock, LOCK -> UNLOCK)
    | FutexWake      // FUTEX_WAKE(lock, 1)
    | Finished

  /** `i` iterations of `count` are complete; `reg` holds the counter between load and store. */
  datatype Thread = Thread(pc: Pc, i: nat, count: nat, reg: int)

  datatype State = State(lock: int, counter: int, threads: seq<Thread>)

  /** `Wake` is FUTEX_WAKE when somebody sleeps: the kernel chooses the sleeper.
      `SpuriousWake` is any return of FUTEX_WAIT that no FUTEX_WAKE caused. */
  datatype Action = Cpu(t: nat) | Wake(t: nat, sleeper: nat) | SpuriousWake(t: nat)

  predicate At(s: State, t: nat, pc: Pc) {
    t < |s.threads| && s.threads[t].pc == pc
  }

  predicate Enabled(s: State, a: Action) {
    match a
    case Cpu(t) =>
      && t < |s.threads|
      && s.threads[t].pc !in {Asleep, Finished}
      && (s.threads[t].pc == FutexWake ==> forall u :: 0 <= u < |s.threads| ==> s.threads[u].pc != Asleep)
    case Wake(t, u) => At(s, t, FutexWake) && At(s, u, Asleep)
    case SpuriousWake(t) => At(s, t, Asleep)
  }

  function Goto(s: State, t: nat, pc: Pc): State
    requires t < |s.threads|
  {
    s.(threads := s.threads[t := s.threads[t].(pc := pc)])
  }

  function NextIteration(s: State, t: nat): State
    requires t < |s.threads|
  {
    s.(threads := s.threads[t := s.threads[t].(pc := LoopHead, i := s.threads[t].i + 1)])
  }

  function Step(s: State, a: Action): State
    requires Enabled(s, a)
  {
    match a
    case SpuriousWake(t) => Goto(s, t, TryLock)
    case Wake(t, u) => NextIteration(Goto(s, u, TryLock), t)
    case Cpu(t) =>
      var th := s.threads[t];
      match th.pc
      case LoopHead => Goto(s, t, if th.i < th.count then TryLock else Finished)
      case TryLock =>
        if s.lock == STATUS_UNLOCK then Goto(s, t, LoadCounter).(lock := STATUS_LOCK) else Goto(s, t, FutexWait)
      case FutexWait => Goto(s, t, if s.lock == STATUS_LOCK then Asleep else TryLock)
      case LoadCounter => s.(threads := s.threads[t := th.(pc := StoreCounter, reg := s.counter)])
      case StoreCounter => Goto(s, t, Unlock).(counter := th.reg + 1)
      case Unlock =>
        if s.lock == STATUS_LOCK then Goto(s, t, FutexWake).(lock := STATUS_UNLOCK) else NextIteration(s, t)
      case _ => NextIteration(s, t)
  }

  function Init(counts: seq<nat>): State {
    State(STATUS_UNLOCK, 0, seq(|counts|, t requires 0 <= t < |counts| => Thread(LoopHead, 0, counts[t], 0)))
  }

  predicate ValidRun(s: State, run: seq<Action>)
    decreases |run|
  {
    run == [] || (Enabled(s, run[0]) && ValidRun(Step(s, run[0]), run[1..]))
  }

  function Exec(s: State, run: seq<Action>): State
    requires ValidRun(s, run)
    decreases |run|
  {
    if run == [] then s else Exec(Step(s, run[0]), run[1..])
  }

  // ---------------------------------------------------------------- the inductive invariant

  predicate Critical(th: Thread) {
    th.pc in {LoadCounter, StoreCounter, Unlock}
  }

  predicate Contending(th: Thread) {
    th.pc in {TryLock, FutexWait, FutexWake}
  }

  function Increments(th: Thread): nat {
    th.i + if th.pc in {Unlock, FutexWake} then 1 else 0
  }

  function AllIncrements(ts: seq<Thread>): seq<int> {
    seq(|ts|, t requires 0 <= t < |ts| => Increments(ts[t]))
  }

  predicate ThreadOk(th: Thread, counter: int) {
    && th.i <= th.count
    && (th.pc !in {LoopHead, Finished} ==> th.i < th.count)
    && (th.pc == Finished ==> th.i == th.count)
    && (th.pc == StoreCounter ==> th.reg == counter)
  }

  /** The lock word is 0 exactly when a thread is between its lock and its unlock, and it is alone. */
  ghost predicate MutualExclusion(s: State) {
    && s.lock in {STATUS_LOCK, STATUS_UNLOCK}
    && (s.lock == STATUS_LOCK <==> exists t :: 0 <= t < |s.threads| && Critical(s.threads[t]))
    && forall t, u :: 0 <= t < |s.threads| && 0 <= u < |s.threads| && Critical(s.threads[t]) && Critical(s.threads[u])
         ==> t == u
  }

  ghost predicate NoLostWakeup(s: State) {
    s.lock == STATUS_UNLOCK && (exists t :: 0 <= t < |s.threads| && s.threads[t].pc == Asleep) ==>
      exists t :: 0 <= t < |s.threads| && Contending(s.threads[t])
  }

  ghost predicate Inv(s: State) {
    && MutualExclusion(s)
    && NoLostWakeup(s)
    && (forall t :: 0 <= t < |s.threads| ==> ThreadOk(s.threads[t], s.counter))
    && s.counter == Sum(AllIncrements(s.threads))
  }

  lemma {:induction false} SumOfZeros(n: nat)
    ensures Sum(seq(n, _ => 0)) == 0
  {
    if n > 0 {
      assert seq(n, _ => 0)[1..] == seq(n - 1, _ => 0);
      SumOfZeros(n - 1);
    }
  }

  lemma {:induction false} InitEstablishesInv(counts: seq<nat>)
    ensures Inv(Init(counts))
  {
    var s := Init(counts);
    SumBounded(AllIncrements(s.threads), seq(|counts|, _ => 0), 0);
    SumBounded(seq(|counts|, _ => 0), AllIncrements(s.threads), 0);
    SumOfZeros(|counts|);
  }

  /** Replacing thread `t` changes the counted increments by that thread's own change. */
  lemma IncrementsAfter(ts: seq<Thread>, t: nat, th: Thread)
    requires t < |ts|
    ensures Sum(AllIncrements(ts[t := th])) == Sum(AllIncrements(ts)) - Increments(ts[t]) + Increments(th)
  {
    assert AllIncrements(ts[t := th]) == AllIncrements(ts)[t := Increments(th)];
    SumUpdate(AllIncrements(ts), t, Increments(th));
  }

  lemma {:induction false} CpuStepKeepsMutualExclusion(s: State, t: nat)
    requires Inv(s) && Enabled(s, Cpu(t))
    ensures MutualExclusion(Step(s, Cpu(t)))
    ensures At(s, t, Unlock) ==> s.lock == STATUS_LOCK
  {
    var s' := Step(s, Cpu(t));
    assert forall u :: 0 <= u < |s.threads| && u != t ==> s'.threads[u] == s.threads[u];
    if s'.lock == STATUS_LOCK {
      if Critical(s'.threads[t]) {
      } else {
        var u :| 0 <= u < |s.threads| && Critical(s.threads[u]);
        assert Critical(s'.threads[u]);
      }
    }
  }

  lemma {:induction false} CpuStepKeepsWakeups(s: State, t: nat)
    requires Inv(s) && Enabled(s, Cpu(t))
    ensures NoLostWakeup(Step(s, Cpu(t)))
  {
    var s' := Step(s, Cpu(t));
    assert forall u :: 0 <= u < |s.threads| && u != t ==> s'.threads[u] == s.threads[u];
    if s'.lock == STATUS_UNLOCK && exists u :: 0 <= u < |s.threads| && s'.threads[u].pc == Asleep {
      var u :| 0 <= u < |s.threads| && s'.threads[u].pc == Asleep;
      if Contending(s'.threads[t]) {
      } else {
        assert s.threads[u].pc == Asleep;
        var v :| 0 <= v < |s.threads| && Contending(s.threads[v]);
        assert Contending(s'.threads[v]);
      }
    }
  }

  lemma {:induction false} CpuStepKeepsCounter(s: State, t: nat)
    requires Inv(s) && Enabled(s, Cpu(t))
    ensures var s' := Step(s, Cpu(t)); s'.counter == Sum(AllIncrements(s'.threads))
    ensures var s' := Step(s, Cpu(t)); forall u :: 0 <= u < |s'.threads| ==> ThreadOk(s'.threads[u], s'.counter)
  {
    var s' := Step(s, Cpu(t));
    IncrementsAfter(s.threads, t, s'.threads[t]);
    assert s'.threads == s.threads[t := s'.threads[t]];
    CpuStepKeepsMutualExclusion(s, t);
    forall u | 0 <= u < |s'.threads|
      ensures ThreadOk(s'.threads[u], s'.counter)
    {
      assert ThreadOk(s.threads[u], s.counter);
      if u != t && s.threads[t].pc == StoreCounter {
        assert !Critical(s.threads[u]);
      }
    }
  }

  lemma {:induction false} WakingKeepsInv(s: State, u: nat)
    requires Inv(s) && At(s, u, Asleep)
    ensures Inv(Goto(s, u, TryLock))
  {
    var s' := Goto(s, u, TryLock);
    IncrementsAfter(s.threads, u, s'.threads[u]);
    assert Contending(s'.threads[u]);
    if s.lock == STATUS_LOCK {
      var v :| 0 <= v < |s.threads| && Critical(s.threads[v]);
      assert Critical(s'.threads[v]);
    }
  }

  /** FUTEX_WAKE of thread `t` after it made `u` runnable. */
  lemma {:induction false} WakerKeepsInv(s: State, t: nat, u: nat)
    requires Inv(s) && At(s, t, FutexWake) && At(s, u, TryLock)
    ensures Inv(NextIteration(s, t))
  {
    var s' := NextIteration(s, t);
    IncrementsAfter(s.threads, t, s'.threads[t]);
    assert Contending(s'.threads[u]);
    if s.lock == STATUS_LOCK {
      var v :| 0 <= v < |s.threads| && Critical(s.threads[v]);
      assert Critical(s'.threads[v]);
    }
  }

  lemma {:induction false} StepKeepsInv(s: State, a: Action)
    requires Inv(s) && Enabled(s, a)
    ensures Inv(Step(s, a))
  {
    match a
    case Cpu(t) =>
      CpuStepKeepsMutualExclusion(s, t);
      CpuStepKeepsWakeups(s, t);
      CpuStepKeepsCounter(s, t);
    case Wake(t, u) =>
      WakingKeepsInv(s, u);
      WakerKeepsInv(Goto(s, u, TryLock), t, u);
    case SpuriousWake(t) =>
      WakingKeepsInv(s, t);
  }

  /** Safety over whole runs: every interleaving of every length keeps the invariant. */
  lemma {:induction false} RunKeepsInv(s: State, run: seq<Action>)
    requires Inv(s) && ValidRun(s, run)
    ensures Inv(Exec(s, run))
    decreases |run|
  {
    if run != [] {
      StepKeepsInv(s, run[0]);
      RunKeepsInv(Step(s, run[0]), run[1..]);
    }
  }

  /** Every interleaving of every length: exclusion, no lost wakeup, an unlock that never fails, and a
      counter that is exact at every moment although load and store are separate. */
  lemma {:induction false} EveryInterleavingIsSafe(counts: seq<nat>, run: seq<Action>)
    requires ValidRun(Init(counts), run)
    ensures var e := Exec(Init(counts), run);
            && MutualExclusion(e)
            && NoLostWakeup(e)
            && (e.lock == 0 || e.lock == 1)
            && (e.lock == 0 <==> exists t :: 0 <= t < |e.threads| && Critical(e.threads[t]))
            && e.counter == Sum(AllIncrements(e.threads))
            && forall t :: 0 <= t < |e.threads| && e.threads[t].pc == Unlock ==> e.lock == 0
  {
    InitEstablishesInv(counts);
    RunKeepsInv(Init(counts), run);
    var e := Exec(Init(counts), run);
    assert forall t :: 0 <= t < |e.threads| && e.threads[t].pc == Unlock ==> Critical(e.threads[t]);
  }

  /** Nothing but sleep holds a thread up: every thread that has not finished can act whenever it is awake,
      and a sleeper may wake without being woken. */
  lemma EveryThreadMayBeNext(s: State, t: nat) returns (a: Action)
    requires t < |s.threads| && s.threads[t].pc != Finished
    ensures Enabled(s, a) && a.t == t && (a.SpuriousWake? <==> s.threads[t].pc == Asleep)
  {
    if s.threads[t].pc == Asleep {
      return SpuriousWake(t);
    }
    if s.threads[t].pc == FutexWake {
      if u :| 0 <= u < |s.threads| && s.threads[u].pc == Asleep {
        return Wake(t, u);
      }
    }
    return Cpu(t);
  }

  // ---------------------------------------------------------------- progress

  predicate AllFinished(s: State) {
    forall t :: 0 <= t < |s.threads| ==> s.threads[t].pc == Finished
  }

  /** No reachable state short of the end is stuck, without counting on a spurious wakeup. */
  lemma {:induction false} NeverStuck(s: State) returns (a: Action)
    requires Inv(s) && !AllFinished(s)
    ensures Enabled(s, a) && !a.SpuriousWake?
  {
    if s.lock == STATUS_LOCK {
      var t :| 0 <= t < |s.threads| && Critical(s.threads[t]);
      return Cpu(t);
    }
    var t :| 0 <= t < |s.threads| && s.threads[t].pc != Finished;
    if s.threads[t].pc == Asleep {
      t :| 0 <= t < |s.threads| && Contending(s.threads[t]);
    }
    if s.threads[t].pc == FutexWake && exists u :: 0 <= u < |s.threads| && s.threads[u].pc == Asleep {
      var u :| 0 <= u < |s.threads| && s.threads[u].pc == Asleep;
      return Wake(t, u);
    }
    return Cpu(t);
  }

  /** Unlocks the thread still has to perform. */
  function Owed(th: Thread): int {
    th.count - th.i - if th.pc == FutexWake then 1 else 0
  }

  /** Work left inside the current attempt.  A waiter whose lock word has become free must retry, so
      it is charged more then; an unlock pays for that retry of every thread. */
  function PcWork(pc: Pc, lock: int): nat {
    match pc
    case LoopHead => 8
    case TryLock => 6
    case FutexWait => if lock == STATUS_LOCK then 5 else 7
    case Asleep => 4
    case LoadCounter => 2
    case StoreCounter => 1
    case Unlock => 0
    case FutexWake => 11
    case Finished => 0
  }

  function UnlockPrice(n: nat): nat {
    2 * n + 12
  }

  function Works(ts: seq<Thread>, lock: int, price: nat): seq<int> {
    seq(|ts|, t requires 0 <= t < |ts| => Owed(ts[t]) * price + PcWork(ts[t].pc, lock))
  }

  function Work(s: State): int {
    Sum(Works(s.threads, s.lock, UnlockPrice(|s.threads|)))
  }

  lemma {:induction false} WorkAfter(ts: seq<Thread>, lock: int, price: nat, t: nat, th: Thread)
    requires t < |ts|
    ensures Sum(Works(ts[t := th], lock, price)) == Sum(Works(ts, lock, price))
              - (Owed(ts[t]) * price + PcWork(ts[t].pc, lock)) + (Owed(th) * price + PcWork(th.pc, lock))
  {
    var w := Owed(th) * price + PcWork(th.pc, lock);
    assert Works(ts[t := th], lock, price) == Works(ts, lock, price)[t := w];
    SumUpdate(Works(ts, lock, price), t, w);
  }

  lemma {:induction false} WorkOfLockChange(ts: seq<Thread>, price: nat)
    ensures Sum(Works(ts, STATUS_UNLOCK, price)) <= Sum(Works(ts, STATUS_LOCK, price)) + 2 * |ts|
    ensures Sum(Works(ts, STATUS_LOCK, price)) <= Sum(Works(ts, STATUS_UNLOCK, price))
  {
    SumBounded(Works(ts, STATUS_LOCK, price), Works(ts, STATUS_UNLOCK, price), 2);
    SumBounded(Works(ts, STATUS_UNLOCK, price), Works(ts, STATUS_LOCK, price), 0);
  }

  lemma WorkNonNegative(s: State)
    requires Inv(s)
    ensures 0 <= Work(s)
  {
    var ws := Works(s.threads, s.lock, UnlockPrice(|s.threads|));
    forall t | 0 <= t < |ws|
      ensures 0 <= ws[t]
    {
      assert ThreadOk(s.threads[t], s.counter);
      assert 0 <= Owed(s.threads[t]) * UnlockPrice(|s.threads|);
    }
    SumNonNegative(ws);
  }

  /** A step of `t` that owes as many unlocks before and after. */
  lemma {:induction false} LocalWork(ts: seq<Thread>, lock: int, price: nat, t: nat, th: Thread)
    requires t < |ts| && Owed(th) == Owed(ts[t])
    ensures Sum(Works(ts[t := th], lock, price))
              == Sum(Works(ts, lock, price)) - PcWork(ts[t].pc, lock) + PcWork(th.pc, lock)
  {
    WorkAfter(ts, lock, price, t, th);
  }

  lemma {:induction false} UnlockReducesWork(s: State, t: nat)
    requires Inv(s) && At(s, t, Unlock)
    ensures Work(Step(s, Cpu(t))) < Work(s)
  {
    CpuStepKeepsMutualExclusion(s, t);
    var s', th, price := Step(s, Cpu(t)), s.threads[t], UnlockPrice(|s.threads|);
    WorkAfter(s.threads, s.lock, price, t, s'.threads[t]);
    assert Owed(s'.threads[t]) * price == Owed(th) * price - price by {
      assert Owed(s'.threads[t]) == Owed(th) - 1;
      assert (Owed(th) - 1) * price == Owed(th) * price - price;
    }
    WorkOfLockChange(s'.threads, price);
  }

  lemma {:induction false} CpuReducesWork(s: State, t: nat)
    requires Inv(s) && Enabled(s, Cpu(t)) && s.threads[t].pc != Unlock
    ensures Work(Step(s, Cpu(t))) < Work(s)
  {
    var s', price := Step(s, Cpu(t)), UnlockPrice(|s.threads|);
    assert s'.threads == s.threads[t := s'.threads[t]];
    LocalWork(s.threads, s.lock, price, t, s'.threads[t]);
    WorkOfLockChange(s'.threads, price);
  }

  lemma {:induction false} WakeReducesWork(s: State, t: nat, u: nat)
    requires Enabled(s, Wake(t, u))
    ensures Work(Step(s, Wake(t, u))) < Work(s)
  {
    var s', mid, price := Step(s, Wake(t, u)), Goto(s, u, TryLock), UnlockPrice(|s.threads|);
    LocalWork(s.threads, s.lock, price, u, mid.threads[u]);
    LocalWork(mid.threads, s.lock, price, t, s'.threads[t]);
  }

  /** Every action but a spurious wakeup strictly reduces the work, whoever is scheduled. */
  lemma {:induction false} StepReducesWork(s: State, a: Action)
    requires Inv(s) && Enabled(s, a)
    ensures !a.SpuriousWake? ==> Work(Step(s, a)) < Work(s)
    ensures a.SpuriousWake? ==> Work(Step(s, a)) == Work(s) + 2
  {
    match a
    case SpuriousWake(t) =>
      LocalWork(s.threads, s.lock, UnlockPrice(|s.threads|), t, Step(s, a).threads[t]);
    case Wake(t, u) =>
      WakeReducesWork(s, t, u);
    case Cpu(t) =>
      if s.threads[t].pc == Unlock {
        UnlockReducesWork(s, t);
      } else {
        CpuReducesWork(s, t);
      }
  }

  function SpuriousWakes(run: seq<Action>): nat {
    if run == [] then 0 else (if run[0].SpuriousWake? then 1 else 0) + SpuriousWakes(run[1..])
  }

  lemma {:induction false} RunLengthBound(s: State, run: seq<Action>)
    requires Inv(s) && ValidRun(s, run)
    ensures |run| <= Work(s) + 3 * SpuriousWakes(run)
    decreases |run|
  {
    if run == [] {
      WorkNonNegative(s);
    } else {
      StepReducesWork(s, run[0]);
      StepKeepsInv(s, run[0]);
      RunLengthBound(Step(s, run[0]), run[1..]);
    }
  }

  lemma {:induction false} InitialWork(counts: seq<nat>, price: nat)
    ensures Sum(Works(Init(counts).threads, STATUS_UNLOCK, price)) == price * Sum(counts) + 8 * |counts|
  {
    var ws := Works(Init(counts).threads, STATUS_UNLOCK, price);
    if counts != [] {
      assert ws[1..] == Works(Init(counts[1..]).threads, STATUS_UNLOCK, price);
      InitialWork(counts[1..], price);
      assert price * Sum(counts) == counts[0] * price + price * Sum(counts[1..]);
    }
  }

  /** Termination under every scheduler, with no fairness assumption: a run of N threads that make
      C iterations in all, with k spurious wakeups, has at most (2N+12)C + 8N + 3k actions. */
  lemma {:induction false} EveryScheduleTerminates(counts: seq<nat>, run: seq<Action>)
    requires ValidRun(Init(counts), run)
    ensures |run| <= UnlockPrice(|counts|) * Sum(counts) + 8 * |counts| + 3 * SpuriousWakes(run)
  {
    InitEstablishesInv(counts);
    RunLengthBound(Init(counts), run);
    InitialWork(counts, UnlockPrice(|counts|));
  }

  lemma {:induction false} RunKeepsCounts(s: State, run: seq<Action>)
    requires ValidRun(s, run)
    ensures var e := Exec(s, run);
            |e.threads| == |s.threads| && forall t :: 0 <= t < |s.threads| ==> e.threads[t].count == s.threads[t].count
    decreases |run|
  {
    if run != [] {
      RunKeepsCounts(Step(s, run[0]), run[1..]);
    }
  }

  lemma {:induction false} FinishedCounterIsTotal(s: State, counts: seq<nat>)
    requires Inv(s) && AllFinished(s) && |s.threads| == |counts|
    requires forall t :: 0 <= t < |counts| ==> s.threads[t].count == counts[t]
    ensures s.counter == Sum(counts) && s.lock == STATUS_UNLOCK
  {
    forall t | 0 <= t < |counts|
      ensures AllIncrements(s.threads)[t] == counts[t]
    {
      assert ThreadOk(s.threads[t], s.counter);
    }
    assert AllIncrements(s.threads) == counts;
  }

  /** A run that cannot be continued has finished every thread, and no increment was lost. */
  lemma {:induction false} MaximalRunIsComplete(counts: seq<nat>, run: seq<Action>)
    requires ValidRun(Init(counts), run)
    requires forall a :: Enabled(Exec(Init(counts), run), a) ==> a.SpuriousWake?
    ensures var e := Exec(Init(counts), run);
            AllFinished(e) && e.counter == Sum(counts) && e.lock == STATUS_UNLOCK
  {
    var e := Exec(Init(counts), run);
    InitEstablishesInv(counts);
    RunKeepsInv(Init(counts), run);
    RunKeepsCounts(Init(counts), run);
    if !AllFinished(e) {
      var a := NeverStuck(e);
      assert false;
    }
    FinishedCounterIsTotal(e, counts);
  }

  /** From every state that keeps the invariant some finite continuation finishes every thread. */
  lemma {:induction false} CanAlwaysFinish(s: State) returns (more: seq<Action>)
    requires Inv(s)
    ensures ValidRun(s, more) && AllFinished(Exec(s, more))
    ensures SpuriousWakes(more) == 0 && |more| <= Work(s)
    decreases Work(s)
  {
    WorkNonNegative(s);
    if AllFinished(s) {
      return [];
    }
    var a := NeverStuck(s);
    StepKeepsInv(s, a);
    StepReducesWork(s, a);
    WorkNonNegative(Step(s, a));
    var rest := CanAlwaysFinish(Step(s, a));
    more := [a] + rest;
    assert more[1..] == rest;
  }

  /** What the kernel and the scheduler may do next; `None` only when every thread has returned. */
  method Choose(s: State) returns (c: Option<Action>)
    requires Inv(s)
    ensures c.None? <==> AllFinished(s)
    ensures c.Some? ==> Enabled(s, c.value) && !c.value.SpuriousWake?
  {
    var waker: nat, sleeper: nat := |s.threads|, |s.threads|;
    for t := 0 to |s.threads|
      invariant waker == |s.threads| || At(s, waker, FutexWake)
      invariant sleeper == |s.threads| || At(s, sleeper, Asleep)
      invariant forall u :: 0 <= u < t ==> s.threads[u].pc in {Asleep, Finished, FutexWake}
      invariant forall u :: 0 <= u < t && s.threads[u].pc == FutexWake ==> At(s, waker, FutexWake)
      invariant forall u :: 0 <= u < t && s.threads[u].pc == Asleep ==> At(s, sleeper, Asleep)
    {
      match s.threads[t].pc
      case FutexWake => waker := t;
      case Asleep => sleeper := t;
      case Finished =>
      case _ => return Some(Cpu(t));
    }
    if waker < |s.threads| {
      return Some(if sleeper < |s.threads| then Wake(waker, sleeper) else Cpu(waker));
    }
    if !AllFinished(s) {
      ghost var a := NeverStuck(s);
      assert false;
    }
    c := None;
  }
}
