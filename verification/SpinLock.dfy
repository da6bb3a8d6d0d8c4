/**
 The spin lock of semestr2/Task2/Task2_4/spinlock.c with the same client loop: the simple program
 that the futex mutex improves on.
 */
module SpinLock {
  import opened Sums
  import opened LockWord

  datatype Pc = LoopHead | Spin | LoadCounter | StoreCounter | Unlock | Finished
  datatype Thread = Thread(pc: Pc, i: nat, count: nat, reg: int)
  datatype State = State(lock: int, counter: int, threads: seq<Thread>)

  /** What a run does to the shared data, in order: the critical sections and the values they store. */
  datatype Event = Acquired(t: nat) | Stored(t: nat, value: int) | Released(t: nat)

  predicate Enabled(s: State, t: nat) {
    t < |s.threads| && s.threads[t].pc != Finished
  }

  function With(s: State, t: nat, th: Thread): State
    requires t < |s.threads|
  {
    s.(threads := s.threads[t := th])
  }

  function Step(s: State, t: nat): State
    requires Enabled(s, t)
  {
    var th := s.threads[t];
    match th.pc
    case LoopHead => With(s, t, th.(pc := if th.i < th.count then Spin else Finished))
    case Spin => if s.lock == STATUS_UNLOCK then With(s, t, th.(pc := LoadCounter)).(lock := STATUS_LOCK) else s
    case LoadCounter => With(s, t, th.(pc := StoreCounter, reg := s.counter))
    case StoreCounter => With(s, t, th.(pc := Unlock)).(counter := th.reg + 1)
    case Unlock =>
      With(s, t, th.(pc := LoopHead, i := th.i + 1)).(lock := if s.lock == STATUS_LOCK then STATUS_UNLOCK else s.lock)
  }

  function Events(s: State, t: nat): seq<Event>
    requires Enabled(s, t)
  {
    match s.threads[t].pc
    case Spin => if s.lock == STATUS_UNLOCK then [Acquired(t)] else []
    case StoreCounter => [Stored(t, s.threads[t].reg + 1)]
    case Unlock => if s.lock == STATUS_LOCK then [Released(t)] else []
    case _ => []
  }

  function Init(counts: seq<nat>): State {
    State(STATUS_UNLOCK, 0, seq(|counts|, t requires 0 <= t < |counts| => Thread(LoopHead, 0, counts[t], 0)))
  }

  predicate ValidRun(s: State, run: seq<nat>)
    decreases |run|
  {
    run == [] || (Enabled(s, run[0]) && ValidRun(Step(s, run[0]), run[1..]))
  }

  function Exec(s: State, run: seq<nat>): State
    requires ValidRun(s, run)
    decreases |run|
  {
    if run == [] then s else Exec(Step(s, run[0]), run[1..])
  }

  function Trace(s: State, run: seq<nat>): seq<Event>
    requires ValidRun(s, run)
    decreases |run|
  {
    if run == [] then [] else Events(s, run[0]) + Trace(Step(s, run[0]), run[1..])
  }

  // ---------------------------------------------------------------- which programs are bounded

  lemma {:induction false} SpinningChangesNothing(s: State, t: nat, n: nat)
    requires t < |s.threads| && s.threads[t].pc == Spin && s.lock != STATUS_UNLOCK
    ensures var run := seq(n, _ => t); ValidRun(s, run) && Exec(s, run) == s
  {
    if n > 0 {
      var run := seq(n, _ => t);
      assert run[1..] == seq(n - 1, _ => t);
      SpinningChangesNothing(s, t, n - 1);
    }
  }

  /** Two threads with work to do: `a` takes the lock and stays inside, and `b` spins n times. */
  lemma {:induction false} ContentionIsUnbounded(counts: seq<nat>, a: nat, b: nat, n: nat) returns (run: seq<nat>)
    requires a < |counts| && b < |counts| && a != b && 0 < counts[a] && 0 < counts[b]
    ensures ValidRun(Init(counts), run) && n < |run|
  {
    var s1 := Step(Init(counts), a);
    var s2 := Step(s1, a);
    var s3 := Step(s2, b);
    var spin := seq(n, _ => b);
    SpinningChangesNothing(s3, b, n);
    assert ([b] + spin)[1..] == spin && ([a, b] + spin)[1..] == [b] + spin;
    assert ValidRun(s1, [a, b] + spin);
    run := [a] + ([a, b] + spin);
    assert run[1..] == [a, b] + spin;
  }

  /** Steps a thread still takes when its CAS never fails: five per iteration and the last test. */
  function StepsLeft(th: Thread): int {
    5 * (th.count - th.i) +
    match th.pc
    case LoopHead => 1
    case Spin => 0
    case LoadCounter => -1
    case StoreCounter => -2
    case Unlock => -3
    case Finished => 0
  }

  function AllStepsLeft(ts: seq<Thread>): seq<int> {
    seq(|ts|, t requires 0 <= t < |ts| => StepsLeft(ts[t]))
  }

  /** Only thread `c` has iterations to make, so the lock is free whenever it tries. */
  ghost predicate Alone(s: State, c: nat) {
    forall t :: 0 <= t < |s.threads| ==>
      var th := s.threads[t];
      && th.i <= th.count
      && (th.pc !in {LoopHead, Finished} ==> th.i < th.count)
      && (th.pc == Finished ==> th.i == th.count)
      && (t != c ==> th.count == 0)
      && (t == c ==> s.lock == if th.pc in {LoadCounter, StoreCounter, Unlock} then STATUS_LOCK else STATUS_UNLOCK)
  }

  lemma {:induction false} AloneStep(s: State, c: nat, t: nat)
    requires Alone(s, c) && Enabled(s, t)
    ensures Alone(Step(s, t), c)
    ensures Sum(AllStepsLeft(Step(s, t).threads)) == Sum(AllStepsLeft(s.threads)) - 1
  {
    var s' := Step(s, t);
    assert s'.threads == s.threads[t := s'.threads[t]];
    assert AllStepsLeft(s'.threads) == AllStepsLeft(s.threads)[t := StepsLeft(s'.threads[t])];
    SumUpdate(AllStepsLeft(s.threads), t, StepsLeft(s'.threads[t]));
  }

  lemma {:induction false} AloneRun(s: State, c: nat, run: seq<nat>)
    requires Alone(s, c) && ValidRun(s, run)
    ensures |run| <= Sum(AllStepsLeft(s.threads))
    decreases |run|
  {
    if run == [] {
      SumNonNegative(AllStepsLeft(s.threads));
    } else {
      AloneStep(s, c, run[0]);
      AloneRun(Step(s, run[0]), c, run[1..]);
    }
  }

  ghost predicate BoundedBy(counts: seq<nat>, bound: int) {
    forall run :: ValidRun(Init(counts), run) ==> |run| <= bound
  }

  predicate AtMostOneWorks(counts: seq<nat>) {
    forall a, b :: 0 <= a < b < |counts| ==> counts[a] == 0 || counts[b] == 0
  }

  /** The runs of the spin lock have a common bound exactly when at most one thread has anything to
      do; with two, spinning can go on for ever.  The futex mutex is bounded in every case. */
  lemma {:induction false} BoundedIffAlone(counts: seq<nat>)
    ensures (exists bound :: BoundedBy(counts, bound)) <==> AtMostOneWorks(counts)
  {
    if AtMostOneWorks(counts) {
      var s := Init(counts);
      var c := if w :| 0 <= w < |counts| && 0 < counts[w] then w else 0;
      var bound := Sum(AllStepsLeft(s.threads));
      forall run | ValidRun(s, run)
        ensures |run| <= bound
      {
        AloneRun(s, c, run);
      }
      assert BoundedBy(counts, bound);
    } else {
      var a, b :| 0 <= a < b < |counts| && 0 < counts[a] && 0 < counts[b];
      forall bound | BoundedBy(counts, bound)
        ensures false
      {
        var run := ContentionIsUnbounded(counts, a, b, if bound < 0 then 0 else bound);
      }
    }
  }
}

/** Every run of the futex mutex is, once sleeping and waking are erased, a run of the spin lock. */
module FutexRefinesSpin {
  import F = FutexMutex
  import S = SpinLock
  import opened LockWord

  /** A waiting or sleeping thread spins; a thread that has unlocked is back at its loop head. */
  function AbsThread(th: F.Thread): S.Thread {
    match th.pc
    case LoopHead => S.Thread(S.LoopHead, th.i, th.count, th.reg)
    case TryLock => S.Thread(S.Spin, th.i, th.count, th.reg)
    case FutexWait => S.Thread(S.Spin, th.i, th.count, th.reg)
    case Asleep => S.Thread(S.Spin, th.i, th.count, th.reg)
    case LoadCounter => S.Thread(S.LoadCounter, th.i, th.count, th.reg)
    case StoreCounter => S.Thread(S.StoreCounter, th.i, th.count, th.reg)
    case Unlock => S.Thread(S.Unlock, th.i, th.count, th.reg)
    case FutexWake => S.Thread(S.LoopHead, th.i + 1, th.count, th.reg)
    case Finished => S.Thread(S.Finished, th.i, th.count, th.reg)
  }

  function Abs(s: F.State): S.State {
    S.State(s.lock, s.counter, seq(|s.threads|, t requires 0 <= t < |s.threads| => AbsThread(s.threads[t])))
  }

  /** Sleep, wake, spurious and EAGAIN actions are erased; every other action keeps its thread. */
  function EraseAction(s: F.State, a: F.Action): seq<nat>
    requires F.Enabled(s, a)
  {
    if a.Cpu? && s.threads[a.t].pc !in {F.FutexWait, F.FutexWake} then [a.t] else []
  }

  function Erase(s: F.State, run: seq<F.Action>): seq<nat>
    requires F.ValidRun(s, run)
    decreases |run|
  {
    if run == [] then [] else EraseAction(s, run[0]) + Erase(F.Step(s, run[0]), run[1..])
  }

  function Events(s: F.State, a: F.Action): seq<S.Event>
    requires F.Enabled(s, a)
  {
    if !a.Cpu? then []
    else
      match s.threads[a.t].pc
      case TryLock => if s.lock == STATUS_UNLOCK then [S.Acquired(a.t)] else []
      case StoreCounter => [S.Stored(a.t, s.threads[a.t].reg + 1)]
      case Unlock => if s.lock == STATUS_LOCK then [S.Released(a.t)] else []
      case _ => []
  }

  function Trace(s: F.State, run: seq<F.Action>): seq<S.Event>
    requires F.ValidRun(s, run)
    decreases |run|
  {
    if run == [] then [] else Events(s, run[0]) + Trace(F.Step(s, run[0]), run[1..])
  }

  lemma ErasedStep(s: F.State, a: F.Action)
    requires F.Enabled(s, a) && EraseAction(s, a) == []
    ensures Abs(F.Step(s, a)) == Abs(s) && Events(s, a) == []
  {
    assert Abs(F.Step(s, a)).threads == Abs(s).threads;
  }

  /** Needs of the invariant only that an unlock finds the lock taken. */
  lemma KeptStep(s: F.State, t: nat)
    requires F.Enabled(s, F.Cpu(t)) && s.threads[t].pc !in {F.FutexWait, F.FutexWake}
    requires s.lock in {STATUS_LOCK, STATUS_UNLOCK} && (s.threads[t].pc == F.Unlock ==> s.lock == STATUS_LOCK)
    ensures S.Enabled(Abs(s), t) && Abs(F.Step(s, F.Cpu(t))) == S.Step(Abs(s), t)
    ensures Events(s, F.Cpu(t)) == S.Events(Abs(s), t)
  {
    var s', th' := F.Step(s, F.Cpu(t)), F.Step(s, F.Cpu(t)).threads[t];
    assert s'.threads == s.threads[t := th'];
    assert Abs(s').threads == Abs(s).threads[t := AbsThread(th')];
  }

  lemma {:induction false} StepRefines(s: F.State, a: F.Action)
    requires F.Inv(s) && F.Enabled(s, a)
    ensures var es := EraseAction(s, a);
            if es == [] then Abs(F.Step(s, a)) == Abs(s) && Events(s, a) == []
            else S.Enabled(Abs(s), es[0]) && Abs(F.Step(s, a)) == S.Step(Abs(s), es[0])
                 && Events(s, a) == S.Events(Abs(s), es[0])
  {
    if EraseAction(s, a) == [] {
      ErasedStep(s, a);
    } else {
      F.CpuStepKeepsMutualExclusion(s, a.t);
      KeptStep(s, a.t);
    }
  }

  /** Same sequence of critical sections, same counter values, same final shared state. */
  lemma {:induction false} RunRefines(s: F.State, run: seq<F.Action>)
    requires F.Inv(s) && F.ValidRun(s, run)
    ensures var spin := Erase(s, run);
            && S.ValidRun(Abs(s), spin)
            && S.Exec(Abs(s), spin) == Abs(F.Exec(s, run))
            && S.Trace(Abs(s), spin) == Trace(s, run)
    decreases |run|
  {
    if run != [] {
      var s', es, rest := F.Step(s, run[0]), EraseAction(s, run[0]), Erase(F.Step(s, run[0]), run[1..]);
      StepRefines(s, run[0]);
      F.StepKeepsInv(s, run[0]);
      RunRefines(s', run[1..]);
      if es == [] {
        assert Erase(s, run) == rest;
      } else {
        assert Erase(s, run)[1..] == rest;
      }
    }
  }

  lemma {:induction false} ProgramRefines(counts: seq<nat>, run: seq<F.Action>)
    requires F.ValidRun(F.Init(counts), run)
    ensures var s0, spin := F.Init(counts), Erase(F.Init(counts), run);
            && S.ValidRun(S.Init(counts), spin)
            && S.Trace(S.Init(counts), spin) == Trace(s0, run)
            && S.Exec(S.Init(counts), spin).counter == F.Exec(s0, run).counter
  {
    F.InitEstablishesInv(counts);
    RunRefines(F.Init(counts), run);
    assert Abs(F.Init(counts)).threads == S.Init(counts).threads;
  }

  // ---------------------------------------------------------------- what a run looks like

  /** Critical sections one after the other: the k-th is entered, stores k, and is left, by one thread. */
  function Sections(owners: seq<nat>): seq<S.Event> {
    var n := |owners|;
    if n == 0 then []
    else Sections(owners[..n - 1]) + [S.Acquired(owners[n - 1]), S.Stored(owners[n - 1], n), S.Released(owners[n - 1])]
  }

  /** The events so far of the section that thread t is in, the n-th before it being complete. */
  function OpenSection(pc: F.Pc, t: nat, n: nat): seq<S.Event> {
    match pc
    case LoadCounter => [S.Acquired(t)]
    case StoreCounter => [S.Acquired(t)]
    case Unlock => [S.Acquired(t), S.Stored(t, n + 1)]
    case _ => []
  }

  /** The trace is complete sections and the part of the one that is open, if any. */
  ghost predicate Shape(s: F.State, trace: seq<S.Event>, owners: seq<nat>) {
    if exists t :: 0 <= t < |s.threads| && F.Critical(s.threads[t]) then
      exists t :: && 0 <= t < |s.threads| && F.Critical(s.threads[t])
                  && trace == Sections(owners) + OpenSection(s.threads[t].pc, t, |owners|)
                  && s.counter == |owners| + if s.threads[t].pc == F.Unlock then 1 else 0
    else
      trace == Sections(owners) && s.counter == |owners|
  }

  lemma OutsideKeepsShape(s: F.State, a: F.Action, trace: seq<S.Event>, owners: seq<nat>)
    requires F.Inv(s) && F.Enabled(s, a) && Shape(s, trace, owners) && Events(s, a) == []
    requires a.Cpu? ==> !F.Critical(s.threads[a.t]) || s.threads[a.t].pc == F.LoadCounter
    requires F.Inv(F.Step(s, a)) && F.Step(s, a).counter == s.counter
    ensures Shape(F.Step(s, a), trace, owners)
  {
    var s' := F.Step(s, a);
    if t :| 0 <= t < |s.threads| && F.Critical(s.threads[t]) {
      assert F.Critical(s'.threads[t]);
      assert OpenSection(s'.threads[t].pc, t, |owners|) == OpenSection(s.threads[t].pc, t, |owners|);
    } else {
      assert forall u :: 0 <= u < |s'.threads| ==> !F.Critical(s'.threads[u]);
    }
  }

  lemma InsideKeepsShape(s: F.State, t: nat, trace: seq<S.Event>, owners: seq<nat>) returns (owners': seq<nat>)
    requires F.Inv(s) && F.Enabled(s, F.Cpu(t)) && Shape(s, trace, owners) && Events(s, F.Cpu(t)) != []
    requires F.Inv(F.Step(s, F.Cpu(t)))
    ensures Shape(F.Step(s, F.Cpu(t)), trace + Events(s, F.Cpu(t)), owners')
  {
    var s', n := F.Step(s, F.Cpu(t)), |owners|;
    owners' := owners;
    match s.threads[t].pc
    case TryLock =>
      assert F.Critical(s'.threads[t]);
    case StoreCounter =>
      assert F.Critical(s.threads[t]) && F.Critical(s'.threads[t]) && F.ThreadOk(s.threads[t], s.counter);
      assert Sections(owners) + [S.Acquired(t)] + [S.Stored(t, n + 1)]
          == Sections(owners) + [S.Acquired(t), S.Stored(t, n + 1)];
    case Unlock =>
      owners' := owners + [t];
      assert F.Critical(s.threads[t]) && owners'[..n] == owners;
      assert forall u :: 0 <= u < |s'.threads| ==> !F.Critical(s'.threads[u]);
      assert Sections(owners) + [S.Acquired(t), S.Stored(t, n + 1)] + [S.Released(t)]
          == Sections(owners) + [S.Acquired(t), S.Stored(t, n + 1), S.Released(t)];
  }

  lemma QuietActions(s: F.State, a: F.Action)
    requires F.Inv(s) && F.Enabled(s, a) && Events(s, a) == []
    ensures a.Cpu? ==> !F.Critical(s.threads[a.t]) || s.threads[a.t].pc == F.LoadCounter
    ensures F.Step(s, a).counter == s.counter
  {
    if a.Cpu? {
      F.CpuStepKeepsMutualExclusion(s, a.t);
    }
  }

  lemma StepKeepsShape(s: F.State, a: F.Action, trace: seq<S.Event>, owners: seq<nat>) returns (owners': seq<nat>)
    requires F.Inv(s) && F.Enabled(s, a) && Shape(s, trace, owners)
    ensures Shape(F.Step(s, a), trace + Events(s, a), owners')
  {
    F.StepKeepsInv(s, a);
    if Events(s, a) == [] {
      QuietActions(s, a);
      OutsideKeepsShape(s, a, trace, owners);
      assert trace + Events(s, a) == trace;
      return owners;
    }
    owners' := InsideKeepsShape(s, a.t, trace, owners);
  }

  lemma TraceUnfolds(s: F.State, run: seq<F.Action>, before: seq<S.Event>)
    requires F.ValidRun(s, run) && run != []
    ensures before + Trace(s, run) == before + Events(s, run[0]) + Trace(F.Step(s, run[0]), run[1..])
  {
  }

  lemma {:induction false} RunKeepsShape(s: F.State, run: seq<F.Action>, trace: seq<S.Event>, owners: seq<nat>)
    returns (owners': seq<nat>)
    requires F.Inv(s) && F.ValidRun(s, run) && Shape(s, trace, owners)
    ensures Shape(F.Exec(s, run), trace + Trace(s, run), owners')
    decreases |run|
  {
    if run == [] {
      assert trace + Trace(s, run) == trace;
      return owners;
    }
    F.StepKeepsInv(s, run[0]);
    var now := StepKeepsShape(s, run[0], trace, owners);
    owners' := RunKeepsShape(F.Step(s, run[0]), run[1..], trace + Events(s, run[0]), now);
    TraceUnfolds(s, run, trace);
  }

  /** Every run of the mutex is one critical section after the other, and the k-th stores k. */
  lemma {:induction false} RunIsSections(counts: seq<nat>, run: seq<F.Action>) returns (owners: seq<nat>)
    requires F.ValidRun(F.Init(counts), run)
    ensures Shape(F.Exec(F.Init(counts), run), Trace(F.Init(counts), run), owners)
  {
    F.InitEstablishesInv(counts);
    owners := RunKeepsShape(F.Init(counts), run, [], []);
    assert [] + Trace(F.Init(counts), run) == Trace(F.Init(counts), run);
  }
}
