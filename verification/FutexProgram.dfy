/**
 mutex.c as it runs: the lock word, the counter and the thread table are updated in place, one
 method per atomic action, and `Finish` is a scheduler that runs the program to its end.
 */
module FutexProgram {
  import opened FutexMutex
  import opened Sums
  import opened LockWord

  class Program {
    var lock: int
    var counter: int
    var threads: seq<Thread>

    ghost function View(): State
      reads this
    {
      State(lock, counter, threads)
    }

    /** mutex_init, and the threads at the top of their loops. */
    constructor (counts: seq<nat>)
      ensures View() == Init(counts)
    {
      lock, counter := 1, 0;
      threads := seq(|counts|, t requires 0 <= t < |counts| => Thread(LoopHead, 0, counts[t], 0));
    }

    method Goto(t: nat, pc: Pc)
      requires t < |threads|
      modifies this`threads
      ensures View() == FutexMutex.Goto(old(View()), t, pc)
    {
      threads := threads[t := threads[t].(pc := pc)];
    }

    /** Section 7.17.7.4 of ISO/IEC 9899:2011: compare and, when equal, store, in one action. */
    method CompareExchange(expected: int, desired: int) returns (ok: bool)
      modifies this`lock
      ensures ok == (old(lock) == expected)
      ensures lock == if ok then desired else old(lock)
    {
      ok := lock == expected;
      if ok {
        lock := desired;
      }
    }

    method LockCas(t: nat)
      requires At(View(), t, TryLock)
      modifies this
      ensures View() == Step(old(View()), Cpu(t))
    {
      var ok := CompareExchange(STATUS_UNLOCK, STATUS_LOCK);
      Goto(t, if ok then LoadCounter else FutexWait);
    }

    method Wait(t: nat)
      requires At(View(), t, FutexWait)
      modifies this
      ensures View() == Step(old(View()), Cpu(t))
    {
      Goto(t, if lock == STATUS_LOCK then Asleep else TryLock);
    }

    method Increment(t: nat)
      requires At(View(), t, LoadCounter) || At(View(), t, StoreCounter)
      modifies this
      ensures View() == Step(old(View()), Cpu(t))
    {
      if threads[t].pc == LoadCounter {
        threads := threads[t := threads[t].(pc := StoreCounter, reg := counter)];
      } else {
        counter := threads[t].reg + 1;
        Goto(t, Unlock);
      }
    }

    method UnlockCas(t: nat)
      requires At(View(), t, Unlock)
      modifies this
      ensures View() == Step(old(View()), Cpu(t))
    {
      var ok := CompareExchange(STATUS_LOCK, STATUS_UNLOCK);
      if ok {
        Goto(t, FutexWake);
      } else {
        threads := threads[t := threads[t].(pc := LoopHead, i := threads[t].i + 1)];
      }
    }

    method WakeOne(a: Action)
      requires Enabled(View(), a) && !a.SpuriousWake? && At(View(), a.t, FutexWake)
      modifies this
      ensures View() == Step(old(View()), a)
    {
      if a.Wake? {
        Goto(a.sleeper, TryLock);
      }
      threads := threads[a.t := threads[a.t].(pc := LoopHead, i := threads[a.t].i + 1)];
    }

    method Perform(a: Action)
      requires Enabled(View(), a)
      modifies this
      ensures View() == Step(old(View()), a)
    {
      if a.SpuriousWake? {
        Goto(a.t, TryLock);
        return;
      }
      match threads[a.t].pc
      case LoopHead => Goto(a.t, if threads[a.t].i < threads[a.t].count then TryLock else Finished);
      case TryLock => LockCas(a.t);
      case FutexWait => Wait(a.t);
      case LoadCounter => Increment(a.t);
      case StoreCounter => Increment(a.t);
      case Unlock => UnlockCas(a.t);
      case FutexWake => WakeOne(a);
    }

    /** The invariant, for threads that are to make `counts` iterations. */
    ghost predicate Running(counts: seq<nat>)
      reads this
    {
      && Inv(View())
      && |threads| == |counts|
      && forall t :: 0 <= t < |counts| ==> threads[t].count == counts[t]
    }

    method Advance(a: Action, ghost counts: seq<nat>)
      requires Running(counts) && Enabled(View(), a) && !a.SpuriousWake?
      modifies this
      ensures Running(counts) && View() == Step(old(View()), a)
      ensures 0 <= Work(View()) < old(Work(View()))
    {
      StepReducesWork(View(), a);
      StepKeepsInv(View(), a);
      Perform(a);
      WorkNonNegative(View());
    }

    /** From every state that keeps the invariant there is a finite continuation that ends with
        every thread finished and every increment counted; the loop is that continuation. */
    method Finish(ghost counts: seq<nat>) returns (steps: nat)
      requires Running(counts)
      modifies this
      ensures AllFinished(View()) && counter == Sum(counts) && lock == STATUS_UNLOCK
      ensures steps <= old(Work(View()))
    {
      steps := 0;
      WorkNonNegative(View());
      ghost var work := Work(View());
      while true
        invariant Running(counts)
        invariant work == Work(View()) && 0 <= work && steps + work <= old(Work(View()))
        decreases work
      {
        var c := Choose(State(lock, counter, threads));
        if c.None? {
          FinishedCounterIsTotal(View(), counts);
          return;
        }
        Advance(c.value, counts);
        work := Work(View());
        steps := steps + 1;
      }
    }
  }
}
