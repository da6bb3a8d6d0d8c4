/** The traversals of semestr2/Task2/Task2_3 as they run: locks and thread variables updated in place. */
module LockedListProgram {
  import opened LockedList
  import opened Wrappers
  import opened LockedListProgress
  import Sums

  class Program {
    const lens: seq<nat>
    const mutexes: bool
    var locks: seq<RwLock>
    var threads: seq<Thread>
    var fault: bool

    ghost function View(): State
      reads this
    {
      State(lens, mutexes, locks, threads, fault)
    }

    constructor (lens: seq<nat>, mutexes: bool, roles: seq<Role>)
      ensures View() == Init(lens, mutexes, roles) && Inv(View())
    {
      this.lens, this.mutexes, fault := lens, mutexes, false;
      locks := seq(|lens|, _ => RwLock({}, {}));
      threads := seq(|roles|, t requires 0 <= t < |roles| => Thread(roles[t], Start, 0, 0, 0, 0, 0, 0, 0, None, 0));
      new;
      LockedListProgress.InitEstablishesInv(lens, mutexes, roles);
    }

    method Set(t: nat, th: Thread)
      requires t < |threads|
      modifies this`threads
      ensures threads == old(threads)[t := th]
    {
      threads := threads[t := th];
    }

    /** The lock call and the unlock call on the node at position `p`. */
    method LockNode(t: nat, p: nat)
      requires p < |locks| && t < |threads|
      modifies this`locks
      ensures locks == old(locks)[p := Lock(old(locks)[p], t, Exclusive(mutexes, threads[t].role))]
    {
      var l := locks[p];
      if mutexes || threads[t].role.Swapper? {
        locks := locks[p := l.(writers := l.writers + {t})];
      } else {
        locks := locks[p := l.(readers := l.readers + {t})];
      }
    }

    method UnlockNode(t: nat, p: nat)
      requires p < |locks|
      modifies this`locks
      ensures locks == old(locks)[p := Unlock(old(locks)[p], t)]
    {
      locks := locks[p := RwLock(locks[p].writers - {t}, locks[p].readers - {t})];
    }

    /** Compare the pair under the two locks, or move prev, current and future under the three. */
    method WorkOnWindow(t: nat)
      requires t < |threads| && threads[t].pc.Work? && !Faulty(|lens|, threads[t])
      modifies this`threads
      ensures threads == old(threads)[t := NextThread(lens, old(threads)[t])]
    {
      var th := threads[t];
      match th.role
      case Finder(kind) =>
        var hit := Matches(kind, lens[th.pos], lens[th.pos + 1]);
        Set(t, th.(pc := Release(2, false), counter := if hit then th.counter + 1 else th.counter));
      case Swapper =>
        Set(t, th.(pc := Release(3, false), pos := th.prev, prev := th.prev + 1,
                   current := th.current + 1, future := th.future + 1));
    }

    /** The statement of thread `t` when it locks or unlocks nothing. */
    method QuietStep(t: nat)
      requires t < |threads| && !Faulty(|lens|, threads[t]) && !threads[t].pc.Acquire? && !threads[t].pc.Release?
      modifies this`threads
      ensures threads == old(threads)[t := NextThread(lens, old(threads)[t])]
    {
      var th := threads[t];
      match th.pc
      case Start =>
        if 2 <= |lens| {
          Set(t, th.(pc := Acquire(0), pos := 0, counter := 0));
        }
      case LoopTest => Set(t, th.(pc := if th.i < th.index then Acquire(0) else PassEnd));
      case Test(k) => Set(t, th.(pc := if Base(th) + k == |lens| then Release(k, true) else Acquire(k)));
      case Work => WorkOnWindow(t);
      case PassEnd =>
        Set(t, th.(pc := Start, passes := th.passes + 1,
                   result := if th.role.Finder? then Some(th.counter) else th.result));
    }

    method LockingStep(t: nat)
      requires t < |threads| && !Faulty(|locks|, threads[t]) && threads[t].pc.Acquire? && |locks| == |lens|
      modifies this`threads, this`locks
      ensures threads == old(threads)[t := NextThread(lens, old(threads)[t])]
      ensures locks == NextLocks(old(locks), mutexes, t, old(threads)[t])
    {
      var th := threads[t];
      var k := th.pc.k;
      LockNode(t, Base(th) + k);
      Set(t, th.(pc := if k + 1 == Width(th.role) then Work else Test(k + 1)));
    }

    method UnlockingStep(t: nat)
      requires t < |threads| && !Faulty(|locks|, threads[t]) && threads[t].pc.Release? && |locks| == |lens|
      modifies this`threads, this`locks
      ensures threads == old(threads)[t := NextThread(lens, old(threads)[t])]
      ensures locks == NextLocks(old(locks), mutexes, t, old(threads)[t])
    {
      var th := threads[t];
      var k, broke := th.pc.k, th.pc.broke;
      UnlockNode(t, Base(th) + k - 1);
      if k > 1 {
        Set(t, th.(pc := Release(k - 1, broke)));
      } else if broke {
        Set(t, th.(pc := PassEnd));
      } else {
        Set(t, NextIteration(th));
      }
    }

    method Perform(a: Action)
      requires Inv(View()) && Enabled(View(), a)
      modifies this
      ensures View() == Step(old(View()), a) && Inv(View()) && !fault
    {
      StepKeepsInv(View(), a);
      var t := a.t;
      assert ThreadOk(lens, threads[t]);
      NextKeepsThread(lens, threads[t]);
      if a.Pick? {
        Set(t, threads[t].(pc := LoopTest, pos := 0, i := 0, index := a.index, prev := 0, current := 1, future := 2));
      } else if threads[t].pc.Acquire? {
        LockingStep(t);
      } else if threads[t].pc.Release? {
        UnlockingStep(t);
      } else {
        QuietStep(t);
      }
    }

    method FindRunnable() returns (t: nat)
      requires Inv(View())
      ensures t <= |threads|
      ensures t < |threads| ==> MidPass(threads[t]) && Runnable(View(), t)
      ensures t == |threads| ==> Quiet(View())
    {
      var s := State(lens, mutexes, locks, threads, fault);
      t := 0;
      while t < |threads|
        invariant 0 <= t <= |threads|
        invariant forall u :: 0 <= u < t ==> !(MidPass(threads[u]) && Runnable(s, u))
      {
        if MidPass(threads[t]) && Runnable(s, t) {
          return;
        }
        t := t + 1;
      }
      if u :| 0 <= u < |threads| && MidPass(threads[u]) {
        ghost var v := SomebodyRuns(View(), u);
        assert false;
      }
    }

    /** Lets every thread finish the pass it is in; afterwards no lock is held. */
    method Drain() returns (steps: nat)
      requires Inv(View())
      modifies this
      ensures Inv(View()) && Quiet(View()) && forall p :: 0 <= p < |locks| ==> locks[p] == RwLock({}, {})
      ensures steps <= old(Sums.Sum(Rests(lens, threads)))
    {
      steps := 0;
      RestNonNegative(View());
      while true
        invariant Inv(View()) && 0 <= Sums.Sum(Rests(lens, threads))
        invariant steps + Sums.Sum(Rests(lens, threads)) <= old(Sums.Sum(Rests(lens, threads)))
        decreases Sums.Sum(Rests(lens, threads))
      {
        RestNonNegative(View());
        var t := FindRunnable();
        if t == |threads| {
          QuietHoldsNothing(View());
          return;
        }
        GoReducesRest(View(), t);
        Perform(Go(t));
        RestNonNegative(View());
        steps := steps + 1;
      }
    }
  }
}
