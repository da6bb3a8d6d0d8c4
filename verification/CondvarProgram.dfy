/** queue-condvar.c as it runs: the shared fields, the mutex and the thread variables updated in place. */
module CondvarProgram {
  import opened CondvarQueue
  import opened CondvarPair
  import opened CondvarDeadlock
  import BoundedFifo

  /** Actions the pair can still take before the reader has completed `n` calls. */
  ghost function Remaining(s: State, n: nat): int
    requires PairInv(s)
  {
    13 * (2 * n + 2 - Completed(s)) + Work(s)
  }

  lemma MoveKeepsPair(s: State, a: Action, n: nat)
    requires PairInv(s) && NobodyForgotten(s) && s.sh.max != 0 && Enabled(s, a) && !a.Spurious?
    ensures PairInv(Step(s, a)) && NobodyForgotten(Step(s, a)) && Step(s, a).sh.max == s.sh.max
    ensures Remaining(Step(s, a), n) < Remaining(s, n)
    ensures s.threads[1].role.expected < n ==> 0 <= Remaining(s, n)
  {
    PairStep(s, a);
    NobodyForgottenStep(s, a);
    StepWork(s, a);
    assert |s.sh.sent| == |s.sh.got| + |s.sh.queue|;
  }

  class Program {
    var flag: Flag
    var count: int
    const max: int
    var queue: seq<int>
    var sent: seq<int>
    var got: seq<int>
    var fault: bool
    var mutex: Mutex
    var threads: seq<Thread>

    ghost function View(): State
      reads this
    {
      State(Shared(flag, count, max, queue, sent, got, fault), mutex, threads)
    }

    constructor (max: int, roles: seq<Role>)
      ensures View() == Init(max, roles) && Inv(View())
    {
      flag, count, this.max, mutex, fault := OK, 0, max, Free, false;
      queue, sent, got := [], [], [];
      threads := seq(|roles|, t requires 0 <= t < |roles| => Thread(Lock, roles[t], -1));
    }

    method Goto(t: nat, pc: Pc)
      requires t < |threads|
      modifies this`threads
      ensures threads == old(threads)[t := old(threads)[t].(pc := pc)]
    {
      threads := threads[t := threads[t].(pc := pc)];
    }

    /** pthread_cond_wait releases the mutex and starts to wait in one action. */
    method TestAndWait(t: nat)
      requires At(View(), t, Check)
      modifies this
      ensures View() == Step(old(View()), Cpu(t))
    {
      var wait := if threads[t].role.Writer? then count == max || flag == NOK else count == 0 || flag == OK;
      if wait {
        mutex := Free;
        Goto(t, Waiting);
      } else {
        Goto(t, Transfer);
      }
    }

    method MoveItem(t: nat)
      requires At(View(), t, Transfer)
      modifies this
      ensures View() == Step(old(View()), Cpu(t))
    {
      match threads[t].role
      case Writer(i) =>
        queue, sent := queue + [i], sent + [i];
        Goto(t, Count);
      case Reader(_, _) =>
        if queue == [] {
          fault := true;
          Goto(t, Count);
        } else {
          threads := threads[t := threads[t].(pc := Count, val := queue[0])];
          queue, got := queue[1..], got + [queue[0]];
        }
    }

    /** pthread_cond_signal: wakes a waiter if there is one. */
    method SignalOne(a: Action)
      requires Enabled(View(), a) && !a.Spurious? && At(View(), a.t, Signal)
      modifies this
      ensures View() == Step(old(View()), a)
    {
      if a.Wake? {
        Goto(a.waiter, Lock);
      }
      Goto(a.t, Unlock);
    }

    method Perform(a: Action)
      requires Inv(View()) && Enabled(View(), a)
      modifies this
      ensures View() == Step(old(View()), a) && Inv(View()) && !fault
    {
      StepKeepsInv(View(), a);
      var t := a.t;
      if a.Spurious? {
        Goto(t, Lock);
        return;
      }
      match threads[t].pc
      case Lock =>
        mutex := HeldBy(t);
        Goto(t, Check);
      case Check => TestAndWait(t);
      case Transfer => MoveItem(t);
      case Count =>
        count := if threads[t].role.Writer? then count + 1 else count - 1;
        Goto(t, SetFlag);
      case SetFlag =>
        flag := if threads[t].role.Writer? then NOK else OK;
        Goto(t, Signal);
      case Signal => SignalOne(a);
      case Unlock =>
        mutex := Free;
        Goto(t, Back);
      case Back =>
        threads := threads[t := AfterCall(threads[t])];
    }

    method Snapshot() returns (s: State)
      ensures s == View()
    {
      s := State(Shared(flag, count, max, queue, sent, got, fault), mutex, threads);
    }

    /** Runs the threads as the schedule says, passing over what is not possible. */
    method Follow(schedule: seq<Action>, ghost start: State, ghost before: seq<Action>) returns (ghost run: seq<Action>)
      requires Inv(View()) && ValidRun(start, before) && Exec(start, before) == View()
      modifies this
      ensures Inv(View()) && ValidRun(start, run) && Exec(start, run) == View()
    {
      run := before;
      for k := 0 to |schedule|
        invariant Inv(View()) && ValidRun(start, run) && Exec(start, run) == View()
      {
        var s := Snapshot();
        if Enabled(s, schedule[k]) {
          OneMoreAction(start, run, schedule[k]);
          Perform(schedule[k]);
          run := run + [schedule[k]];
        }
      }
    }

    /** The pair keeps going until the reader has completed `n` calls. */
    method DeliverUpTo(n: nat, ghost start: State, ghost before: seq<Action>) returns (ghost run: seq<Action>)
      requires PairInv(View()) && NobodyForgotten(View()) && max != 0
      requires ValidRun(start, before) && Exec(start, before) == View()
      modifies this
      ensures PairInv(View()) && ValidRun(start, run) && Exec(start, run) == View()
      ensures n <= threads[1].role.expected
    {
      run := before;
      while threads[1].role.expected < n
        invariant PairInv(View()) && NobodyForgotten(View()) && ValidRun(start, run) && Exec(start, run) == View()
        decreases Remaining(View(), n)
      {
        var s := Snapshot();
        var a := NextMove(s);
        NextMoveEnabled(s);
        MoveKeepsPair(s, a, n);
        OneMoreAction(start, run, a);
        Perform(a);
        run := run + [a];
      }
    }
  }

  /** The driver: any schedule, with whatever spurious wakeups it has, and then the pair by itself until
      `n` values have arrived.  They are 0, 1, 2, ..., the check on `expected` never fires, and it takes
      at most 26 actions for each. */
  method Drive(max: int, schedule: seq<Action>, n: nat)
    returns (got: seq<int>, errors: nat, fault: bool, ghost run: seq<Action>)
    requires max != 0
    ensures !fault && errors == 0 && BoundedFifo.Counting(got) && n <= |got|
    ensures ValidRun(Pair(max), run) && Exec(Pair(max), run).sh.got == got
    ensures |run| <= 26 * |got| + 50 + 3 * Spuriouses(run)
  {
    var p := new Program(max, [Writer(0), Reader(0, 0)]);
    run := p.Follow(schedule, Pair(max), []);
    PairRun(Pair(max), run);
    NobodyForgottenRun(Pair(max), run);
    run := p.DeliverUpTo(n, Pair(max), run);
    EveryScheduleDelivers(max, run);
    ReaderSeesEveryValueInOrder(max, run);
    got, errors, fault := p.got, p.threads[1].role.errors, p.fault;
  }
}
