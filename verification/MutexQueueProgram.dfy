/** queue-mutex.c as it runs: the queue fields, the mutex and the thread variables updated in place. */
module MutexQueueProgram {
  import opened BoundedFifo
  import opened MutexQueue
  import opened MutexQueueProofs
  import opened MutexQueueProgress
  import opened MutexQueueRefinesFifo
  import opened Sums
  import AF = AtomicFifo

  class Program {
    var mem: Memory
    var first: Ptr
    var last: Ptr
    var count: int
    const max: nat
    var addCount: int
    var getCount: int
    var addAttempts: int
    var getAttempts: int
    var mutex: Mutex
    var threads: seq<Thread>
    var fault: bool

    ghost function View(): State
      reads this
    {
      State(mem, Queue(first, last, count, max, addCount, getCount, addAttempts, getAttempts), mutex, threads, fault)
    }

    /** queue_init, and the driver's threads before their first call. */
    constructor (max: nat, drivers: seq<AF.Driver>)
      ensures View() == Init(max, drivers) && Inv(View())
    {
      first, last, this.max, count := Null, Null, max, 0;
      addCount, getCount, addAttempts, getAttempts := 0, 0, 0, 0;
      mutex, fault := Free, false;
      mem := Memory([], [], [], [], []);
      threads := seq(|drivers|, t requires 0 <= t < |drivers| => Thread(Outside, 0, Null, Empty, drivers[t]));
      new;
      InitEstablishesInv(max, drivers);
    }

    method Goto(t: nat, pc: Pc)
      requires t < |threads|
      modifies this`threads
      ensures threads == old(threads)[t := old(threads)[t].(pc := pc)]
    {
      threads := threads[t := threads[t].(pc := pc)];
    }

    method Return(t: nat, out: Out)
      requires t < |threads|
      modifies this`threads
      ensures threads == old(threads)[t := old(threads)[t].(pc := Returning, out := out)]
    {
      threads := threads[t := threads[t].(pc := Returning, out := out)];
    }

    method FreeNode(t: nat, out: Out)
      requires t < |threads|
      modifies this`threads, this`mem, this`fault
      ensures Live(old(mem.cells), old(threads)[t].node) ==>
                && mem == FreeCell(old(mem), old(threads)[t].node) && fault == old(fault)
                && threads == old(threads)[t := old(threads)[t].(pc := Returning, out := out)]
      ensures !Live(old(mem.cells), old(threads)[t].node) ==> fault && mem == old(mem) && threads == old(threads)
    {
      if Live(mem.cells, threads[t].node) {
        mem := FreeCell(mem, threads[t].node);
        Return(t, out);
      } else {
        fault := true;
      }
    }

    /** The statement of queue_add that thread `t` has reached. */
    method AddStatement(t: nat)
      requires t < |threads| && Adding(threads[t].pc)
      modifies this
      ensures View() == AddStep(old(View()), t)
    {
      var node := threads[t].node;
      match threads[t].pc
      case AddMalloc =>
        threads := threads[t := threads[t].(pc := AddLock, node := Ref(|mem.cells|))];
        mem := Malloc(mem, t, threads[t].val);
      case AddLock =>
        mutex := HeldBy(t);
        Goto(t, AddAttempt);
      case AddAttempt =>
        addAttempts := addAttempts + 1;
        Goto(t, AddCheck);
      case AddCheck =>
        Goto(t, if count == max then AddFullUnlock else AddTestFirst);
      case AddFullUnlock =>
        mutex := Free;
        Goto(t, AddFullFree);
      case AddFullFree =>
        FreeNode(t, Added(false));
      case AddTestFirst =>
        Goto(t, if first == Null then AddSetLast else AddLinkNext);
      case AddSetLast =>
        last := node;
        Goto(t, AddSetFirst);
      case AddSetFirst =>
        first := last;
        mem := Append(mem, node, threads[t].val);
        Goto(t, AddCount);
      case AddLinkNext =>
        if Live(mem.cells, last) {
          mem := Link(mem, last, node, threads[t].val);
          Goto(t, AddMoveLast);
        } else {
          fault := true;
        }
      case AddMoveLast =>
        if Live(mem.cells, last) {
          last := mem.cells[last.addr].next;
          Goto(t, AddCount);
        } else {
          fault := true;
        }
      case AddCount =>
        count := count + 1;
        Goto(t, AddTotal);
      case AddTotal =>
        addCount := addCount + 1;
        Goto(t, AddUnlock);
      case AddUnlock =>
        mutex := Free;
        Return(t, Added(true));
    }

    /** The statement of queue_get that thread `t` has reached. */
    method GetStatement(t: nat)
      requires t < |threads| && Getting(threads[t].pc)
      modifies this
      ensures View() == GetStep(old(View()), t)
    {
      var node := threads[t].node;
      match threads[t].pc
      case GetLock =>
        mutex := HeldBy(t);
        Goto(t, GetAttempt);
      case GetAttempt =>
        getAttempts := getAttempts + 1;
        Goto(t, GetCheck);
      case GetCheck =>
        Goto(t, if count == 0 then GetEmptyUnlock else GetTakeFirst);
      case GetEmptyUnlock =>
        mutex := Free;
        Return(t, Empty);
      case GetTakeFirst =>
        threads := threads[t := threads[t].(pc := GetAdvance, node := first)];
      case GetAdvance =>
        if Live(mem.cells, first) {
          mem, first := Detach(mem, first, t), mem.cells[first.addr].next;
          Goto(t, GetCount);
        } else {
          fault := true;
        }
      case GetCount =>
        count := count - 1;
        Goto(t, GetTotal);
      case GetTotal =>
        getCount := getCount + 1;
        Goto(t, GetUnlock);
      case GetUnlock =>
        mutex := Free;
        Goto(t, GetReadVal);
      case GetReadVal =>
        if Live(mem.cells, node) {
          threads := threads[t := threads[t].(pc := GetFree, val := mem.cells[node.addr].val)];
        } else {
          fault := true;
        }
      case GetFree =>
        FreeNode(t, Got(threads[t].val));
    }

    /** One action, chosen by the scheduler, never faults and keeps the invariant. */
    method Perform(a: Action)
      requires Inv(View()) && Enabled(View(), a)
      modifies this
      ensures View() == Step(old(View()), a) && Inv(View()) && !fault
    {
      StepKeepsInv(View(), a);
      var t := a.t;
      match a
      case Begin(_, Add(v)) => threads := threads[t := threads[t].(pc := AddMalloc, val := v)];
      case Begin(_, Get) => Goto(t, GetLock);
      case Finish(_) =>
        var th := threads[t];
        threads := threads[t := th.(pc := Outside, driver := AF.AfterReturn(th.driver, th.out))];
      case Stmt(_) =>
        if Adding(threads[t].pc) {
          AddStatement(t);
        } else {
          GetStatement(t);
        }
    }

    /** The state the fields hold, for the scheduler to look at. */
    method Snapshot() returns (s: State)
      ensures s == View()
    {
      var q := Queue(first, last, count, max, addCount, getCount, addAttempts, getAttempts);
      s := State(mem, q, mutex, threads, fault);
    }

    /** Runs the threads as the schedule says, passing over what is not possible; `trace` is what the
        callers saw. */
    method Follow(schedule: seq<Action>) returns (trace: seq<AF.Event>, ghost run: seq<Action>)
      requires Inv(View())
      modifies this
      ensures Inv(View()) && ValidRun(old(View()), run)
      ensures View() == Exec(old(View()), run) && trace == Trace(old(View()), run)
      decreases |schedule|
    {
      if schedule == [] {
        return [], [];
      }
      var a := schedule[0];
      var s := Snapshot();
      if !Enabled(s, a) {
        trace, run := Follow(schedule[1..]);
        return;
      }
      Perform(a);
      trace, run := Follow(schedule[1..]);
      ghost var rest := run;
      trace, run := Events(s, a) + trace, [a] + rest;
      assert run[1..] == rest;
    }

    /** Lets every pending call return, whoever holds the lock. */
    method CompleteCalls() returns (trace: seq<AF.Event>, ghost run: seq<Action>)
      requires Inv(View())
      modifies this
      ensures Inv(View()) && NoCalls(View()) && ValidRun(old(View()), run)
      ensures View() == Exec(old(View()), run) && trace == Trace(old(View()), run)
      decreases Sum(Ranks(threads))
    {
      var t := 0;
      while t < |threads| && threads[t].pc == Outside
        invariant 0 <= t <= |threads| && forall u :: 0 <= u < t ==> threads[u].pc == Outside
      {
        t := t + 1;
      }
      if t == |threads| {
        return [], [];
      }
      var s := Snapshot();
      var a := NextAction(s, t);
      SomebodyCanMove(s, t);
      RankAfter(s, a);
      SumNonNegative(Ranks(threads));
      Perform(a);
      trace, run := CompleteCalls();
      ghost var rest := run;
      trace, run := Events(s, a) + trace, [a] + rest;
      assert run[1..] == rest;
    }
  }

  lemma {:induction false} RunsJoin(s: State, r1: seq<Action>, r2: seq<Action>)
    requires ValidRun(s, r1) && ValidRun(Exec(s, r1), r2)
    ensures ValidRun(s, r1 + r2) && Exec(s, r1 + r2) == Exec(Exec(s, r1), r2)
    decreases |r1|
  {
    if r1 == [] {
      assert r1 + r2 == r2;
    } else {
      assert (r1 + r2)[1..] == r1[1..] + r2;
      RunsJoin(Step(s, r1[0]), r1[1..], r2);
    }
  }

  lemma {:induction false} TracesJoin(s: State, r1: seq<Action>, r2: seq<Action>)
    requires ValidRun(s, r1) && ValidRun(Exec(s, r1), r2) && ValidRun(s, r1 + r2)
    ensures Trace(s, r1 + r2) == Trace(s, r1) + Trace(Exec(s, r1), r2)
    decreases |r1|
  {
    if r1 == [] {
      assert r1 + r2 == r2;
    } else {
      var rest := r1[1..];
      assert (r1 + r2)[1..] == rest + r2;
      TracesJoin(Step(s, r1[0]), rest, r2);
    }
  }

  /** queue_init, any schedule of any threads, and then the calls still open: everybody returns, and the
      calls and returns are those of an atomic bounded FIFO that loses nothing. */
  method Drive(max: nat, drivers: seq<AF.Driver>, schedule: seq<Action>)
    returns (trace: seq<AF.Event>, threads: seq<Thread>, fault: bool, ghost atomic: seq<AF.Action>)
    ensures !fault && |threads| == |drivers| && forall t :: 0 <= t < |threads| ==> threads[t].pc == Outside
    ensures AF.ValidRun(AF.Init(max, drivers), atomic) && AF.Trace(AF.Init(max, drivers), atomic) == trace
    ensures AF.Conserved(AF.Exec(AF.Init(max, drivers), atomic))
    ensures drivers == [AF.Writer(0), AF.Reader(0, 0)] ==> threads[1].driver.Reader? && threads[1].driver.errors == 0
  {
    var p := new Program(max, drivers);
    ghost var s0, r1, r2, run := Init(max, drivers), [], [], [];
    trace, r1 := p.Follow(schedule);
    var rest;
    rest, r2 := p.CompleteCalls();
    trace, threads, fault := trace + rest, p.threads, p.fault;
    RunsJoin(s0, r1, r2);
    TracesJoin(s0, r1, r2);
    run := r1 + r2;
    RunDebt(s0, run);
    Linearizable(max, drivers, run);
    atomic := AbsRun(s0, run);
    if drivers == [AF.Writer(0), AF.Reader(0, 0)] {
      ReaderSeesEveryValueInOrder(max, run);
    }
  }
}
