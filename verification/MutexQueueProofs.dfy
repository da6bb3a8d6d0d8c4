/** Every interleaving of queue-mutex.c keeps the invariant: no memory fault, sole ownership, FIFO order. */
module MutexQueueProofs {
  import opened BoundedFifo
  import opened MutexQueue
  import AF = AtomicFifo

  // ---------------------------------------------------------------- how memory moves

  lemma MemoryKept(m: Memory, ts: seq<Thread>, t: nat, th: Thread)
    requires MemoryOk(m, ts) && t < |ts| && ThreadOk(m.cells, th)
    requires Holds(th) == Holds(ts[t]) && (Holds(th) ==> th.node == ts[t].node)
    ensures MemoryOk(m, ts[t := th])
  {
  }

  lemma AfterMalloc(m: Memory, ts: seq<Thread>, t: nat, th: Thread)
    requires MemoryOk(m, ts) && t < |ts| && !Holds(ts[t])
    requires AdderHolds(th.pc) && th.node == Ref(|m.cells|)
    ensures MemoryOk(Malloc(m, t, th.val), ts[t := th])
  {
  }

  /** Cell `a` leaves the place it was in, and every other cell stays where it is. */
  lemma PartitionMoves(m: Memory, m': Memory, ts: seq<Thread>, t: nat, th: Thread, a: nat, to: Place)
    requires Partition(m, ts) && t < |ts| && a < |m.cells| == |m'.cells| && m'.place == m.place[a := to]
    requires m.place[a] == (if Holds(ts[t]) then Held(t) else InList)
    requires if Holds(th) then to == Held(t) && th.node == Ref(a) else !to.Held?
    requires forall b :: 0 <= b < |m.cells| && b != a ==>
                           (b in m'.list <==> b in m.list) && m'.cells[b].freed == m.cells[b].freed
    requires (a in m'.list <==> to == InList) && (m'.cells[a].freed <==> to == Freed)
    ensures Partition(m', ts[t := th])
  {
  }

  /** Nobody else's node is touched when only `a` changes. */
  lemma OthersKeepTheirNodes(m: Memory, cells': seq<Cell>, ts: seq<Thread>, t: nat, th: Thread, a: nat)
    requires MemoryOk(m, ts) && t < |ts| && a < |m.cells| == |cells'|
    requires m.place[a] == Held(t) || m.place[a] == InList
    requires forall b :: 0 <= b < |m.cells| && b != a ==> cells'[b] == m.cells[b]
    requires ThreadOk(cells', th)
    ensures var ts' := ts[t := th]; forall u :: 0 <= u < |ts'| ==> ThreadOk(cells', ts'[u])
  {
  }

  lemma AppendedList(cells: seq<Cell>, cells': seq<Cell>, list: seq<nat>, a: nat)
    requires ListOk(cells, list) && a < |cells| == |cells'| && a !in list && cells[a].next == Null
    requires cells' == if list == [] then cells
                       else var z := list[|list| - 1]; cells[z := cells[z].(next := Ref(a))]
    ensures ListOk(cells', list + [a])
    ensures Vals(cells', list + [a]) == Vals(cells, list) + [cells[a].val]
  {
    var l' := list + [a];
    forall i | 0 <= i < |l'|
      ensures cells'[l'[i]].next == Successor(l', i)
      ensures cells'[l'[i]].val == cells[l'[i]].val
    {
      assert i < |list| ==> cells[list[i]].next == Successor(list, i);
      if i < |list| {
        assert list[i] in list;
      }
    }
  }

  lemma TailList(cells: seq<Cell>, list: seq<nat>)
    requires ListOk(cells, list) && list != []
    ensures ListOk(cells, list[1..])
    ensures list[0] !in list[1..] && forall b :: b != list[0] ==> (b in list <==> b in list[1..])
  {
    forall i | 0 <= i < |list[1..]|
      ensures cells[list[1..][i]].next == Successor(list[1..], i)
    {
      assert cells[list[i + 1]].next == Successor(list, i + 1);
    }
  }

  /** Linking the adder's node at the end of the list. */
  lemma AfterAppend(m: Memory, m': Memory, ts: seq<Thread>, t: nat, th: Thread)
    requires MemoryOk(m, ts) && t < |ts| && AdderHolds(ts[t].pc) && !Holds(th)
    requires m.list == [] ==> m' == Append(m, ts[t].node, ts[t].val)
    requires m.list != [] ==> Live(m.cells, Ref(m.list[|m.list| - 1]))
                              && m' == Link(m, Ref(m.list[|m.list| - 1]), ts[t].node, ts[t].val)
    ensures MemoryOk(m', ts[t := th])
    ensures m'.list == m.list + [ts[t].node.addr] && Vals(m'.cells, m'.list) == Vals(m.cells, m.list) + [ts[t].val]
  {
    var a := ts[t].node.addr;
    AppendedList(m.cells, m'.cells, m.list, a);
    if m.list != [] {
      var z := m.list[|m.list| - 1];
      assert z in m.list;
      OthersKeepTheirNodes(m, m'.cells, ts, t, th, z);
    } else {
      OthersKeepTheirNodes(m, m'.cells, ts, t, th, a);
    }
    PartitionMoves(m, m', ts, t, th, a, InList);
    assert m'.enq == m.deq + (Vals(m.cells, m.list) + [ts[t].val]);
  }

  lemma TailVals(cells: seq<Cell>, list: seq<nat>)
    requires ListOk(cells, list) && list != []
    ensures [cells[list[0]].val] + Vals(cells, list[1..]) == Vals(cells, list)
  {
  }

  /** Detaching the first node hands it to thread `t`. */
  lemma AfterDetach(m: Memory, ts: seq<Thread>, t: nat, th: Thread)
    requires MemoryOk(m, ts) && t < |ts| && m.list != [] && !Holds(ts[t])
    requires GetterHolds(th.pc) && !th.pc.GetFree? && th.node == Ref(m.list[0])
    ensures Live(m.cells, Ref(m.list[0])) && MemoryOk(Detach(m, Ref(m.list[0]), t), ts[t := th])
  {
    var a, ts' := m.list[0], ts[t := th];
    assert a in m.list;
    var m' := Detach(m, Ref(a), t);
    TailList(m.cells, m.list);
    TailVals(m.cells, m.list);
    assert Partition(m', ts') by {
      PartitionMoves(m, m', ts, t, th, a, Held(t));
    }
    assert forall u :: 0 <= u < |ts'| ==> ThreadOk(m.cells, ts'[u]);
    assert m'.deq + Vals(m.cells, m'.list) == m.deq + ([m.cells[a].val] + Vals(m.cells, m'.list));
  }

  lemma AfterFree(m: Memory, ts: seq<Thread>, t: nat, th: Thread)
    requires MemoryOk(m, ts) && t < |ts| && Holds(ts[t]) && !Holds(th)
    ensures Live(m.cells, ts[t].node) && MemoryOk(FreeCell(m, ts[t].node), ts[t := th])
  {
    var a := ts[t].node.addr;
    var m' := FreeCell(m, ts[t].node);
    PartitionMoves(m, m', ts, t, th, a, Freed);
    OthersKeepTheirNodes(m, m'.cells, ts, t, th, a);
    assert Vals(m'.cells, m'.list) == Vals(m.cells, m.list);
  }

  // ---------------------------------------------------------------- how the lock moves

  lemma MutexKept(mutex: Mutex, ts: seq<Thread>, t: nat, th: Thread)
    requires MutexOk(mutex, ts) && t < |ts| && Locked(th.pc) == Locked(ts[t].pc)
    ensures MutexOk(mutex, ts[t := th])
  {
  }

  lemma MutexTaken(ts: seq<Thread>, t: nat, th: Thread)
    requires MutexOk(Free, ts) && t < |ts| && Locked(th.pc)
    ensures MutexOk(HeldBy(t), ts[t := th])
  {
  }

  lemma MutexGiven(ts: seq<Thread>, t: nat, th: Thread)
    requires MutexOk(HeldBy(t), ts) && t < |ts| && !Locked(th.pc)
    ensures MutexOk(Free, ts[t := th])
  {
  }

  /** What the holder of the lock knows. */
  lemma Mine(s: State, t: nat)
    requires Inv(s) && t < |s.threads| && Locked(s.threads[t].pc)
    ensures s.mutex == HeldBy(t) && FieldsOk(s.q, s.mem.list, s.threads[t].pc, s.threads[t].node)
  {
  }

  lemma LastIsLive(m: Memory, ts: seq<Thread>, i: nat)
    requires MemoryOk(m, ts) && i < |m.list|
    ensures Live(m.cells, Ref(m.list[i]))
    ensures m.cells[m.list[i]].next == Successor(m.list, i)
  {
  }

  // ---------------------------------------------------------------- the statements

  /** A step of a thread outside the lock that leaves memory alone. */
  lemma LocalKeepsInv(s: State, t: nat, th: Thread)
    requires Inv(s) && t < |s.threads| && !Locked(s.threads[t].pc) && !Locked(th.pc) && ThreadOk(s.mem.cells, th)
    requires Holds(th) == Holds(s.threads[t]) && (Holds(th) ==> th.node == s.threads[t].node)
    ensures Inv(With(s, t, th))
  {
  }

  lemma LockKeepsInv(s: State, t: nat, th: Thread)
    requires Inv(s) && s.mutex == Free && t < |s.threads| && ThreadOk(s.mem.cells, th)
    requires th.pc == AddAttempt || th.pc == GetAttempt
    requires Holds(th) == Holds(s.threads[t]) && (Holds(th) ==> th.node == s.threads[t].node)
    ensures Inv(With(s, t, th).(mutex := HeldBy(t)))
  {
    MemoryKept(s.mem, s.threads, t, th);
    MutexTaken(s.threads, t, th);
  }

  lemma UnlockKeepsInv(s: State, t: nat, th: Thread)
    requires Inv(s) && t < |s.threads| && ThreadOk(s.mem.cells, th) && !Locked(th.pc)
    requires At(s, t, AddFullUnlock) || At(s, t, AddUnlock) || At(s, t, GetEmptyUnlock) || At(s, t, GetUnlock)
    requires Holds(th) == Holds(s.threads[t]) && (Holds(th) ==> th.node == s.threads[t].node)
    ensures Inv(With(s, t, th).(mutex := Free))
  {
    Mine(s, t);
    MemoryKept(s.mem, s.threads, t, th);
    MutexGiven(s.threads, t, th);
  }

  /** Statements under the lock that change the queue fields only. */
  lemma FieldStepKeepsInv(s: State, t: nat, th: Thread, q: Queue)
    requires Inv(s) && t < |s.threads| && Locked(s.threads[t].pc) && Locked(th.pc) && ThreadOk(s.mem.cells, th)
    requires Holds(th) == Holds(s.threads[t]) && (Holds(th) ==> th.node == s.threads[t].node)
    requires FieldsOk(q, s.mem.list, th.pc, th.node)
    ensures Inv(With(s, t, th).(q := q))
  {
  }

  lemma MoveLastFields(q: Queue, list: seq<nat>, node: Ptr)
    requires FieldsOk(q, list, AddMoveLast, node)
    ensures FieldsOk(q.(last := Ref(list[|list| - 1])), list, AddCount, node)
  {
  }

  lemma AdvanceFields(q: Queue, cells: seq<Cell>, list: seq<nat>, node: Ptr)
    requires FieldsOk(q, list, GetAdvance, node) && ListOk(cells, list)
    ensures FieldsOk(q.(first := cells[list[0]].next), list[1..], GetCount, node)
  {
    assert cells[list[0]].next == Successor(list, 0);
  }

  lemma AddTestsKeepInv(s: State, t: nat)
    requires Inv(s) && (At(s, t, AddTestFirst) || At(s, t, AddSetLast))
    ensures Inv(AddStep(s, t))
  {
    Mine(s, t);
    var s' := AddStep(s, t);
    FieldStepKeepsInv(s, t, s'.threads[t], s'.q);
  }

  lemma AddChecksKeepInv(s: State, t: nat)
    requires Inv(s) && (At(s, t, AddAttempt) || At(s, t, AddCheck))
    ensures Inv(AddStep(s, t))
  {
    Mine(s, t);
    var s' := AddStep(s, t);
    FieldStepKeepsInv(s, t, s'.threads[t], s'.q);
  }

  lemma MoveLastKeepsInv(s: State, t: nat)
    requires Inv(s) && At(s, t, AddMoveLast)
    ensures Inv(AddStep(s, t))
  {
    Mine(s, t);
    MoveLastFields(s.q, s.mem.list, s.threads[t].node);
    LastIsLive(s.mem, s.threads, |s.mem.list| - 2);
    FieldStepKeepsInv(s, t, s.threads[t].(pc := AddCount), s.q.(last := Ref(s.mem.list[|s.mem.list| - 1])));
  }

  lemma AddCountersKeepInv(s: State, t: nat)
    requires Inv(s) && (At(s, t, AddCount) || At(s, t, AddTotal))
    ensures Inv(AddStep(s, t))
  {
    Mine(s, t);
    var s' := AddStep(s, t);
    FieldStepKeepsInv(s, t, s'.threads[t], s'.q);
  }

  lemma GetChecksKeepInv(s: State, t: nat)
    requires Inv(s) && (At(s, t, GetAttempt) || At(s, t, GetCheck))
    ensures Inv(GetStep(s, t))
  {
    Mine(s, t);
    var s' := GetStep(s, t);
    FieldStepKeepsInv(s, t, s'.threads[t], s'.q);
  }

  lemma TakeFirstKeepsInv(s: State, t: nat)
    requires Inv(s) && At(s, t, GetTakeFirst)
    ensures Inv(GetStep(s, t))
  {
    Mine(s, t);
    FieldStepKeepsInv(s, t, s.threads[t].(pc := GetAdvance, node := s.q.first), s.q);
  }

  lemma GetCountersKeepInv(s: State, t: nat)
    requires Inv(s) && (At(s, t, GetCount) || At(s, t, GetTotal))
    ensures Inv(GetStep(s, t))
  {
    Mine(s, t);
    var s' := GetStep(s, t);
    FieldStepKeepsInv(s, t, s'.threads[t], s'.q);
  }

  /** A step outside the lock that leaves the list alone. */
  lemma MemoryStepKeepsInv(s: State, t: nat, th: Thread, m: Memory)
    requires Inv(s) && t < |s.threads| && !Locked(s.threads[t].pc) && !Locked(th.pc)
    requires MemoryOk(m, s.threads[t := th]) && m.list == s.mem.list
    ensures Inv(With(s, t, th).(mem := m))
  {
    MutexKept(s.mutex, s.threads, t, th);
  }

  lemma MallocKeepsInv(s: State, t: nat)
    requires Inv(s) && At(s, t, AddMalloc)
    ensures Inv(AddStep(s, t))
  {
    var th := s.threads[t].(pc := AddLock, node := Ref(|s.mem.cells|));
    AfterMalloc(s.mem, s.threads, t, th);
    MemoryStepKeepsInv(s, t, th, Malloc(s.mem, t, th.val));
  }

  lemma LinkKeepsInv(s: State, t: nat)
    requires Inv(s) && (At(s, t, AddSetFirst) || At(s, t, AddLinkNext))
    ensures Inv(AddStep(s, t))
    ensures var m' := AddStep(s, t).mem; Vals(m'.cells, m'.list) == Vals(s.mem.cells, s.mem.list) + [s.threads[t].val]
  {
    Mine(s, t);
    if s.mem.list != [] {
      LastIsLive(s.mem, s.threads, |s.mem.list| - 1);
    }
    var s' := AddStep(s, t);
    AfterAppend(s.mem, s'.mem, s.threads, t, s'.threads[t]);
    MutexKept(s.mutex, s.threads, t, s'.threads[t]);
  }

  lemma AdvanceKeepsInv(s: State, t: nat)
    requires Inv(s) && At(s, t, GetAdvance)
    ensures s.mem.list != [] && s.threads[t].node == s.q.first == Ref(s.mem.list[0]) && Live(s.mem.cells, s.q.first)
    ensures Inv(GetStep(s, t))
  {
    Mine(s, t);
    LastIsLive(s.mem, s.threads, 0);
    var th := s.threads[t].(pc := GetCount);
    AfterDetach(s.mem, s.threads, t, th);
    AdvanceFields(s.q, s.mem.cells, s.mem.list, th.node);
    MutexKept(s.mutex, s.threads, t, th);
  }

  lemma FreeKeepsInv(s: State, t: nat, out: Out)
    requires Inv(s) && (At(s, t, AddFullFree) || At(s, t, GetFree))
    ensures Live(s.mem.cells, s.threads[t].node)
    ensures Inv(Return(s, t, out).(mem := FreeCell(s.mem, s.threads[t].node)))
  {
    var th := s.threads[t].(pc := Returning, out := out);
    AfterFree(s.mem, s.threads, t, th);
    MemoryStepKeepsInv(s, t, th, FreeCell(s.mem, s.threads[t].node));
  }

  lemma ReadValKeepsInv(s: State, t: nat)
    requires Inv(s) && At(s, t, GetReadVal)
    ensures Inv(GetStep(s, t))
  {
    assert Live(s.mem.cells, s.threads[t].node);
    LocalKeepsInv(s, t, GetStep(s, t).threads[t]);
  }

  lemma AddLockedKeepsInv(s: State, t: nat)
    requires Inv(s) && t < |s.threads| && Adding(s.threads[t].pc) && Locked(s.threads[t].pc)
    ensures Inv(AddStep(s, t))
  {
    var th := s.threads[t];
    match th.pc
    case AddAttempt => AddChecksKeepInv(s, t);
    case AddCheck => AddChecksKeepInv(s, t);
    case AddFullUnlock => UnlockKeepsInv(s, t, th.(pc := AddFullFree));
    case AddTestFirst => AddTestsKeepInv(s, t);
    case AddSetLast => AddTestsKeepInv(s, t);
    case AddSetFirst => LinkKeepsInv(s, t);
    case AddLinkNext => LinkKeepsInv(s, t);
    case AddMoveLast => MoveLastKeepsInv(s, t);
    case AddCount => AddCountersKeepInv(s, t);
    case AddTotal => AddCountersKeepInv(s, t);
    case AddUnlock => UnlockKeepsInv(s, t, th.(pc := Returning, out := Added(true)));
  }

  lemma AddKeepsInv(s: State, t: nat)
    requires Inv(s) && Enabled(s, Stmt(t)) && Adding(s.threads[t].pc)
    ensures Inv(AddStep(s, t))
  {
    var th := s.threads[t];
    match th.pc
    case AddMalloc => MallocKeepsInv(s, t);
    case AddLock => LockKeepsInv(s, t, th.(pc := AddAttempt));
    case AddFullFree => FreeKeepsInv(s, t, Added(false));
    case _ => AddLockedKeepsInv(s, t);
  }

  lemma GetEmptyUnlockKeepsInv(s: State, t: nat)
    requires Inv(s) && At(s, t, GetEmptyUnlock)
    ensures Inv(GetStep(s, t))
  {
    UnlockKeepsInv(s, t, s.threads[t].(pc := Returning, out := Empty));
  }

  lemma GetUnlockKeepsInv(s: State, t: nat)
    requires Inv(s) && At(s, t, GetUnlock)
    ensures Inv(GetStep(s, t))
  {
    UnlockKeepsInv(s, t, s.threads[t].(pc := GetReadVal));
  }

  lemma GetLockedKeepsInv(s: State, t: nat)
    requires Inv(s) && t < |s.threads| && Getting(s.threads[t].pc) && Locked(s.threads[t].pc)
    ensures Inv(GetStep(s, t))
  {
    match s.threads[t].pc
    case GetAttempt => GetChecksKeepInv(s, t);
    case GetCheck => GetChecksKeepInv(s, t);
    case GetEmptyUnlock => GetEmptyUnlockKeepsInv(s, t);
    case GetTakeFirst => TakeFirstKeepsInv(s, t);
    case GetAdvance => AdvanceKeepsInv(s, t);
    case GetCount => GetCountersKeepInv(s, t);
    case GetTotal => GetCountersKeepInv(s, t);
    case GetUnlock => GetUnlockKeepsInv(s, t);
  }

  lemma GetKeepsInv(s: State, t: nat)
    requires Inv(s) && Enabled(s, Stmt(t)) && Getting(s.threads[t].pc)
    ensures Inv(GetStep(s, t))
  {
    var th := s.threads[t];
    match th.pc
    case GetLock => LockKeepsInv(s, t, th.(pc := GetAttempt));
    case GetReadVal => ReadValKeepsInv(s, t);
    case GetFree => FreeKeepsInv(s, t, Got(th.val));
    case _ => GetLockedKeepsInv(s, t);
  }

  lemma BeginKeepsInv(s: State, t: nat, op: Op)
    requires Inv(s) && Enabled(s, Begin(t, op))
    ensures Inv(Step(s, Begin(t, op)))
  {
    LocalKeepsInv(s, t, Step(s, Begin(t, op)).threads[t]);
  }

  lemma FinishKeepsInv(s: State, t: nat)
    requires Inv(s) && Enabled(s, Finish(t))
    ensures Inv(Step(s, Finish(t)))
  {
    LocalKeepsInv(s, t, Step(s, Finish(t)).threads[t]);
  }

  lemma {:induction false} StepKeepsInv(s: State, a: Action)
    requires Inv(s) && Enabled(s, a)
    ensures Inv(Step(s, a))
  {
    if a.Begin? {
      BeginKeepsInv(s, a.t, a.op);
    } else if a.Finish? {
      FinishKeepsInv(s, a.t);
    } else if Adding(s.threads[a.t].pc) {
      AddKeepsInv(s, a.t);
    } else {
      GetKeepsInv(s, a.t);
    }
  }

  lemma {:induction false} InitEstablishesInv(max: nat, drivers: seq<AF.Driver>)
    ensures Inv(Init(max, drivers))
  {
  }

  /** Safety over whole runs, for any number of readers and writers. */
  lemma {:induction false} RunKeepsInv(s: State, run: seq<Action>)
    requires Inv(s) && ValidRun(s, run)
    ensures Inv(Exec(s, run))
    decreases |run|
  {
    if run != [] {
      StepKeepsInv(s, run[0]);
      RunKeepsInv(Step(s, run[0]), run[1..]);
    }
  }

  /** The program's own asserts on `count` hold whenever they are evaluated. */
  lemma {:induction false} AssertsHold(s: State, t: nat)
    requires Inv(s) && t < |s.threads| && Locked(s.threads[t].pc)
    ensures s.threads[t].pc == AddCheck ==> s.q.count <= s.q.max
    ensures s.threads[t].pc == GetCheck ==> 0 <= s.q.count
    ensures s.threads[t].pc == AddCheck || s.threads[t].pc == GetCheck ==> s.q.count == s.q.addCount - s.q.getCount
    ensures s.q.addCount <= s.q.addAttempts && s.q.getCount <= s.q.getAttempts
  {
  }

  // ---------------------------------------------------------------- ownership

  predicate Owns(s: State, t: nat, a: nat) {
    t < |s.threads| && Holds(s.threads[t]) && s.threads[t].node == Ref(a)
  }

  /** Each allocated node is in the list, or in exactly one thread's hands, or freed: never two of these. */
  lemma {:induction false} NodeOwnership(s: State, a: nat)
    requires Inv(s) && a < |s.mem.cells|
    ensures a in s.mem.list || s.mem.cells[a].freed || exists t :: Owns(s, t, a)
    ensures !(a in s.mem.list && s.mem.cells[a].freed)
    ensures forall t :: Owns(s, t, a) ==> a !in s.mem.list && !s.mem.cells[a].freed
    ensures forall t, u :: Owns(s, t, a) && Owns(s, u, a) ==> t == u
  {
    if s.mem.place[a].Held? {
      assert s.mem.place[a] == Held(s.mem.place[a].t);
      assert Owns(s, s.mem.place[a].t, a);
    }
  }

  ghost predicate OnePlace(s: State, a: nat)
    requires a < |s.mem.cells|
  {
    || (a in s.mem.list && !s.mem.cells[a].freed && forall t :: !Owns(s, t, a))
    || (a !in s.mem.list && s.mem.cells[a].freed && forall t :: !Owns(s, t, a))
    || (a !in s.mem.list && !s.mem.cells[a].freed && exists t :: Owns(s, t, a) && forall u :: Owns(s, u, a) ==> u == t)
  }

  /** The node a statement of thread `t` reads, writes or frees. */
  function Touches(s: State, t: nat): Ptr
    requires t < |s.threads|
  {
    match s.threads[t].pc
    case AddFullFree => s.threads[t].node
    case AddLinkNext => s.q.last
    case AddMoveLast => s.q.last
    case GetAdvance => s.q.first
    case GetReadVal => s.threads[t].node
    case GetFree => s.threads[t].node
    case _ => Null
  }

  predicate IsAccess(pc: Pc) {
    pc.AddFullFree? || pc.AddLinkNext? || pc.AddMoveLast? || pc.GetAdvance? || pc.GetReadVal? || pc.GetFree?
  }

  /** Nobody follows NULL or a freed node, nobody frees twice, and nobody touches a node that another
      thread holds: under the lock a thread touches the list, otherwise its own node. */
  lemma {:induction false} TouchesOnlyItsOwn(s: State, t: nat)
    requires Inv(s) && t < |s.threads| && IsAccess(s.threads[t].pc)
    ensures Live(s.mem.cells, Touches(s, t))
    ensures var p := Touches(s, t); p.Ref? && p.addr < |s.mem.cells| && !s.mem.cells[p.addr].freed
    ensures var a := Touches(s, t).addr; Owns(s, t, a) || (s.mutex == HeldBy(t) && a in s.mem.list)
  {
  }

  /** No run faults: what a thread is about to read, write or free was never freed.  The asserts of the
      program hold where it reaches them, and each node is always in exactly one place. */
  lemma {:induction false} EveryRunIsMemorySafe(max: nat, drivers: seq<AF.Driver>, run: seq<Action>)
    requires ValidRun(Init(max, drivers), run)
    ensures var e := Exec(Init(max, drivers), run);
            && !e.fault && (forall a :: 0 <= a < |e.mem.cells| ==> OnePlace(e, a))
            && forall t :: 0 <= t < |e.threads| ==>
                 && (e.threads[t].pc == AddCheck ==> e.q.count <= e.q.max)
                 && (e.threads[t].pc == GetCheck ==> 0 <= e.q.count)
                 && (IsAccess(e.threads[t].pc) ==>
                       && var p := Touches(e, t); p.Ref? && p.addr < |e.mem.cells| && !e.mem.cells[p.addr].freed)
  {
    InitEstablishesInv(max, drivers);
    RunKeepsInv(Init(max, drivers), run);
    var e := Exec(Init(max, drivers), run);
    forall a | 0 <= a < |e.mem.cells|
      ensures OnePlace(e, a)
    {
      NodeOwnership(e, a);
    }
    forall t | 0 <= t < |e.threads| && Locked(e.threads[t].pc)
      ensures e.threads[t].pc == AddCheck ==> e.q.count <= e.q.max
      ensures e.threads[t].pc == GetCheck ==> 0 <= e.q.count
    {
      AssertsHold(e, t);
    }
    forall t | 0 <= t < |e.threads| && IsAccess(e.threads[t].pc)
      ensures var p := Touches(e, t); p.Ref? && p.addr < |e.mem.cells| && !e.mem.cells[p.addr].freed
    {
      TouchesOnlyItsOwn(e, t);
    }
  }
}

/** Linearizability: the mutex queue has the calls and returns of the atomic bounded FIFO. */
module MutexQueueRefinesFifo {
  import opened BoundedFifo
  import opened MutexQueue
  import opened MutexQueueProofs
  import AF = AtomicFifo

  function Stored(cells: seq<Cell>, p: Ptr): int {
    if p.Ref? && p.addr < |cells| then cells[p.addr].val else 0
  }

  /** A get that has detached its node owes the value still stored there, read or not. */
  function AbsStatus(cells: seq<Cell>, th: Thread): AF.Status {
    match th.pc
    case Outside => AF.Idle
    case Returning => AF.Done(th.out)
    case AddFullUnlock => AF.Done(Added(false))
    case AddFullFree => AF.Done(Added(false))
    case AddMoveLast => AF.Done(Added(true))
    case AddCount => AF.Done(Added(true))
    case AddTotal => AF.Done(Added(true))
    case AddUnlock => AF.Done(Added(true))
    case GetLock => AF.Pending(Get)
    case GetAttempt => AF.Pending(Get)
    case GetCheck => AF.Pending(Get)
    case GetTakeFirst => AF.Pending(Get)
    case GetAdvance => AF.Pending(Get)
    case GetEmptyUnlock => AF.Done(Empty)
    case GetFree => AF.Done(Got(th.val))
    case GetCount => AF.Done(Got(Stored(cells, th.node)))
    case GetTotal => AF.Done(Got(Stored(cells, th.node)))
    case GetUnlock => AF.Done(Got(Stored(cells, th.node)))
    case GetReadVal => AF.Done(Got(Stored(cells, th.node)))
    case _ => AF.Pending(Add(th.val))
  }

  function AbsClients(cells: seq<Cell>, ts: seq<Thread>): (cs: seq<AF.Client>)
    ensures |cs| == |ts|
    ensures forall t :: 0 <= t < |ts| ==> cs[t] == AF.Client(AbsStatus(cells, ts[t]), ts[t].driver)
  {
    seq(|ts|, t requires 0 <= t < |ts| => AF.Client(AbsStatus(cells, ts[t]), ts[t].driver))
  }

  ghost function Abs(s: State): AF.State
    requires ListOk(s.mem.cells, s.mem.list)
  {
    AF.State(Vals(s.mem.cells, s.mem.list), s.q.max, AbsClients(s.mem.cells, s.threads), s.mem.enq, s.mem.deq)
  }

  /** The linearization points: the full test, the link that makes the node reachable, the empty
      test, and the statement that moves `first`. */
  predicate TakesEffect(s: State, t: nat)
    requires t < |s.threads|
  {
    match s.threads[t].pc
    case AddCheck => s.q.count == s.q.max
    case AddSetFirst => true
    case AddLinkNext => true
    case GetCheck => s.q.count == 0
    case GetAdvance => true
    case _ => false
  }

  function AbsAction(s: State, a: Action): seq<AF.Action>
    requires Enabled(s, a)
  {
    match a
    case Begin(t, op) => [AF.Call(t, op)]
    case Finish(t) => [AF.Return(t)]
    case Stmt(t) => if TakesEffect(s, t) then [AF.Perform(t)] else []
  }

  function AbsRun(s: State, run: seq<Action>): seq<AF.Action>
    requires ValidRun(s, run)
    decreases |run|
  {
    if run == [] then [] else AbsAction(s, run[0]) + AbsRun(Step(s, run[0]), run[1..])
  }

  /** What a caller sees of one action. */
  function Events(s: State, a: Action): seq<AF.Event>
    requires Enabled(s, a)
  {
    match a
    case Begin(t, op) => [AF.Called(t, op)]
    case Finish(t) => [AF.Returned(t, s.threads[t].out)]
    case Stmt(_) => []
  }

  function Trace(s: State, run: seq<Action>): seq<AF.Event>
    requires ValidRun(s, run)
    decreases |run|
  {
    if run == [] then [] else Events(s, run[0]) + Trace(Step(s, run[0]), run[1..])
  }

  /** The value stored in a cell never changes, and a step is a step of one thread. */
  ghost predicate Local(s: State, s': State, t: nat) {
    && |s.mem.cells| <= |s'.mem.cells|
    && (forall b :: 0 <= b < |s.mem.cells| ==> s'.mem.cells[b].val == s.mem.cells[b].val)
    && t < |s.threads| == |s'.threads| && s'.threads == s.threads[t := s'.threads[t]]
    && s'.q.max == s.q.max
  }

  lemma AddIsLocal(s: State, t: nat)
    requires t < |s.threads| && Adding(s.threads[t].pc)
    ensures Local(s, AddStep(s, t), t)
  {
  }

  lemma GetIsLocal(s: State, t: nat)
    requires t < |s.threads| && Getting(s.threads[t].pc)
    ensures Local(s, GetStep(s, t), t)
  {
  }

  lemma {:induction false} StepIsLocal(s: State, a: Action)
    requires Enabled(s, a)
    ensures Local(s, Step(s, a), a.t)
  {
    if a.Stmt? && Adding(s.threads[a.t].pc) {
      AddIsLocal(s, a.t);
    } else if a.Stmt? {
      GetIsLocal(s, a.t);
    }
  }

  /** Hence no other client's answer changes. */
  lemma {:induction false} OtherClientsKept(m: Memory, ts: seq<Thread>, cells': seq<Cell>, t: nat, th: Thread)
    requires Partition(m, ts) && t < |ts| && |m.cells| <= |cells'|
    requires forall b :: 0 <= b < |m.cells| ==> cells'[b].val == m.cells[b].val
    ensures AbsClients(cells', ts[t := th])
              == AbsClients(m.cells, ts)[t := AF.Client(AbsStatus(cells', th), th.driver)]
  {
  }

  /** The part of the invariant that the abstraction looks at. */
  ghost predicate Listed(s: State) {
    Partition(s.mem, s.threads) && ListOk(s.mem.cells, s.mem.list)
  }

  /** One action is one action of the atomic queue, or none, with the same events. */
  ghost predicate Refines(s: State, a: Action)
    requires Enabled(s, a) && Listed(s) && Listed(Step(s, a))
  {
    var acts, s' := AbsAction(s, a), Step(s, a);
    if acts == [] then Abs(s') == Abs(s) && Events(s, a) == []
    else AF.Enabled(Abs(s), acts[0]) && Abs(s') == AF.Step(Abs(s), acts[0])
         && Events(s, a) == AF.Events(Abs(s), acts[0])
  }

  /** A step that leaves contents and records alone is a change of one client. */
  lemma ClientMoves(s: State, s': State, t: nat)
    requires Listed(s) && Listed(s') && Local(s, s', t)
    requires s'.mem.list == s.mem.list && s'.mem.enq == s.mem.enq && s'.mem.deq == s.mem.deq
    ensures var c := AF.Client(AbsStatus(s'.mem.cells, s'.threads[t]), s'.threads[t].driver);
            Abs(s') == Abs(s).(clients := Abs(s).clients[t := c])
  {
  }

  lemma BeginRefines(s: State, t: nat, op: Op)
    requires Enabled(s, Begin(t, op)) && Listed(s) && Listed(Step(s, Begin(t, op)))
    ensures Refines(s, Begin(t, op))
  {
  }

  lemma FinishRefines(s: State, t: nat)
    requires Enabled(s, Finish(t)) && Listed(s) && Listed(Step(s, Finish(t)))
    ensures Refines(s, Finish(t))
  {
  }

  lemma SilentMemory(s: State, t: nat)
    requires Enabled(s, Stmt(t)) && !TakesEffect(s, t)
    ensures var m' := Step(s, Stmt(t)).mem; m'.list == s.mem.list && m'.enq == s.mem.enq && m'.deq == s.mem.deq
  {
  }

  lemma AddSilentStatus(s: State, t: nat)
    requires t < |s.threads| && Adding(s.threads[t].pc) && !TakesEffect(s, t)
    requires IsAccess(s.threads[t].pc) ==> Live(s.mem.cells, Touches(s, t))
    ensures var s' := AddStep(s, t); AbsStatus(s'.mem.cells, s'.threads[t]) == AbsStatus(s.mem.cells, s.threads[t])
    ensures AddStep(s, t).threads[t].driver == s.threads[t].driver
  {
  }

  lemma GetSilentStatus(s: State, t: nat)
    requires t < |s.threads| && Getting(s.threads[t].pc) && !TakesEffect(s, t) && ThreadOk(s.mem.cells, s.threads[t])
    requires IsAccess(s.threads[t].pc) ==> Live(s.mem.cells, Touches(s, t))
    ensures var s' := GetStep(s, t); AbsStatus(s'.mem.cells, s'.threads[t]) == AbsStatus(s.mem.cells, s.threads[t])
    ensures GetStep(s, t).threads[t].driver == s.threads[t].driver
  {
  }

  /** A statement that is not a linearization point is invisible. */
  lemma SilentRefines(s: State, t: nat)
    requires Enabled(s, Stmt(t)) && !TakesEffect(s, t) && Listed(s) && Listed(Step(s, Stmt(t)))
    requires IsAccess(s.threads[t].pc) ==> Live(s.mem.cells, Touches(s, t))
    requires ThreadOk(s.mem.cells, s.threads[t])
    ensures Refines(s, Stmt(t))
  {
    var s' := Step(s, Stmt(t));
    StepIsLocal(s, Stmt(t));
    SilentMemory(s, t);
    if Adding(s.threads[t].pc) {
      AddSilentStatus(s, t);
    } else {
      GetSilentStatus(s, t);
    }
    ClientMoves(s, s', t);
    assert Abs(s).clients[t := Abs(s).clients[t]] == Abs(s).clients;
  }

  lemma FullRefines(s: State, t: nat)
    requires At(s, t, AddCheck) && s.q.count == s.q.max && Listed(s) && Listed(Step(s, Stmt(t)))
    requires |s.mem.list| == s.q.max
    ensures Refines(s, Stmt(t))
  {
    AF.PerformRefuses(Abs(s), t, s.threads[t].val);
    ClientMoves(s, Goto(s, t, AddFullUnlock), t);
  }

  lemma EmptyRefines(s: State, t: nat)
    requires At(s, t, GetCheck) && s.q.count == 0 && Listed(s) && Listed(Step(s, Stmt(t)))
    requires s.mem.list == []
    ensures Refines(s, Stmt(t))
  {
    AF.PerformFindsEmpty(Abs(s), t);
    ClientMoves(s, Goto(s, t, GetEmptyUnlock), t);
  }

  /** A step that makes the value of a pending add part of the contents. */
  lemma AcceptRefines(s: State, s': State, t: nat)
    requires Listed(s) && Listed(s') && Local(s, s', t) && s'.threads[t].driver == s.threads[t].driver
    requires AbsStatus(s.mem.cells, s.threads[t]) == AF.Pending(Add(s.threads[t].val)) && |s.mem.list| < s.q.max
    requires AbsStatus(s'.mem.cells, s'.threads[t]) == AF.Done(Added(true))
    requires Vals(s'.mem.cells, s'.mem.list) == Vals(s.mem.cells, s.mem.list) + [s.threads[t].val]
    requires s'.mem.enq == s.mem.enq + [s.threads[t].val] && s'.mem.deq == s.mem.deq
    ensures AF.Enabled(Abs(s), AF.Perform(t)) && Abs(s') == AF.Step(Abs(s), AF.Perform(t))
  {
    AF.PerformAccepts(Abs(s), t, s.threads[t].val);
    OtherClientsKept(s.mem, s.threads, s'.mem.cells, t, s'.threads[t]);
  }

  lemma LinkRefines(s: State, t: nat)
    requires (At(s, t, AddSetFirst) || At(s, t, AddLinkNext)) && Listed(s) && Listed(Step(s, Stmt(t)))
    requires |s.mem.list| < s.q.max && (At(s, t, AddLinkNext) ==> Live(s.mem.cells, s.q.last))
    requires var m' := AddStep(s, t).mem; Vals(m'.cells, m'.list) == Vals(s.mem.cells, s.mem.list) + [s.threads[t].val]
    ensures Refines(s, Stmt(t))
  {
    AddIsLocal(s, t);
    AcceptRefines(s, AddStep(s, t), t);
  }

  /** A step that hands the first value to a pending get. */
  lemma DeliverRefines(s: State, s': State, t: nat, v: int)
    requires Listed(s) && Listed(s') && Local(s, s', t) && s'.threads[t].driver == s.threads[t].driver
    requires AbsStatus(s.mem.cells, s.threads[t]) == AF.Pending(Get)
    requires AbsStatus(s'.mem.cells, s'.threads[t]) == AF.Done(Got(v))
    requires Vals(s.mem.cells, s.mem.list) == [v] + Vals(s'.mem.cells, s'.mem.list)
    requires s'.mem.enq == s.mem.enq && s'.mem.deq == s.mem.deq + [v]
    ensures AF.Enabled(Abs(s), AF.Perform(t)) && Abs(s') == AF.Step(Abs(s), AF.Perform(t))
  {
    AF.PerformDelivers(Abs(s), t);
    OtherClientsKept(s.mem, s.threads, s'.mem.cells, t, s'.threads[t]);
    assert Abs(s).q[1..] == Vals(s'.mem.cells, s'.mem.list);
  }

  lemma AdvanceRefines(s: State, t: nat)
    requires At(s, t, GetAdvance) && s.mem.list != [] && Listed(s) && Listed(Step(s, Stmt(t)))
    requires s.q.first == s.threads[t].node == Ref(s.mem.list[0]) && Live(s.mem.cells, s.q.first)
    ensures Refines(s, Stmt(t))
  {
    TailVals(s.mem.cells, s.mem.list);
    GetIsLocal(s, t);
    DeliverRefines(s, GetStep(s, t), t, s.mem.cells[s.mem.list[0]].val);
  }

  lemma EffectRefines(s: State, t: nat)
    requires Inv(s) && Enabled(s, Stmt(t)) && TakesEffect(s, t) && Inv(Step(s, Stmt(t)))
    ensures Refines(s, Stmt(t))
  {
    Mine(s, t);
    if IsAccess(s.threads[t].pc) {
      TouchesOnlyItsOwn(s, t);
    }
    match s.threads[t].pc
    case AddCheck => FullRefines(s, t);
    case AddSetFirst =>
      LinkKeepsInv(s, t);
      LinkRefines(s, t);
    case AddLinkNext =>
      LinkKeepsInv(s, t);
      LinkRefines(s, t);
    case GetCheck => EmptyRefines(s, t);
    case GetAdvance => AdvanceRefines(s, t);
  }

  lemma {:induction false} StepRefines(s: State, a: Action)
    requires Inv(s) && Enabled(s, a)
    ensures Inv(Step(s, a)) && Refines(s, a)
  {
    StepKeepsInv(s, a);
    match a
    case Begin(t, op) => BeginRefines(s, t, op);
    case Finish(t) => FinishRefines(s, t);
    case Stmt(t) =>
      if TakesEffect(s, t) {
        EffectRefines(s, t);
      } else {
        if IsAccess(s.threads[t].pc) {
          TouchesOnlyItsOwn(s, t);
        }
        SilentRefines(s, t);
      }
  }

  /** Linearizability of every run: the atomic FIFO has a run with the same calls and returns, in the
      same order, that ends in the same contents. */
  lemma {:induction false} RunRefines(s: State, run: seq<Action>)
    requires Inv(s) && ValidRun(s, run)
    ensures Inv(Exec(s, run))
    ensures var atomic := AbsRun(s, run);
            && AF.ValidRun(Abs(s), atomic)
            && AF.Exec(Abs(s), atomic) == Abs(Exec(s, run))
            && AF.Trace(Abs(s), atomic) == Trace(s, run)
    decreases |run|
  {
    if run != [] {
      var acts, rest := AbsAction(s, run[0]), AbsRun(Step(s, run[0]), run[1..]);
      StepRefines(s, run[0]);
      RunRefines(Step(s, run[0]), run[1..]);
      if acts == [] {
        assert AbsRun(s, run) == rest;
      } else {
        assert AbsRun(s, run)[1..] == rest;
      }
    }
  }

  lemma {:induction false} Linearizable(max: nat, drivers: seq<AF.Driver>, run: seq<Action>)
    requires ValidRun(Init(max, drivers), run)
    ensures var s0, atomic := Init(max, drivers), AbsRun(Init(max, drivers), run);
            && AF.ValidRun(AF.Init(max, drivers), atomic)
            && AF.Trace(AF.Init(max, drivers), atomic) == Trace(s0, run)
            && AF.Conserved(AF.Exec(AF.Init(max, drivers), atomic))
  {
    var s0 := Init(max, drivers);
    InitEstablishesInv(max, drivers);
    RunRefines(s0, run);
    assert Abs(s0).clients == AF.Init(max, drivers).clients;
    assert Abs(s0) == AF.Init(max, drivers);
    AF.RunConserves(AF.Init(max, drivers), AbsRun(s0, run));
  }

  /** The driver program: with one writer and one reader, the reader's `expected` check never fires. */
  lemma {:induction false} ReaderSeesEveryValueInOrder(max: nat, run: seq<Action>)
    requires ValidRun(Init(max, [AF.Writer(0), AF.Reader(0, 0)]), run)
    ensures var e := Exec(Init(max, [AF.Writer(0), AF.Reader(0, 0)]), run);
            && |e.threads| == 2 && e.threads[1].driver.Reader? && e.threads[1].driver.errors == 0
            && Counting(e.mem.enq) && e.mem.deq <= e.mem.enq
  {
    var drivers := [AF.Writer(0), AF.Reader(0, 0)];
    var s0 := Init(max, drivers);
    InitEstablishesInv(max, drivers);
    RunRefines(s0, run);
    AF.DriverRun(Abs(s0), AbsRun(s0, run));
    assert AF.DriverInv(Abs(Exec(s0, run)));
  }
}
