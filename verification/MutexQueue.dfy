/**
 The mutex-protected queue of semestr2/Task2/Task2_2/mutex/queue-mutex.c under any number of threads,
 one action per C statement that touches shared memory.  Memory is a sequence of cells: malloc appends
 one, free marks one, and following NULL or a freed cell sets `fault`.
 */
module MutexQueue {
  import opened BoundedFifo
  import AF = AtomicFifo

  datatype Ptr = Null | Ref(addr: nat)
  datatype Cell = Cell(val: int, next: Ptr, freed: bool)
  datatype Mutex = Free | HeldBy(t: nat)

  datatype Pc =
    | Outside
    // queue_add
    | AddMalloc       // new = malloc; new->val = val; new->next = NULL
    | AddLock
    | AddAttempt      // add_attempts++
    | AddCheck        // count == max_count ?
    | AddFullUnlock
    | AddFullFree     // free(new)
    | AddTestFirst    // !q->first ?
    | AddSetLast      // q->last = new
    | AddSetFirst     // q->first = (that value)
    | AddLinkNext     // q->last->next = new
    | AddMoveLast     // q->last = q->last->next
    | AddCount        // count++
    | AddTotal        // add_count++
    | AddUnlock
    // queue_get
    | GetLock
    | GetAttempt      // get_attempts++
    | GetCheck        // count == 0 ?
    | GetEmptyUnlock
    | GetTakeFirst    // tmp = q->first
    | GetAdvance      // q->first = q->first->next
    | GetCount        // count--
    | GetTotal        // get_count++
    | GetUnlock
    | GetReadVal      // *val = tmp->val, after the unlock
    | GetFree         // free(tmp)
    | Returning

  /** `val` is the argument of an add or the value a get has read; `node` is `new` or `tmp`. */
  datatype Thread = Thread(pc: Pc, val: int, node: Ptr, out: Out, driver: AF.Driver)

  /** Where a cell is: history information that no statement reads. */
  datatype Place = InList | Held(t: nat) | Freed

  /** The cells malloc has given out; `list`, `place`, `enq` and `deq` are history. */
  datatype Memory = Memory(cells: seq<Cell>, list: seq<nat>, place: seq<Place>, enq: seq<int>, deq: seq<int>)

  /** The fields of queue_t. */
  datatype Queue = Queue(first: Ptr, last: Ptr, count: int, max: nat, addCount: int, getCount: int,
                         addAttempts: int, getAttempts: int)

  datatype State = State(mem: Memory, q: Queue, mutex: Mutex, threads: seq<Thread>, fault: bool)

  datatype Action = Begin(t: nat, op: Op) | Stmt(t: nat) | Finish(t: nat)

  predicate At(s: State, t: nat, pc: Pc) {
    t < |s.threads| && s.threads[t].pc == pc
  }

  predicate Adding(pc: Pc) {
    || pc.AddMalloc? || pc.AddLock? || pc.AddAttempt? || pc.AddCheck? || pc.AddFullUnlock? || pc.AddFullFree?
    || pc.AddTestFirst? || pc.AddSetLast? || pc.AddSetFirst? || pc.AddLinkNext? || pc.AddMoveLast? || pc.AddCount?
    || pc.AddTotal? || pc.AddUnlock?
  }

  predicate Getting(pc: Pc) {
    !Adding(pc) && !pc.Outside? && !pc.Returning?
  }

  predicate Enabled(s: State, a: Action) {
    match a
    case Begin(t, op) => At(s, t, Outside) && AF.MayCall(s.threads[t].driver, op)
    case Finish(t) => At(s, t, Returning)
    case Stmt(t) =>
      && t < |s.threads|
      && (Adding(s.threads[t].pc) || Getting(s.threads[t].pc))
      && (s.threads[t].pc.AddLock? || s.threads[t].pc.GetLock? ==> s.mutex == Free)
  }

  predicate Live(cells: seq<Cell>, p: Ptr) {
    p.Ref? && p.addr < |cells| && !cells[p.addr].freed
  }

  function With(s: State, t: nat, th: Thread): State
    requires t < |s.threads|
  {
    s.(threads := s.threads[t := th])
  }

  function Goto(s: State, t: nat, pc: Pc): State
    requires t < |s.threads|
  {
    With(s, t, s.threads[t].(pc := pc))
  }

  function Return(s: State, t: nat, out: Out): State
    requires t < |s.threads|
  {
    With(s, t, s.threads[t].(pc := Returning, out := out))
  }

  function Put(place: seq<Place>, p: Ptr, to: Place): seq<Place> {
    if p.Ref? && p.addr < |place| then place[p.addr := to] else place
  }

  function Malloc(m: Memory, t: nat, v: int): Memory {
    m.(cells := m.cells + [Cell(v, Null, false)], place := m.place + [Held(t)])
  }

  /** The new node becomes reachable: the add takes effect. */
  function Append(m: Memory, p: Ptr, v: int): Memory {
    m.(list := m.list + (if p.Ref? then [p.addr] else []), place := Put(m.place, p, InList), enq := m.enq + [v])
  }

  function Link(m: Memory, at: Ptr, p: Ptr, v: int): Memory
    requires Live(m.cells, at)
  {
    Append(m.(cells := m.cells[at.addr := m.cells[at.addr].(next := p)]), p, v)
  }

  /** `first` moves past its node: the get takes effect. */
  function Detach(m: Memory, p: Ptr, t: nat): Memory
    requires Live(m.cells, p)
  {
    m.(list := if m.list == [] then [] else m.list[1..], place := Put(m.place, p, Held(t)),
       deq := m.deq + [m.cells[p.addr].val])
  }

  function FreeCell(m: Memory, p: Ptr): Memory
    requires Live(m.cells, p)
  {
    m.(cells := m.cells[p.addr := m.cells[p.addr].(freed := true)], place := Put(m.place, p, Freed))
  }

  function AddStep(s: State, t: nat): State
    requires t < |s.threads| && Adding(s.threads[t].pc)
  {
    var th := s.threads[t];
    match th.pc
    case AddMalloc => With(s, t, th.(pc := AddLock, node := Ref(|s.mem.cells|))).(mem := Malloc(s.mem, t, th.val))
    case AddLock => Goto(s, t, AddAttempt).(mutex := HeldBy(t))
    case AddAttempt => Goto(s, t, AddCheck).(q := s.q.(addAttempts := s.q.addAttempts + 1))
    case AddCheck => Goto(s, t, if s.q.count == s.q.max then AddFullUnlock else AddTestFirst)
    case AddFullUnlock => Goto(s, t, AddFullFree).(mutex := Free)
    case AddFullFree =>
      if Live(s.mem.cells, th.node) then Return(s, t, Added(false)).(mem := FreeCell(s.mem, th.node))
      else s.(fault := true)
    case AddTestFirst => Goto(s, t, if s.q.first == Null then AddSetLast else AddLinkNext)
    case AddSetLast => Goto(s, t, AddSetFirst).(q := s.q.(last := th.node))
    case AddSetFirst => Goto(s, t, AddCount).(q := s.q.(first := s.q.last), mem := Append(s.mem, th.node, th.val))
    case AddLinkNext =>
      if Live(s.mem.cells, s.q.last) then Goto(s, t, AddMoveLast).(mem := Link(s.mem, s.q.last, th.node, th.val))
      else s.(fault := true)
    case AddMoveLast =>
      if Live(s.mem.cells, s.q.last) then Goto(s, t, AddCount).(q := s.q.(last := s.mem.cells[s.q.last.addr].next))
      else s.(fault := true)
    case AddCount => Goto(s, t, AddTotal).(q := s.q.(count := s.q.count + 1))
    case AddTotal => Goto(s, t, AddUnlock).(q := s.q.(addCount := s.q.addCount + 1))
    case AddUnlock => Return(s, t, Added(true)).(mutex := Free)
  }

  function GetStep(s: State, t: nat): State
    requires t < |s.threads| && Getting(s.threads[t].pc)
  {
    var th := s.threads[t];
    match th.pc
    case GetLock => Goto(s, t, GetAttempt).(mutex := HeldBy(t))
    case GetAttempt => Goto(s, t, GetCheck).(q := s.q.(getAttempts := s.q.getAttempts + 1))
    case GetCheck => Goto(s, t, if s.q.count == 0 then GetEmptyUnlock else GetTakeFirst)
    case GetEmptyUnlock => Return(s, t, Empty).(mutex := Free)
    case GetTakeFirst => With(s, t, th.(pc := GetAdvance, node := s.q.first))
    case GetAdvance =>
      if Live(s.mem.cells, s.q.first) then
        Goto(s, t, GetCount).(q := s.q.(first := s.mem.cells[s.q.first.addr].next), mem := Detach(s.mem, s.q.first, t))
      else s.(fault := true)
    case GetCount => Goto(s, t, GetTotal).(q := s.q.(count := s.q.count - 1))
    case GetTotal => Goto(s, t, GetUnlock).(q := s.q.(getCount := s.q.getCount + 1))
    case GetUnlock => Goto(s, t, GetReadVal).(mutex := Free)
    case GetReadVal =>
      if Live(s.mem.cells, th.node) then With(s, t, th.(pc := GetFree, val := s.mem.cells[th.node.addr].val))
      else s.(fault := true)
    case GetFree =>
      if Live(s.mem.cells, th.node) then Return(s, t, Got(th.val)).(mem := FreeCell(s.mem, th.node))
      else s.(fault := true)
  }

  function Step(s: State, a: Action): State
    requires Enabled(s, a)
  {
    var th := s.threads[a.t];
    match a
    case Begin(t, Add(v)) => With(s, t, th.(pc := AddMalloc, val := v))
    case Begin(t, Get) => Goto(s, t, GetLock)
    case Finish(t) => With(s, t, th.(pc := Outside, driver := AF.AfterReturn(th.driver, th.out)))
    case Stmt(t) => if Adding(th.pc) then AddStep(s, t) else GetStep(s, t)
  }

  function Init(max: nat, drivers: seq<AF.Driver>): State {
    State(Memory([], [], [], [], []), Queue(Null, Null, 0, max, 0, 0, 0, 0), Free,
          seq(|drivers|, t requires 0 <= t < |drivers| => Thread(Outside, 0, Null, Empty, drivers[t])), false)
  }

  predicate ValidRun(s: State, run: seq<Action>)
    decreases |run|
  {
    run == [] || (Enabled(s, run[0]) && ValidRun(Step(s, run[0]), run[1..]))
  }

  function Exec(s: State, run: seq<Action>): State
    requires ValidRun(s, run)
    decreases |run|
  {
    if run == [] then s else Exec(Step(s, run[0]), run[1..])
  }

  // ---------------------------------------------------------------- the inductive invariant

  predicate Locked(pc: Pc) {
    || pc.AddAttempt? || pc.AddCheck? || pc.AddFullUnlock? || pc.AddTestFirst? || pc.AddSetLast? || pc.AddSetFirst?
    || pc.AddLinkNext? || pc.AddMoveLast? || pc.AddCount? || pc.AddTotal? || pc.AddUnlock?
    || pc.GetAttempt? || pc.GetCheck? || pc.GetEmptyUnlock? || pc.GetTakeFirst? || pc.GetAdvance? || pc.GetCount?
    || pc.GetTotal? || pc.GetUnlock?
  }

  /** The adder owns its node until it is linked. */
  predicate AdderHolds(pc: Pc) {
    || pc.AddLock? || pc.AddAttempt? || pc.AddCheck? || pc.AddFullUnlock? || pc.AddFullFree? || pc.AddTestFirst?
    || pc.AddSetLast? || pc.AddSetFirst? || pc.AddLinkNext?
  }

  /** The getter owns the detached node from the moment `first` has passed it, locked or not. */
  predicate GetterHolds(pc: Pc) {
    pc.GetCount? || pc.GetTotal? || pc.GetUnlock? || pc.GetReadVal? || pc.GetFree?
  }

  predicate Holds(th: Thread) {
    AdderHolds(th.pc) || GetterHolds(th.pc)
  }

  ghost predicate MutexOk(mutex: Mutex, ts: seq<Thread>) {
    && (mutex.HeldBy? ==> mutex.t < |ts|)
    && forall t :: 0 <= t < |ts| ==> (Locked(ts[t].pc) <==> mutex == HeldBy(t))
  }

  /** Every cell ever allocated is in exactly one place: the list, one thread's hands, or freed. */
  ghost predicate Partition(m: Memory, ts: seq<Thread>) {
    && |m.place| == |m.cells|
    && (forall a :: 0 <= a < |m.cells| ==> (m.place[a] == InList <==> a in m.list))
    && (forall a :: 0 <= a < |m.cells| ==> (m.place[a] == Freed <==> m.cells[a].freed))
    && (forall a, t {:trigger m.place[a], Held(t)} :: 0 <= a < |m.cells| && 0 <= t && m.place[a] == Held(t) ==>
          t < |ts| && Holds(ts[t]) && ts[t].node == Ref(a))
    && (forall t :: 0 <= t < |ts| && Holds(ts[t]) ==>
          ts[t].node.Ref? && ts[t].node.addr < |m.cells| && m.place[ts[t].node.addr] == Held(t))
  }

  function Successor(list: seq<nat>, i: nat): Ptr {
    if i + 1 < |list| then Ref(list[i + 1]) else Null
  }

  ghost predicate ListOk(cells: seq<Cell>, list: seq<nat>) {
    && (forall i :: 0 <= i < |list| ==> list[i] < |cells|)
    && (forall i, j :: 0 <= i < j < |list| ==> list[i] != list[j])
    && (forall i {:trigger Successor(list, i)} :: 0 <= i < |list| ==> cells[list[i]].next == Successor(list, i))
  }

  /** What a thread knows about the node it holds. */
  predicate ThreadOk(cells: seq<Cell>, th: Thread) {
    && (AdderHolds(th.pc) && Live(cells, th.node) ==> cells[th.node.addr] == Cell(th.val, Null, false))
    && (th.pc == GetFree && Live(cells, th.node) ==> cells[th.node.addr].val == th.val)
  }

  function Vals(cells: seq<Cell>, list: seq<nat>): (vs: seq<int>)
    requires forall i :: 0 <= i < |list| ==> list[i] < |cells|
    ensures |vs| == |list|
  {
    seq(|list|, i requires 0 <= i < |list| => cells[list[i]].val)
  }

  ghost predicate MemoryOk(m: Memory, ts: seq<Thread>) {
    && Partition(m, ts)
    && ListOk(m.cells, m.list)
    && (forall t :: 0 <= t < |ts| ==> ThreadOk(m.cells, ts[t]))
    && m.enq == m.deq + Vals(m.cells, m.list)
  }

  /** How far `count`, and add_count minus get_count, are behind the list. */
  function Lag(pc: Pc): int {
    if pc.GetCount? then 1 else if pc.AddMoveLast? || pc.AddCount? then -1 else 0
  }

  function TotalLag(pc: Pc): int {
    if pc.GetCount? || pc.GetTotal? then 1 else if pc.AddMoveLast? || pc.AddCount? || pc.AddTotal? then -1 else 0
  }

  /** Attempts counted whose success is still open. */
  function OpenAdds(pc: Pc): int {
    if pc.AddCheck? || pc.AddTestFirst? || pc.AddSetLast? || pc.AddSetFirst? || pc.AddLinkNext? || pc.AddMoveLast?
       || pc.AddCount? || pc.AddTotal? then 1 else 0
  }

  function OpenGets(pc: Pc): int {
    if pc.GetCheck? || pc.GetTakeFirst? || pc.GetAdvance? || pc.GetCount? || pc.GetTotal? then 1 else 0
  }

  /** The queue fields describe the list, up to the statement `pc` the lock holder has reached.
      Nothing is said of `last` when the list is empty: it may dangle. */
  ghost predicate FieldsOk(q: Queue, list: seq<nat>, pc: Pc, node: Ptr) {
    var n := |list|;
    && n <= q.max
    && q.first == (if n == 0 then Null else Ref(list[0]))
    && (n > 0 && !pc.AddMoveLast? ==> q.last == Ref(list[n - 1]))
    && q.count == n + Lag(pc) && q.addCount - q.getCount == n + TotalLag(pc)
    && q.addCount + OpenAdds(pc) <= q.addAttempts && q.getCount + OpenGets(pc) <= q.getAttempts
    && (pc.AddTestFirst? || pc.AddSetLast? || pc.AddSetFirst? || pc.AddLinkNext? ==> n < q.max)
    && (pc.AddSetLast? || pc.AddSetFirst? ==> n == 0)
    && (pc.AddSetFirst? ==> q.last == node)
    && (pc.AddLinkNext? || pc.GetTakeFirst? || pc.GetAdvance? || pc.AddCount? ==> n > 0)
    && (pc.GetAdvance? ==> node == q.first)
    && (pc.AddMoveLast? ==> n > 1 && q.last == Ref(list[n - 2]))
  }

  ghost predicate QueueOk(q: Queue, list: seq<nat>, mutex: Mutex, ts: seq<Thread>) {
    if mutex.HeldBy? && mutex.t < |ts| then FieldsOk(q, list, ts[mutex.t].pc, ts[mutex.t].node)
    else FieldsOk(q, list, Outside, Null)
  }

  ghost predicate Inv(s: State) {
    && !s.fault
    && MutexOk(s.mutex, s.threads)
    && MemoryOk(s.mem, s.threads)
    && QueueOk(s.q, s.mem.list, s.mutex, s.threads)
  }
}
