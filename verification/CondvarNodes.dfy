/**
 The nodes of the condition-variable queue: `first`, `last` and the cells they point to, moved along with
 the value machine of CondvarQueue.  A writer allocates and links under the mutex; a reader takes the
 first node under the mutex and frees it after the unlock.
 */
module CondvarNodes {
  import opened CondvarQueue
  import MQ = MutexQueue

  /** `tmp` is the local variable of each reader; `place` records where each node is. */
  datatype Heap = Heap(first: MQ.Ptr, last: MQ.Ptr, cells: seq<MQ.Cell>, place: seq<MQ.Place>,
                       tmp: seq<MQ.Ptr>, fault: bool)

  function AddNode(h: Heap, v: int): Heap {
    var node := MQ.Ref(|h.cells|);
    var h' := h.(cells := h.cells + [MQ.Cell(v, MQ.Null, false)], place := h.place + [MQ.InList]);
    if h.first == MQ.Null then h'.(first := node, last := node)
    else if MQ.Live(h.cells, h.last) then
      h'.(cells := h'.cells[h.last.addr := h'.cells[h.last.addr].(next := node)], last := node)
    else h.(fault := true)
  }

  function TakeNode(h: Heap, t: nat): Heap
    requires t < |h.tmp| && |h.place| == |h.cells|
  {
    if MQ.Live(h.cells, h.first) then
      h.(first := h.cells[h.first.addr].next, tmp := h.tmp[t := h.first], place := h.place[h.first.addr := MQ.Held(t)])
    else h.(fault := true)
  }

  function FreeNode(h: Heap, t: nat): Heap
    requires t < |h.tmp| && |h.place| == |h.cells|
  {
    if MQ.Live(h.cells, h.tmp[t]) then
      var a := h.tmp[t].addr;
      h.(cells := h.cells[a := h.cells[a].(freed := true)], place := h.place[a := MQ.Freed])
    else h.(fault := true)
  }

  /** What an action of the value machine does to the nodes. */
  function HeapStep(s: State, h: Heap, a: Action): Heap
    requires Enabled(s, a) && |h.tmp| == |s.threads| && |h.place| == |h.cells|
  {
    if !a.Cpu? then h
    else
      match (s.threads[a.t].pc, s.threads[a.t].role)
      case (Transfer, Writer(i)) => AddNode(h, i)
      case (Transfer, Reader(_, _)) => TakeNode(h, a.t)
      case (Back, Reader(_, _)) => FreeNode(h, a.t)
      case _ => h
  }

  function Start(n: nat): Heap {
    Heap(MQ.Null, MQ.Null, [], [], seq(n, _ => MQ.Null), false)
  }

  // ---------------------------------------------------------------- the invariant

  predicate HasNode(th: Thread) {
    th.role.Reader? && (th.pc.Count? || th.pc.SetFlag? || th.pc.Signal? || th.pc.Unlock? || th.pc.Back?)
  }

  /** The list holds the values of the queue; nothing is said of `last`, which may dangle. */
  ghost predicate ListOk(h: Heap, queue: seq<int>)
    requires |h.place| == |h.cells|
  {
    && |queue| <= 1
    && (queue == [] ==> h.first == MQ.Null)
    && (queue != [] ==> h.first.Ref? && h.first.addr < |h.cells|
                        && h.cells[h.first.addr] == MQ.Cell(queue[0], MQ.Null, false)
                        && h.place[h.first.addr] == MQ.InList)
    && (forall a :: 0 <= a < |h.cells| && h.place[a] == MQ.InList ==> h.first == MQ.Ref(a))
  }

  /** A reader that has taken a node holds it, with the value it read, until it frees it. */
  ghost predicate HeldOk(h: Heap, ts: seq<Thread>)
    requires |h.place| == |h.cells|
  {
    && |h.tmp| == |ts|
    && (forall t :: 0 <= t < |ts| && HasNode(ts[t]) ==>
          h.tmp[t].Ref? && h.tmp[t].addr < |h.cells| && h.place[h.tmp[t].addr] == MQ.Held(t)
          && h.cells[h.tmp[t].addr].val == ts[t].val)
    && (forall a, t {:trigger h.place[a], MQ.Held(t)} :: 0 <= a < |h.cells| && 0 <= t && h.place[a] == MQ.Held(t) ==>
          t < |ts| && HasNode(ts[t]) && h.tmp[t] == MQ.Ref(a))
  }

  ghost predicate HeapOk(s: State, h: Heap) {
    && !h.fault && |h.place| == |h.cells|
    && (forall a :: 0 <= a < |h.cells| ==> (h.place[a] == MQ.Freed <==> h.cells[a].freed))
    && ListOk(h, s.sh.queue) && HeldOk(h, s.threads)
  }

  lemma AddKeepsHeap(s: State, h: Heap, t: nat)
    requires HeapOk(s, h) && At(s, t, Transfer) && s.threads[t].role.Writer? && s.sh.queue == []
    ensures h.first == MQ.Null && HeapOk(Step(s, Cpu(t)), AddNode(h, s.threads[t].role.i))
  {
  }

  lemma TakeKeepsHeap(s: State, h: Heap, t: nat)
    requires HeapOk(s, h) && At(s, t, Transfer) && s.threads[t].role.Reader? && |s.sh.queue| == 1
    ensures HeapOk(Step(s, Cpu(t)), TakeNode(h, t))
  {
    assert !h.cells[h.first.addr].freed;
  }

  lemma FreeKeepsHeap(s: State, h: Heap, t: nat)
    requires HeapOk(s, h) && At(s, t, Back) && s.threads[t].role.Reader?
    ensures HeapOk(Step(s, Cpu(t)), FreeNode(h, t))
  {
    assert HasNode(s.threads[t]);
  }

  lemma HeldKept(h: Heap, ts: seq<Thread>, t: nat, th: Thread)
    requires |h.place| == |h.cells| && HeldOk(h, ts) && t < |ts|
    requires HasNode(th) == HasNode(ts[t]) && th.val == ts[t].val
    ensures HeldOk(h, ts[t := th])
  {
  }

  /** Any other action moves a thread and changes neither the queue nor who holds a node. */
  lemma OtherKeepsHeap(s: State, h: Heap, a: Action)
    requires HeapOk(s, h) && Enabled(s, a)
    requires a.Cpu? ==> s.threads[a.t].pc != Transfer && !(s.threads[a.t].pc == Back && s.threads[a.t].role.Reader?)
    ensures HeapOk(Step(s, a), h)
  {
    if a.Wake? {
      HeldKept(h, s.threads, a.waiter, s.threads[a.waiter].(pc := Lock));
    }
    var ts := if a.Wake? then Goto(s, a.waiter, Lock).threads else s.threads;
    HeldKept(h, ts, a.t, Step(s, a).threads[a.t]);
  }

  lemma {:induction false} HeapStepKeepsOk(s: State, h: Heap, a: Action)
    requires Inv(s) && HeapOk(s, h) && Enabled(s, a)
    ensures HeapOk(Step(s, a), HeapStep(s, h, a))
  {
    if a.Cpu? && s.threads[a.t].pc == Transfer {
      assert s.mutex == HeldBy(a.t);
      if s.threads[a.t].role.Writer? {
        AddKeepsHeap(s, h, a.t);
      } else {
        TakeKeepsHeap(s, h, a.t);
      }
    } else if a.Cpu? && s.threads[a.t].pc == Back && s.threads[a.t].role.Reader? {
      FreeKeepsHeap(s, h, a.t);
    } else {
      OtherKeepsHeap(s, h, a);
    }
  }

  /** The nodes are where the invariant says after every action of a run. */
  ghost predicate Follows(s: State, h: Heap, run: seq<Action>, e: Heap)
    requires ValidRun(s, run) && |h.tmp| == |s.threads| && |h.place| == |h.cells|
    decreases |run|
  {
    if run == [] then e == h
    else
      var h' := HeapStep(s, h, run[0]);
      |h'.tmp| == |Step(s, run[0]).threads| && |h'.place| == |h'.cells| && Follows(Step(s, run[0]), h', run[1..], e)
  }

  lemma {:induction false} RunKeepsHeap(s: State, h: Heap, run: seq<Action>) returns (e: Heap)
    requires Inv(s) && HeapOk(s, h) && ValidRun(s, run)
    ensures Follows(s, h, run, e) && HeapOk(Exec(s, run), e)
    decreases |run|
  {
    if run == [] {
      return h;
    }
    StepKeepsInv(s, run[0]);
    HeapStepKeepsOk(s, h, run[0]);
    e := RunKeepsHeap(Step(s, run[0]), HeapStep(s, h, run[0]), run[1..]);
  }

  predicate Owns(s: State, h: Heap, t: nat, a: nat) {
    t < |s.threads| && t < |h.tmp| && HasNode(s.threads[t]) && h.tmp[t] == MQ.Ref(a)
  }

  /** Exactly one of: in the list, freed, in one reader's hands. */
  ghost predicate OnePlace(s: State, h: Heap, a: nat)
    requires a < |h.cells|
  {
    var listed, freed := h.first == MQ.Ref(a), h.cells[a].freed;
    || (listed && !freed && forall t :: !Owns(s, h, t, a))
    || (!listed && freed && forall t :: !Owns(s, h, t, a))
    || (!listed && !freed && exists t :: Owns(s, h, t, a) && forall u :: Owns(s, h, u, a) ==> u == t)
  }

  /** The node a reader is about to take, or to free, was never freed. */
  ghost predicate ReaderOk(s: State, h: Heap, t: nat)
    requires t < |s.threads|
  {
    && (s.threads[t].pc == Transfer ==> h.first.Ref? && h.first.addr < |h.cells| && !h.cells[h.first.addr].freed)
    && (s.threads[t].pc == Back ==>
          t < |h.tmp| && h.tmp[t].Ref? && h.tmp[t].addr < |h.cells| && !h.cells[h.tmp[t].addr].freed)
  }

  lemma ReaderIsOk(s: State, h: Heap, t: nat)
    requires Inv(s) && HeapOk(s, h) && t < |s.threads| && s.threads[t].role.Reader?
    ensures ReaderOk(s, h, t)
  {
    if s.threads[t].pc == Transfer {
      assert s.mutex == HeldBy(t);
      assert |s.sh.queue| == 1;
    }
  }

  lemma FirstIsListed(h: Heap, queue: seq<int>, a: nat)
    requires |h.place| == |h.cells| && ListOk(h, queue) && a < |h.cells|
    ensures h.first == MQ.Ref(a) <==> h.place[a] == MQ.InList
  {
  }

  lemma OwnedIsHeld(s: State, h: Heap, t: nat, a: nat)
    requires HeapOk(s, h) && a < |h.cells| && Owns(s, h, t, a)
    ensures h.place[a] == MQ.Held(t)
  {
  }

  lemma NodeIsInOnePlace(s: State, h: Heap, a: nat)
    requires HeapOk(s, h) && a < |h.cells|
    ensures OnePlace(s, h, a)
  {
    forall t | Owns(s, h, t, a)
      ensures h.place[a] == MQ.Held(t)
    {
      OwnedIsHeld(s, h, t, a);
    }
    FirstIsListed(h, s.sh.queue, a);
    if h.place[a].Held? {
      assert h.place[a] == MQ.Held(h.place[a].t);
      assert Owns(s, h, h.place[a].t, a);
    }
  }

  /** Any readers and writers, any capacity, any interleaving: no NULL or freed node is followed, no node
      is freed twice, and every node is in exactly one place. */
  lemma {:induction false} EveryRunIsMemorySafe(max: int, roles: seq<Role>, run: seq<Action>) returns (e: Heap)
    requires ValidRun(Init(max, roles), run)
    ensures Follows(Init(max, roles), Start(|roles|), run, e) && !e.fault
    ensures var s := Exec(Init(max, roles), run);
            && (forall a :: 0 <= a < |e.cells| ==> OnePlace(s, e, a))
            && forall t :: 0 <= t < |s.threads| && s.threads[t].role.Reader? ==> ReaderOk(s, e, t)
  {
    e := RunKeepsHeap(Init(max, roles), Start(|roles|), run);
    RunFromKeepsInv(Init(max, roles), run);
    var s := Exec(Init(max, roles), run);
    forall a | 0 <= a < |e.cells|
      ensures OnePlace(s, e, a)
    {
      NodeIsInOnePlace(s, e, a);
    }
    forall t | 0 <= t < |s.threads| && s.threads[t].role.Reader?
      ensures ReaderOk(s, e, t)
    {
      ReaderIsOk(s, e, t);
    }
  }
}
