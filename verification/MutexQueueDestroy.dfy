/**
 queue_destroy of semestr2/Task2/Task2_2/mutex/queue-mutex.c.  It walks the list without the mutex, and it
 leaves the fields of the queue as they were.  The driver calls it after joining both threads, and also,
 when the reader cannot be created, while the writer is still running.
 */
module MutexQueueDestroy {
  import opened BoundedFifo
  import opened MutexQueue
  import opened MutexQueueProofs
  import opened MutexQueueProgress
  import AF = AtomicFifo

  /** The cells after the walk: those in the list are freed. */
  function Destroyed(cells: seq<Cell>, list: seq<nat>): (r: seq<Cell>)
    ensures |r| == |cells|
  {
    seq(|cells|, a requires 0 <= a < |cells| => if a in list then cells[a].(freed := true) else cells[a])
  }

  function AfterDestroy(s: State): State {
    s.(mem := s.mem.(cells := Destroyed(s.mem.cells, s.mem.list)))
  }

  /** One turn of the loop frees a live node and finds the following one. */
  lemma FreesNext(cells: seq<Cell>, list: seq<nat>, k: nat)
    requires ListOk(cells, list) && k < |list| && forall i :: 0 <= i < |list| ==> !cells[list[i]].freed
    ensures var now := Destroyed(cells, list[..k]);
            && Live(now, Ref(list[k])) && now[list[k]].next == Successor(list, k)
            && now[list[k] := now[list[k]].(freed := true)] == Destroyed(cells, list[..k + 1])
  {
    var now := Destroyed(cells, list[..k]);
    assert cells[list[k]].next == Successor(list, k);
    assert list[k] !in list[..k];
    forall a: nat | a < |cells|
      ensures a in list[..k + 1] <==> a in list[..k] || a == list[k]
    {
      assert list[..k + 1] == list[..k] + [list[k]];
    }
  }

  lemma ListIsLive(s: State)
    requires Inv(s)
    ensures forall i :: 0 <= i < |s.mem.list| ==> !s.mem.cells[s.mem.list[i]].freed
  {
    forall i | 0 <= i < |s.mem.list|
      ensures !s.mem.cells[s.mem.list[i]].freed
    {
      LastIsLive(s.mem, s.threads, i);
    }
  }

  lemma FirstOfList(s: State)
    requires Inv(s)
    ensures s.q.first == if s.mem.list == [] then Null else Ref(s.mem.list[0])
  {
  }

  /** The loop of queue_destroy: in every reachable state it frees exactly the nodes of the list, each
      once, and follows neither NULL nor a freed node. */
  method Destroy(s: State) returns (cells: seq<Cell>, fault: bool)
    requires Inv(s)
    ensures !fault && cells == AfterDestroy(s).mem.cells
  {
    ghost var list := s.mem.list;
    ListIsLive(s);
    FirstOfList(s);
    cells, fault := s.mem.cells, false;
    var cur := s.q.first;
    ghost var k := 0;
    assert Destroyed(cells, list[..0]) == cells;
    while cur != Null
      invariant 0 <= k <= |list| && cur == (if k < |list| then Ref(list[k]) else Null)
      invariant !fault && cells == Destroyed(s.mem.cells, list[..k])
      decreases |list| - k
    {
      FreesNext(s.mem.cells, list, k);
      if !Live(cells, cur) {
        return cells, true;
      }
      var next := cells[cur.addr].next;
      cells := cells[cur.addr := cells[cur.addr].(freed := true)];
      cur, k := next, k + 1;
    }
    assert list[..k] == list;
  }

  /** Nothing leaks exactly when no thread holds a node, as after joining them. */
  lemma {:induction false} NothingLeaksIff(s: State)
    requires Inv(s)
    ensures (forall a :: 0 <= a < |s.mem.cells| ==> AfterDestroy(s).mem.cells[a].freed) <==>
            (forall t :: 0 <= t < |s.threads| ==> !Holds(s.threads[t]))
  {
    var cells := AfterDestroy(s).mem.cells;
    if t :| 0 <= t < |s.threads| && Holds(s.threads[t]) {
      var a := s.threads[t].node.addr;
      assert Owns(s, t, a);
      NodeOwnership(s, a);
      assert !cells[a].freed;
    } else {
      forall a: nat | a < |cells|
        ensures cells[a].freed
      {
        NodeOwnership(s, a);
        assert forall t :: !Owns(s, t, a);
      }
    }
  }

  // ---------------------------------------------------------------- destroying under a running writer

  ghost predicate FaultsAfter(s: State, run: seq<Action>) {
    ValidRun(AfterDestroy(s), run) && Exec(AfterDestroy(s), run).fault
  }

  predicate LoneWriter(s: State) {
    |s.threads| == 1 && s.threads[0].driver.Writer?
  }

  /** The writer is on its way to following `last`, which has been freed. */
  predicate Doomed(s: State) {
    && LoneWriter(s) && !s.fault && s.q.count < s.q.max && s.q.first != Null
    && s.q.last.Ref? && s.q.last.addr < |s.mem.cells| && s.mem.cells[s.q.last.addr].freed
    && var pc := s.threads[0].pc;
       && (pc.Outside? || pc.AddMalloc? || pc.AddLock? || pc.AddAttempt? || pc.AddCheck? || pc.AddTestFirst?
           || pc.AddLinkNext?)
       && (pc.Outside? || pc.AddMalloc? || pc.AddLock? ==> s.mutex == Free)
  }

  function StepsToDoom(pc: Pc): nat {
    match pc
    case Outside => 6
    case AddMalloc => 5
    case AddLock => 4
    case AddAttempt => 3
    case AddCheck => 2
    case AddTestFirst => 1
    case _ => 0
  }

  lemma DoomedStep(s: State, a: Action)
    requires Doomed(s)
    requires a == if s.threads[0].pc.Outside? then Begin(0, Add(s.threads[0].driver.i)) else Stmt(0)
    ensures Enabled(s, a)
    ensures if s.threads[0].pc.AddLinkNext? then Step(s, a).fault
            else Doomed(Step(s, a)) && StepsToDoom(Step(s, a).threads[0].pc) < StepsToDoom(s.threads[0].pc)
  {
  }

  lemma {:induction false} NextAddFaults(s: State) returns (run: seq<Action>)
    requires Doomed(s)
    ensures ValidRun(s, run) && Exec(s, run).fault
    decreases StepsToDoom(s.threads[0].pc)
  {
    var a := if s.threads[0].pc.Outside? then Begin(0, Add(s.threads[0].driver.i)) else Stmt(0);
    DoomedStep(s, a);
    run := [];
    if !s.threads[0].pc.AddLinkNext? {
      run := NextAddFaults(Step(s, a));
    }
    Before(s, a, run);
    run := [a] + run;
  }

  /** A writer that finds the queue full touches only its own node. */
  predicate Refused(s: State) {
    && LoneWriter(s) && !s.fault && s.q.count == s.q.max
    && var th := s.threads[0];
       && (th.pc.Outside? || th.pc.Returning? || th.pc.AddMalloc? || th.pc.AddLock? || th.pc.AddAttempt?
           || th.pc.AddCheck? || th.pc.AddFullUnlock? || th.pc.AddFullFree?)
       && (AdderHolds(th.pc) ==> Live(s.mem.cells, th.node))
  }

  lemma RefusedStep(s: State, a: Action)
    requires Refused(s) && Enabled(s, a)
    ensures Refused(Step(s, a))
  {
  }

  lemma {:induction false} RefusedRun(s: State, run: seq<Action>)
    requires Refused(s) && ValidRun(s, run)
    ensures Refused(Exec(s, run))
    decreases |run|
  {
    if run != [] {
      RefusedStep(s, run[0]);
      RefusedRun(Step(s, run[0]), run[1..]);
    }
  }

  /** Destroying the queue between two calls of a writer that goes on is safe exactly when the queue is
      empty or full: otherwise the next add follows the freed last node. */
  lemma {:induction false} WriterSurvivesIff(s: State)
    requires Inv(s) && LoneWriter(s) && s.threads[0].pc == Outside
    ensures (exists run :: FaultsAfter(s, run)) <==> 0 < |s.mem.list| < s.q.max
  {
    var d, n := AfterDestroy(s), |s.mem.list|;
    assert s.mutex == Free;
    if 0 < n < s.q.max {
      assert s.mem.list[n - 1] in s.mem.list;
      var run := NextAddFaults(d);
      assert FaultsAfter(s, run);
    } else {
      forall run | ValidRun(d, run)
        ensures !FaultsAfter(s, run)
      {
        if n == 0 {
          assert d.mem.cells == s.mem.cells;
          RunKeepsInv(s, run);
        } else {
          RefusedRun(d, run);
        }
      }
    }
  }
}
