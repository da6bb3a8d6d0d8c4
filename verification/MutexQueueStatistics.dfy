/** The four statistics counters of queue-mutex.c, which the printing thread reads: what they count. */
module MutexQueueStatistics {
  import opened Sums
  import opened BoundedFifo
  import opened MutexQueue
  import opened MutexQueueProofs
  import opened MutexQueueProgress
  import opened MutexQueueRefinesFifo
  import AF = AtomicFifo

  /** The returns in what the callers saw, by kind of result. */
  function Returned(trace: seq<AF.Event>, wanted: Out -> bool): nat {
    if trace == [] then 0
    else (if trace[0].Returned? && wanted(trace[0].out) then 1 else 0) + Returned(trace[1..], wanted)
  }

  /** A call that has been counted as an attempt and has not returned. */
  predicate AddAttempted(th: Thread) {
    || th.pc.AddCheck? || th.pc.AddFullUnlock? || th.pc.AddFullFree? || th.pc.AddTestFirst? || th.pc.AddSetLast?
    || th.pc.AddSetFirst? || th.pc.AddLinkNext? || th.pc.AddMoveLast? || th.pc.AddCount? || th.pc.AddTotal?
    || th.pc.AddUnlock? || (th.pc.Returning? && th.out.Added?)
  }

  predicate GetAttempted(th: Thread) {
    || th.pc.GetCheck? || th.pc.GetEmptyUnlock? || th.pc.GetTakeFirst? || th.pc.GetAdvance? || th.pc.GetCount?
    || th.pc.GetTotal? || th.pc.GetUnlock? || th.pc.GetReadVal? || th.pc.GetFree?
    || (th.pc.Returning? && !th.out.Added?)
  }

  /** A call that has been counted as a success and has not returned. */
  predicate AddCounted(th: Thread) {
    th.pc.AddUnlock? || (th.pc.Returning? && th.out == Added(true))
  }

  predicate GetCounted(th: Thread) {
    th.pc.GetUnlock? || th.pc.GetReadVal? || th.pc.GetFree? || (th.pc.Returning? && th.out.Got?)
  }

  function Marks(ts: seq<Thread>, counted: Thread -> bool): seq<int> {
    seq(|ts|, t requires 0 <= t < |ts| => if counted(ts[t]) then 1 else 0)
  }

  function Open(s: State, counted: Thread -> bool): int {
    Sum(Marks(s.threads, counted))
  }

  lemma {:induction false} MarksAfter(ts: seq<Thread>, t: nat, th: Thread, counted: Thread -> bool)
    requires t < |ts|
    ensures Sum(Marks(ts[t := th], counted))
              == Sum(Marks(ts, counted)) - (if counted(ts[t]) then 1 else 0) + if counted(th) then 1 else 0
  {
    var m := if counted(th) then 1 else 0;
    assert Marks(ts[t := th], counted) == Marks(ts, counted)[t := m];
    SumUpdate(Marks(ts, counted), t, m);
  }

  function B(b: bool): int {
    if b then 1 else 0
  }

  /** What one statement does to the four counters is what it does to the marks of its thread. */
  ghost predicate Moved(q: Queue, q': Queue, th: Thread, th': Thread) {
    && q'.addAttempts - q.addAttempts == B(AddAttempted(th')) - B(AddAttempted(th))
    && q'.getAttempts - q.getAttempts == B(GetAttempted(th')) - B(GetAttempted(th))
    && q'.addCount - q.addCount == B(AddCounted(th')) - B(AddCounted(th))
    && q'.getCount - q.getCount == B(GetCounted(th')) - B(GetCounted(th))
  }

  lemma AddMovesAttempts(s: State, t: nat)
    requires t < |s.threads| && Adding(s.threads[t].pc) && !s.fault && !AddStep(s, t).fault
    ensures var s', th := AddStep(s, t), s.threads[t];
            && s'.threads == s.threads[t := s'.threads[t]]
            && s'.q.addAttempts - s.q.addAttempts == B(AddAttempted(s'.threads[t])) - B(AddAttempted(th))
  {
  }

  lemma AddMovesCount(s: State, t: nat)
    requires t < |s.threads| && Adding(s.threads[t].pc) && !s.fault && !AddStep(s, t).fault
    ensures var s', th := AddStep(s, t), s.threads[t];
            s'.q.addCount - s.q.addCount == B(AddCounted(s'.threads[t])) - B(AddCounted(th))
  {
  }

  lemma AddLeavesGetCounters(s: State, t: nat)
    requires t < |s.threads| && Adding(s.threads[t].pc)
    ensures AddStep(s, t).q.getAttempts == s.q.getAttempts && AddStep(s, t).q.getCount == s.q.getCount
  {
  }

  lemma AddLeavesGets(s: State, t: nat)
    requires t < |s.threads| && Adding(s.threads[t].pc) && !s.fault && !AddStep(s, t).fault
    ensures !GetAttempted(AddStep(s, t).threads[t]) && !GetCounted(AddStep(s, t).threads[t])
  {
  }

  lemma GetMovesAttempts(s: State, t: nat)
    requires t < |s.threads| && Getting(s.threads[t].pc) && !s.fault && !GetStep(s, t).fault
    ensures var s', th := GetStep(s, t), s.threads[t];
            && s'.threads == s.threads[t := s'.threads[t]]
            && s'.q.getAttempts - s.q.getAttempts == B(GetAttempted(s'.threads[t])) - B(GetAttempted(th))
  {
  }

  lemma GetMovesCount(s: State, t: nat)
    requires t < |s.threads| && Getting(s.threads[t].pc) && !s.fault && !GetStep(s, t).fault
    ensures var s', th := GetStep(s, t), s.threads[t];
            s'.q.getCount - s.q.getCount == B(GetCounted(s'.threads[t])) - B(GetCounted(th))
  {
  }

  lemma GetLeavesAdds(s: State, t: nat)
    requires t < |s.threads| && Getting(s.threads[t].pc) && !s.fault && !GetStep(s, t).fault
    ensures var s' := GetStep(s, t);
            && s'.q.addAttempts == s.q.addAttempts && s'.q.addCount == s.q.addCount
            && !AddAttempted(s'.threads[t]) && !AddCounted(s'.threads[t])
  {
  }

  lemma StatementMoves(s: State, t: nat)
    requires Enabled(s, Stmt(t)) && !s.fault && !Step(s, Stmt(t)).fault
    ensures var s' := Step(s, Stmt(t));
            s'.threads == s.threads[t := s'.threads[t]] && Moved(s.q, s'.q, s.threads[t], s'.threads[t])
  {
    if Adding(s.threads[t].pc) {
      AddMovesAttempts(s, t);
      AddMovesCount(s, t);
      AddLeavesGetCounters(s, t);
      AddLeavesGets(s, t);
    } else {
      GetMovesAttempts(s, t);
      GetMovesCount(s, t);
      GetLeavesAdds(s, t);
    }
  }

  /** The counters, apart from the calls that are still open. */
  function AddsTried(s: State): int {
    s.q.addAttempts - Open(s, AddAttempted)
  }

  function GetsTried(s: State): int {
    s.q.getAttempts - Open(s, GetAttempted)
  }

  function AddsDone(s: State): int {
    s.q.addCount - Open(s, AddCounted)
  }

  function GetsDone(s: State): int {
    s.q.getCount - Open(s, GetCounted)
  }

  /** The marks of all threads when thread t becomes th. */
  ghost predicate MarkMoves(ts: seq<Thread>, t: nat, th: Thread, counted: Thread -> bool)
    requires t < |ts|
  {
    Sum(Marks(ts[t := th], counted)) == Sum(Marks(ts, counted)) - B(counted(ts[t])) + B(counted(th))
  }

  lemma MarksMove(ts: seq<Thread>, t: nat, th: Thread)
    requires t < |ts|
    ensures MarkMoves(ts, t, th, AddAttempted) && MarkMoves(ts, t, th, GetAttempted)
    ensures MarkMoves(ts, t, th, AddCounted) && MarkMoves(ts, t, th, GetCounted)
  {
    MarksAfter(ts, t, th, AddAttempted);
    MarksAfter(ts, t, th, GetAttempted);
    MarksAfter(ts, t, th, AddCounted);
    MarksAfter(ts, t, th, GetCounted);
  }

  lemma StatementCounts(s: State, t: nat)
    requires Enabled(s, Stmt(t)) && !s.fault && !Step(s, Stmt(t)).fault
    ensures var s' := Step(s, Stmt(t));
            && AddsTried(s') == AddsTried(s) && GetsTried(s') == GetsTried(s)
            && AddsDone(s') == AddsDone(s) && GetsDone(s') == GetsDone(s)
  {
    StatementMoves(s, t);
    MarksMove(s.threads, t, Step(s, Stmt(t)).threads[t]);
  }

  lemma FinishCounts(s: State, t: nat)
    requires Enabled(s, Finish(t))
    ensures var s', out := Step(s, Finish(t)), s.threads[t].out;
            && AddsTried(s') == AddsTried(s) + B(out.Added?) && GetsTried(s') == GetsTried(s) + B(!out.Added?)
            && AddsDone(s') == AddsDone(s) + B(out == Added(true)) && GetsDone(s') == GetsDone(s) + B(out.Got?)
  {
    MarksMove(s.threads, t, Step(s, Finish(t)).threads[t]);
  }

  lemma StepCounts(s: State, a: Action)
    requires Enabled(s, a) && !s.fault && !Step(s, a).fault
    ensures var s', out := Step(s, a), s.threads[a.t].out;
            && AddsTried(s') == AddsTried(s) + B(a.Finish? && out.Added?)
            && GetsTried(s') == GetsTried(s) + B(a.Finish? && !out.Added?)
            && AddsDone(s') == AddsDone(s) + B(a.Finish? && out == Added(true))
            && GetsDone(s') == GetsDone(s) + B(a.Finish? && out.Got?)
  {
    match a
    case Stmt(t) => StatementCounts(s, t);
    case Finish(t) => FinishCounts(s, t);
    case Begin(t, op) => MarksMove(s.threads, t, Step(s, a).threads[t]);
  }

  lemma ReturnedStep(s: State, run: seq<Action>, wanted: Out -> bool)
    requires ValidRun(s, run) && run != []
    ensures Returned(Trace(s, run), wanted)
              == B(run[0].Finish? && wanted(s.threads[run[0].t].out))
                 + Returned(Trace(Step(s, run[0]), run[1..]), wanted)
  {
    var rest := Trace(Step(s, run[0]), run[1..]);
    if run[0].Stmt? {
      assert Trace(s, run) == rest;
    } else {
      assert Trace(s, run)[1..] == rest;
    }
  }

  lemma {:induction false} RunCounts(s: State, run: seq<Action>)
    requires Inv(s) && ValidRun(s, run)
    ensures var e := Exec(s, run);
            && AddsTried(e) == AddsTried(s) + Returned(Trace(s, run), (o: Out) => o.Added?)
            && GetsTried(e) == GetsTried(s) + Returned(Trace(s, run), (o: Out) => !o.Added?)
            && AddsDone(e) == AddsDone(s) + Returned(Trace(s, run), (o: Out) => o == Added(true))
            && GetsDone(e) == GetsDone(s) + Returned(Trace(s, run), (o: Out) => o.Got?)
    decreases |run|
  {
    if run != [] {
      StepKeepsInv(s, run[0]);
      StepCounts(s, run[0]);
      RunCounts(Step(s, run[0]), run[1..]);
      ReturnedStep(s, run, (o: Out) => o.Added?);
      ReturnedStep(s, run, (o: Out) => !o.Added?);
      ReturnedStep(s, run, (o: Out) => o == Added(true));
      ReturnedStep(s, run, (o: Out) => o.Got?);
    }
  }

  lemma {:induction false} NoMarks(ts: seq<Thread>, counted: Thread -> bool)
    requires forall t :: 0 <= t < |ts| ==> !counted(ts[t])
    ensures Sum(Marks(ts, counted)) == 0
  {
    if ts != [] {
      assert Marks(ts, counted)[1..] == Marks(ts[1..], counted);
      NoMarks(ts[1..], counted);
    }
  }

  lemma NothingOpen(s: State)
    requires forall t :: 0 <= t < |s.threads| ==> s.threads[t].pc == Outside
    ensures Open(s, AddAttempted) == Open(s, GetAttempted) == Open(s, AddCounted) == Open(s, GetCounted) == 0
  {
    NoMarks(s.threads, AddAttempted);
    NoMarks(s.threads, GetAttempted);
    NoMarks(s.threads, AddCounted);
    NoMarks(s.threads, GetCounted);
  }

  /** When no call is open the counters are exact: add_attempts are the adds that returned, add_count those
      that returned success, and the same for gets. */
  lemma {:induction false} StatisticsAreExact(max: nat, drivers: seq<AF.Driver>, run: seq<Action>)
    requires ValidRun(Init(max, drivers), run)
    requires var e := Exec(Init(max, drivers), run);
             forall t :: 0 <= t < |e.threads| ==> e.threads[t].pc == Outside
    ensures var s, q := Init(max, drivers), Exec(Init(max, drivers), run).q;
            && q.addAttempts == Returned(Trace(s, run), (o: Out) => o.Added?)
            && q.addCount == Returned(Trace(s, run), (o: Out) => o == Added(true))
            && q.getAttempts == Returned(Trace(s, run), (o: Out) => !o.Added?)
            && q.getCount == Returned(Trace(s, run), (o: Out) => o.Got?)
  {
    var s := Init(max, drivers);
    InitEstablishesInv(max, drivers);
    RunCounts(s, run);
    NothingOpen(s);
    NothingOpen(Exec(s, run));
  }

  // ---------------------------------------------------------------- calls and returns

  function CallsIn(trace: seq<AF.Event>): nat {
    if trace == [] then 0 else (if trace[0].Called? then 1 else 0) + CallsIn(trace[1..])
  }

  predicate Busy(th: Thread) {
    !th.pc.Outside?
  }

  lemma StepCalls(s: State, a: Action)
    requires Enabled(s, a) && !s.fault && !Step(s, a).fault
    ensures Open(Step(s, a), Busy) == Open(s, Busy) + B(a.Begin?) - B(a.Finish?)
  {
    StepShape(s, a);
    MarksAfter(s.threads, a.t, Step(s, a).threads[a.t], Busy);
  }

  lemma TraceStep(s: State, run: seq<Action>)
    requires ValidRun(s, run) && run != []
    ensures CallsIn(Trace(s, run)) == B(run[0].Begin?) + CallsIn(Trace(Step(s, run[0]), run[1..]))
  {
    var rest := Trace(Step(s, run[0]), run[1..]);
    if run[0].Stmt? {
      assert Trace(s, run) == rest;
    } else {
      assert Trace(s, run)[1..] == rest;
    }
  }

  lemma {:induction false} RunCalls(s: State, run: seq<Action>)
    requires Inv(s) && ValidRun(s, run)
    ensures CallsIn(Trace(s, run)) + Open(s, Busy)
              == Returned(Trace(s, run), (o: Out) => true) + Open(Exec(s, run), Busy)
    decreases |run|
  {
    if run != [] {
      StepKeepsInv(s, run[0]);
      StepCalls(s, run[0]);
      TraceStep(s, run);
      ReturnedStep(s, run, (o: Out) => true);
      RunCalls(Step(s, run[0]), run[1..]);
    }
  }

  /** The trace of a run shows every call and every return: what was called and has not returned is what
      is open. */
  lemma {:induction false} EveryCallIsSeen(max: nat, drivers: seq<AF.Driver>, run: seq<Action>)
    requires ValidRun(Init(max, drivers), run)
    ensures var trace := Trace(Init(max, drivers), run);
            CallsIn(trace) == Returned(trace, (o: Out) => true) + Open(Exec(Init(max, drivers), run), Busy)
  {
    InitEstablishesInv(max, drivers);
    RunCalls(Init(max, drivers), run);
    NoMarks(Init(max, drivers).threads, Busy);
  }
}
