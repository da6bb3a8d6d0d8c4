/** Every call of the mutex queue ends: no interleaving is stuck, and none runs long without a return. */
module MutexQueueProgress {
  import opened Sums
  import opened BoundedFifo
  import opened MutexQueue
  import opened MutexQueueProofs
  import AF = AtomicFifo

  /** An upper bound on the statements left in a call. */
  function Rank(pc: Pc): nat {
    match pc
    case Outside => 0
    case Returning => 1
    case AddMalloc => 11
    case AddLock => 10
    case AddAttempt => 9
    case AddCheck => 8
    case AddFullUnlock => 3
    case AddFullFree => 2
    case AddTestFirst => 7
    case AddSetLast => 6
    case AddSetFirst => 5
    case AddLinkNext => 6
    case AddMoveLast => 5
    case AddCount => 4
    case AddTotal => 3
    case AddUnlock => 2
    case GetLock => 11
    case GetAttempt => 10
    case GetCheck => 9
    case GetEmptyUnlock => 2
    case GetTakeFirst => 8
    case GetAdvance => 7
    case GetCount => 6
    case GetTotal => 5
    case GetUnlock => 4
    case GetReadVal => 3
    case GetFree => 2
  }

  /** A call costs at most twelve actions, charged to its return. */
  const CALL := 12

  function Debt(th: Thread): int {
    if th.pc.Outside? then 0 else Rank(th.pc) - CALL
  }

  function Ranks(ts: seq<Thread>): seq<int> {
    seq(|ts|, t requires 0 <= t < |ts| => Rank(ts[t].pc))
  }

  function Debts(ts: seq<Thread>): seq<int> {
    seq(|ts|, t requires 0 <= t < |ts| => Debt(ts[t]))
  }

  lemma AddReducesRank(s: State, t: nat)
    requires t < |s.threads| && Adding(s.threads[t].pc) && !s.fault && !AddStep(s, t).fault
    ensures var s' := AddStep(s, t);
            |s'.threads| == |s.threads| && s'.threads == s.threads[t := s'.threads[t]]
            && !s'.threads[t].pc.Outside? && Rank(s'.threads[t].pc) < Rank(s.threads[t].pc)
  {
  }

  lemma GetReducesRank(s: State, t: nat)
    requires t < |s.threads| && Getting(s.threads[t].pc) && !s.fault && !GetStep(s, t).fault
    ensures var s' := GetStep(s, t);
            |s'.threads| == |s.threads| && s'.threads == s.threads[t := s'.threads[t]]
            && !s'.threads[t].pc.Outside? && Rank(s'.threads[t].pc) < Rank(s.threads[t].pc)
  {
  }

  /** A step without a fault brings its call nearer to the end. */
  lemma StepShape(s: State, a: Action)
    requires Enabled(s, a) && !s.fault && !Step(s, a).fault
    ensures var s' := Step(s, a);
            && |s'.threads| == |s.threads| && s'.threads == s.threads[a.t := s'.threads[a.t]]
            && (!a.Begin? ==> Rank(s'.threads[a.t].pc) < Rank(s.threads[a.t].pc))
            && 1 + Debt(s'.threads[a.t]) <= Debt(s.threads[a.t]) + if a.Finish? then CALL else 0
  {
    if a.Stmt? && Adding(s.threads[a.t].pc) {
      AddReducesRank(s, a.t);
    } else if a.Stmt? {
      GetReducesRank(s, a.t);
    }
  }

  /** Under the invariant no step faults. */
  lemma StepMoves(s: State, a: Action)
    requires Inv(s) && Enabled(s, a)
    ensures var s' := Step(s, a);
            && Inv(s') && |s'.threads| == |s.threads| && s'.threads == s.threads[a.t := s'.threads[a.t]]
            && (!a.Begin? ==> Rank(s'.threads[a.t].pc) < Rank(s.threads[a.t].pc))
            && 1 + Debt(s'.threads[a.t]) <= Debt(s.threads[a.t]) + if a.Finish? then CALL else 0
  {
    StepKeepsInv(s, a);
    StepShape(s, a);
  }

  function Returns(run: seq<Action>): nat {
    if run == [] then 0 else (if run[0].Finish? then 1 else 0) + Returns(run[1..])
  }

  lemma {:induction false} RunDebt(s: State, run: seq<Action>)
    requires Inv(s) && ValidRun(s, run)
    ensures |run| + Sum(Debts(Exec(s, run).threads)) <= Sum(Debts(s.threads)) + CALL * Returns(run)
    ensures |Exec(s, run).threads| == |s.threads|
    decreases |run|
  {
    if run != [] {
      var a := run[0];
      var s' := Step(s, a);
      StepMoves(s, a);
      assert Debts(s'.threads) == Debts(s.threads)[a.t := Debt(s'.threads[a.t])];
      SumUpdate(Debts(s.threads), a.t, Debt(s'.threads[a.t]));
      RunDebt(s', run[1..]);
    }
  }

  lemma {:induction false} DebtBounded(ts: seq<Thread>)
    ensures -(CALL - 1) * |ts| <= Sum(Debts(ts))
  {
    if ts != [] {
      assert Debts(ts)[1..] == Debts(ts[1..]);
      DebtBounded(ts[1..]);
    }
  }

  lemma {:induction false} InitialDebt(ts: seq<Thread>)
    requires forall t :: 0 <= t < |ts| ==> ts[t].pc == Outside
    ensures Sum(Debts(ts)) == 0
  {
    if ts != [] {
      assert Debts(ts)[1..] == Debts(ts[1..]);
      InitialDebt(ts[1..]);
    }
  }

  /** No schedule runs for long without a return: with N threads and c returns, at most 12c + 11N actions. */
  lemma {:induction false} EveryScheduleReturns(max: nat, drivers: seq<AF.Driver>, run: seq<Action>)
    requires ValidRun(Init(max, drivers), run)
    ensures |run| <= CALL * Returns(run) + (CALL - 1) * |drivers|
  {
    var s := Init(max, drivers);
    InitEstablishesInv(max, drivers);
    RunDebt(s, run);
    DebtBounded(Exec(s, run).threads);
    InitialDebt(s.threads);
  }

  // ---------------------------------------------------------------- every call can complete

  ghost predicate NoCalls(s: State) {
    forall t :: 0 <= t < |s.threads| ==> s.threads[t].pc == Outside
  }

  /** The statement that brings a pending call forward; if the lock is taken, its holder's. */
  function NextAction(s: State, t: nat): Action
    requires t < |s.threads|
  {
    var u := if s.mutex.HeldBy? then s.mutex.t else t;
    if At(s, u, Returning) then Finish(u) else Stmt(u)
  }

  lemma SomebodyCanMove(s: State, t: nat)
    requires Inv(s) && t < |s.threads| && s.threads[t].pc != Outside
    ensures Enabled(s, NextAction(s, t)) && !NextAction(s, t).Begin?
  {
  }

  lemma RanksAfter(ts: seq<Thread>, t: nat, th: Thread)
    requires t < |ts|
    ensures 0 <= Sum(Ranks(ts[t := th])) == Sum(Ranks(ts)) - Rank(ts[t].pc) + Rank(th.pc)
  {
    assert Ranks(ts[t := th]) == Ranks(ts)[t := Rank(th.pc)];
    SumUpdate(Ranks(ts), t, Rank(th.pc));
    SumNonNegative(Ranks(ts[t := th]));
  }

  lemma {:induction false} RankAfter(s: State, a: Action)
    requires Inv(s) && Enabled(s, a) && !a.Begin?
    ensures Inv(Step(s, a)) && 0 <= Sum(Ranks(Step(s, a).threads)) < Sum(Ranks(s.threads))
  {
    StepMoves(s, a);
    RanksAfter(s.threads, a.t, Step(s, a).threads[a.t]);
  }

  /** One statement that brings some pending call forward. */
  lemma OneForward(s: State, t: nat)
    requires Inv(s) && t < |s.threads| && s.threads[t].pc != Outside
    ensures var a := NextAction(s, t);
            && Enabled(s, a) && !a.Begin? && Inv(Step(s, a))
            && 0 <= Sum(Ranks(Step(s, a).threads)) < Sum(Ranks(s.threads))
  {
    SomebodyCanMove(s, t);
    RankAfter(s, NextAction(s, t));
  }

  lemma Before(s: State, a: Action, run: seq<Action>)
    requires Enabled(s, a) && ValidRun(Step(s, a), run)
    ensures ValidRun(s, [a] + run) && Exec(s, [a] + run) == Exec(Step(s, a), run)
  {
    assert ([a] + run)[1..] == run;
  }

  lemma RanksNonNegative(ts: seq<Thread>)
    ensures 0 <= Sum(Ranks(ts))
  {
    SumNonNegative(Ranks(ts));
  }

  /** From every reachable state every pending call can be completed, without a new one being made. */
  lemma {:induction false} CanAlwaysComplete(s: State) returns (more: seq<Action>)
    requires Inv(s)
    ensures ValidRun(s, more) && NoCalls(Exec(s, more)) && |more| <= Sum(Ranks(s.threads))
    ensures forall k :: 0 <= k < |more| ==> !more[k].Begin?
    decreases Sum(Ranks(s.threads))
  {
    RanksNonNegative(s.threads);
    more := [];
    if t :| 0 <= t < |s.threads| && s.threads[t].pc != Outside {
      var a := NextAction(s, t);
      OneForward(s, t);
      var rest := CanAlwaysComplete(Step(s, a));
      Before(s, a, rest);
      more := [a] + rest;
    }
  }

  /** Only the mutex holds a call up. */
  lemma EveryCallMayBeNext(s: State, t: nat) returns (a: Action)
    requires t < |s.threads| && s.threads[t].pc != Outside
    requires s.threads[t].pc == AddLock || s.threads[t].pc == GetLock ==> s.mutex == Free
    ensures Enabled(s, a) && a.t == t && !a.Begin?
  {
    a := if s.threads[t].pc == Returning then Finish(t) else Stmt(t);
  }

  /** Between calls a client may call at any time: the driver's writer its next value, the reader a get, and
      any other client whatever it likes. */
  lemma CallsMayBegin(s: State, t: nat, op: Op)
    requires t < |s.threads| && s.threads[t].pc == Outside
    ensures match s.threads[t].driver
            case AnyOps => Enabled(s, Begin(t, op))
            case Writer(i) => Enabled(s, Begin(t, Add(i)))
            case Reader(_, _) => Enabled(s, Begin(t, Get))
  {
  }
}
