/** What the per-node locks buy: exclusion, exact counts, and no deadlock under any lock policy. */
module LockedListProgress {
  import opened Sums
  import opened LockedList

  /** No node is write-locked while anyone else holds it; nobody holds more than three nodes, and they
      are consecutive; a thread waits only for the node after the ones it holds. */
  lemma {:induction false} LockingDiscipline(s: State, t: nat, u: nat, p: nat)
    requires Inv(s) && t < |s.threads| && u < |s.threads| && p < |s.lens|
    ensures Holds(s.threads[t], p) && Exclusive(s.mutexes, s.threads[t].role) && Holds(s.threads[u], p) ==> t == u
    ensures HeldCount(s.threads[t]) <= 3
    ensures 0 < HeldCount(s.threads[t]) ==> s.threads[t].pos + HeldCount(s.threads[t]) <= |s.lens|
    ensures Locks(s.threads[t], p) ==> p == s.threads[t].pos + HeldCount(s.threads[t])
  {
    assert LockOk(s.locks[p], p, s.mutexes, s.threads);
    assert ThreadOk(s.lens, s.threads[t]);
  }

  /** The first `m` positions whose following string is longer, shorter, or as long. */
  ghost function Rises(lens: seq<nat>, m: nat): set<nat>
    requires m < |lens| || m == 0
  {
    set p: nat {:trigger lens[p]} | p < m && lens[p] < lens[p + 1]
  }

  ghost function Falls(lens: seq<nat>, m: nat): set<nat>
    requires m < |lens| || m == 0
  {
    set p: nat {:trigger lens[p]} | p < m && lens[p] > lens[p + 1]
  }

  ghost function Plateaus(lens: seq<nat>, m: nat): set<nat>
    requires m < |lens| || m == 0
  {
    set p: nat {:trigger lens[p]} | p < m && lens[p] == lens[p + 1]
  }

  lemma OneMore(a: set<nat>, b: set<nat>, p: nat, grows: bool)
    requires forall q :: q in a ==> q < p
    requires forall q :: q in b <==> q in a || (q == p && grows)
    ensures |b| == |a| + if grows then 1 else 0
  {
    assert b == if grows then a + {p} else a;
  }

  lemma {:induction false} IncreasingPairs(lens: seq<nat>, m: nat)
    requires m < |lens|
    ensures Pairs(lens, Increasing, m) == |Rises(lens, m)|
  {
    if m > 0 {
      IncreasingPairs(lens, m - 1);
      OneMore(Rises(lens, m - 1), Rises(lens, m), m - 1, lens[m - 1] < lens[m]);
    }
  }

  lemma {:induction false} DecreasingPairs(lens: seq<nat>, m: nat)
    requires m < |lens|
    ensures Pairs(lens, Decreasing, m) == |Falls(lens, m)|
  {
    if m > 0 {
      DecreasingPairs(lens, m - 1);
      OneMore(Falls(lens, m - 1), Falls(lens, m), m - 1, lens[m - 1] > lens[m]);
    }
  }

  lemma {:induction false} EqualPairs(lens: seq<nat>, m: nat)
    requires m < |lens|
    ensures Pairs(lens, Equal, m) == |Plateaus(lens, m)|
  {
    if m > 0 {
      EqualPairs(lens, m - 1);
      OneMore(Plateaus(lens, m - 1), Plateaus(lens, m), m - 1, lens[m - 1] == lens[m]);
    }
  }

  /** The pass has counted the adjacent pairs whose second string is longer, shorter, or as long. */
  ghost predicate CountedRight(lens: seq<nat>, th: Thread)
    requires th.role.Finder? && th.result.Some? && lens != []
  {
    match th.role.kind
    case Increasing => th.result.value == |Rises(lens, |lens| - 1)|
    case Decreasing => th.result.value == |Falls(lens, |lens| - 1)|
    case Equal => th.result.value == |Plateaus(lens, |lens| - 1)|
  }

  /** The count of every complete pass of a finder, in every interleaving. */
  lemma {:induction false} CompletePassCounts(s: State, t: nat)
    requires Inv(s) && t < |s.threads| && s.threads[t].role.Finder? && s.threads[t].result.Some?
    ensures 2 <= |s.lens| && s.threads[t].result.value == Pairs(s.lens, s.threads[t].role.kind, |s.lens| - 1)
    ensures CountedRight(s.lens, s.threads[t])
  {
    assert ThreadOk(s.lens, s.threads[t]);
    match s.threads[t].role.kind
    case Increasing => IncreasingPairs(s.lens, |s.lens| - 1);
    case Decreasing => DecreasingPairs(s.lens, |s.lens| - 1);
    case Equal => EqualPairs(s.lens, |s.lens| - 1);
  }

  /** Complete passes of the three finders account for every adjacent pair exactly once. */
  lemma {:induction false} ThreeFindersPartitionThePairs(s: State, t: nat, u: nat, v: nat)
    requires Inv(s) && t < |s.threads| && u < |s.threads| && v < |s.threads|
    requires s.threads[t].role == Finder(Increasing) && s.threads[t].result.Some?
    requires s.threads[u].role == Finder(Decreasing) && s.threads[u].result.Some?
    requires s.threads[v].role == Finder(Equal) && s.threads[v].result.Some?
    ensures s.threads[t].result.value + s.threads[u].result.value + s.threads[v].result.value == |s.lens| - 1
  {
    CompletePassCounts(s, t);
    CompletePassCounts(s, u);
    CompletePassCounts(s, v);
    PairsSum(s.lens, |s.lens| - 1);
  }

  /** Who locks how: random_swap takes write locks and the finders read locks, except that in the mutex
      version every lock is exclusive.  So a swapper is alone on its nodes, and two finders may share one
      exactly in the read-write version. */
  lemma {:induction false} LockModes(s: State, t: nat, p: nat)
    requires Inv(s) && t < |s.threads| && p < |s.lens|
    ensures t in s.locks[p].writers <==> Holds(s.threads[t], p) && (s.mutexes || s.threads[t].role.Swapper?)
    ensures t in s.locks[p].readers <==> Holds(s.threads[t], p) && !s.mutexes && s.threads[t].role.Finder?
    ensures Holds(s.threads[t], p) && (s.mutexes || s.threads[t].role.Swapper?) ==>
              forall u :: 0 <= u < |s.threads| && u != t ==> !Holds(s.threads[u], p)
    ensures s.threads[t].pc.Acquire? && p == s.threads[t].pos + s.threads[t].pc.k ==>
              (Enabled(s, Go(t)) <==>
                 forall u :: 0 <= u < |s.threads| && Holds(s.threads[u], p) ==>
                   !s.mutexes && s.threads[t].role.Finder? && s.threads[u].role.Finder?)
  {
    assert LockOk(s.locks[p], p, s.mutexes, s.threads);
    assert ThreadOk(s.lens, s.threads[t]);
  }

  // ---------------------------------------------------------------- deadlock

  predicate MidPass(th: Thread) {
    !th.pc.Start?
  }

  predicate WriterWaits(s: State, p: nat) {
    exists u :: 0 <= u < |s.threads| && Locks(s.threads[u], p) && Exclusive(s.mutexes, s.threads[u].role)
  }

  /** Able to move even if read locks are refused whenever a writer waits for the same node. */
  predicate Runnable(s: State, t: nat) {
    && Enabled(s, Go(t))
    && (s.threads[t].pc.Acquire? && !Exclusive(s.mutexes, s.threads[t].role) ==>
          !WriterWaits(s, Base(s.threads[t]) + s.threads[t].pc.k))
  }

  function Wanted(s: State, t: nat): nat
    requires t < |s.threads|
  {
    if s.threads[t].pc.Acquire? then Base(s.threads[t]) + s.threads[t].pc.k else |s.lens|
  }

  lemma HolderExists(s: State, p: nat, exclusive: bool) returns (v: nat)
    requires Inv(s) && p < |s.lens| && !Available(s.locks[p], exclusive)
    ensures v < |s.threads| && Holds(s.threads[v], p) && MidPass(s.threads[v])
  {
    assert LockOk(s.locks[p], p, s.mutexes, s.threads);
    if s.locks[p].writers != {} {
      v :| v in s.locks[p].writers;
    } else {
      v :| v in s.locks[p].readers;
    }
  }

  /** From any thread inside a pass, following who waits for whom leads to larger and larger positions
      and ends at a thread that can run. */
  lemma {:induction false} SomebodyRuns(s: State, t: nat) returns (u: nat)
    requires Inv(s) && t < |s.threads| && MidPass(s.threads[t])
    ensures u < |s.threads| && MidPass(s.threads[u]) && Runnable(s, u)
    decreases |s.lens| - Wanted(s, t)
  {
    assert ThreadOk(s.lens, s.threads[t]);
    if Runnable(s, t) {
      return t;
    }
    var p := Wanted(s, t);
    if Available(s.locks[p], Exclusive(s.mutexes, s.threads[t].role)) {
      var w :| 0 <= w < |s.threads| && Locks(s.threads[w], p) && Exclusive(s.mutexes, s.threads[w].role);
      if Available(s.locks[p], true) {
        return w;
      }
    }
    var v := HolderExists(s, p, true);
    assert ThreadOk(s.lens, s.threads[v]);
    u := SomebodyRuns(s, v);
  }

  // ---------------------------------------------------------------- draining

  function PcRest(pc: Pc): int {
    match pc
    case Start => 0
    case LoopTest => 11
    case Acquire(k) => 10 - 2 * k
    case Test(k) => 11 - 2 * k
    case Work => 5
    case Release(k, broke) => if broke then k + 1 else k
    case PassEnd => 1
  }

  /** Steps a thread can still make before it is back at the top of its outer loop. */
  function Rest(n: nat, th: Thread): int {
    if th.pc.Start? then 0 else 12 * Turns(n, th) + PcRest(th.pc)
  }

  /** Iterations left: a finder goes to the end of the list, a swapper stops there if its index is beyond. */
  function Turns(n: nat, th: Thread): int {
    if th.role.Finder? then n - th.pos else (if th.index < n then th.index else n - 1) - th.i
  }

  function Rests(lens: seq<nat>, ts: seq<Thread>): seq<int> {
    seq(|ts|, t requires 0 <= t < |ts| => Rest(|lens|, ts[t]))
  }

  lemma {:induction false} NextReducesRest(lens: seq<nat>, th: Thread)
    requires ThreadOk(lens, th) && MidPass(th) && !Faulty(|lens|, th)
    ensures 0 <= Rest(|lens|, NextThread(lens, th)) < Rest(|lens|, th)
  {
  }

  lemma {:induction false} GoReducesRest(s: State, t: nat)
    requires Inv(s) && Enabled(s, Go(t)) && MidPass(s.threads[t])
    ensures Sum(Rests(s.lens, Step(s, Go(t)).threads)) < Sum(Rests(s.lens, s.threads))
  {
    var th := s.threads[t];
    assert ThreadOk(s.lens, th);
    NextKeepsThread(s.lens, th);
    NextReducesRest(s.lens, th);
    var th' := NextThread(s.lens, th);
    assert Rests(s.lens, s.threads[t := th']) == Rests(s.lens, s.threads)[t := Rest(|s.lens|, th')];
    SumUpdate(Rests(s.lens, s.threads), t, Rest(|s.lens|, th'));
  }

  lemma RestNonNegative(s: State)
    requires Inv(s)
    ensures 0 <= Sum(Rests(s.lens, s.threads))
  {
    forall t | 0 <= t < |s.threads|
      ensures 0 <= Rests(s.lens, s.threads)[t]
    {
      assert ThreadOk(s.lens, s.threads[t]);
    }
    SumNonNegative(Rests(s.lens, s.threads));
  }

  predicate Quiet(s: State) {
    forall t :: 0 <= t < |s.threads| ==> !MidPass(s.threads[t])
  }

  lemma QuietHoldsNothing(s: State)
    requires Inv(s) && Quiet(s)
    ensures forall p :: 0 <= p < |s.locks| ==> s.locks[p] == RwLock({}, {})
  {
  }

  /** A run whose every step is possible under the strictest lock policy. */
  predicate StrictRun(s: State, run: seq<Action>)
    decreases |run|
  {
    run == [] || (run[0].Go? && Runnable(s, run[0].t) && StrictRun(Step(s, run[0]), run[1..]))
  }

  /** No deadlock, and more: from every reachable state the threads can all finish the pass they are in
      and give back every lock, even when waiting writers shut out readers. */
  lemma {:induction false} CanAlwaysDrain(s: State) returns (run: seq<Action>)
    requires Inv(s)
    ensures StrictRun(s, run) && ValidRun(s, run) && |run| <= Sum(Rests(s.lens, s.threads))
    ensures var e := Exec(s, run); Quiet(e) && e.locks == seq(|s.lens|, _ => RwLock({}, {}))
    decreases Sum(Rests(s.lens, s.threads))
  {
    RestNonNegative(s);
    if Quiet(s) {
      QuietHoldsNothing(s);
      return [];
    }
    var t :| 0 <= t < |s.threads| && MidPass(s.threads[t]);
    var u := SomebodyRuns(s, t);
    var s' := Step(s, Go(u));
    GoKeepsInv(s, u);
    GoReducesRest(s, u);
    RestNonNegative(s');
    var rest := CanAlwaysDrain(s');
    run := [Go(u)] + rest;
    assert run[1..] == rest;
  }

  /** And no schedule can keep a thread inside one pass forever: a run in which nobody begins a new
      pass is bounded by the work left in the passes under way. */
  predicate NoNewPass(s: State, run: seq<Action>)
    requires ValidRun(s, run)
    decreases |run|
  {
    run == [] || (run[0].Go? && MidPass(s.threads[run[0].t]) && NoNewPass(Step(s, run[0]), run[1..]))
  }

  lemma {:induction false} PassesAreBounded(s: State, run: seq<Action>)
    requires Inv(s) && ValidRun(s, run) && NoNewPass(s, run)
    ensures |run| <= Sum(Rests(s.lens, s.threads))
    decreases |run|
  {
    RestNonNegative(s);
    if run != [] {
      GoKeepsInv(s, run[0].t);
      GoReducesRest(s, run[0].t);
      PassesAreBounded(Step(s, run[0]), run[1..]);
    }
  }

  lemma {:induction false} InitEstablishesInv(lens: seq<nat>, mutexes: bool, roles: seq<Role>)
    ensures Inv(Init(lens, mutexes, roles)) && Quiet(Init(lens, mutexes, roles))
  {
  }

  lemma {:induction false} RunKeepsList(s: State, run: seq<Action>)
    requires ValidRun(s, run)
    ensures Exec(s, run).lens == s.lens
    decreases |run|
  {
    if run != [] {
      RunKeepsList(Step(s, run[0]), run[1..]);
    }
  }

  lemma {:induction false} RunKeepsRoles(s: State, run: seq<Action>)
    requires ValidRun(s, run)
    ensures var e := Exec(s, run);
            && |e.threads| == |s.threads| && |e.locks| == |s.locks| && e.mutexes == s.mutexes
            && forall t :: 0 <= t < |s.threads| ==> e.threads[t].role == s.threads[t].role
    decreases |run|
  {
    if run != [] {
      RunKeepsRoles(Step(s, run[0]), run[1..]);
    }
  }

  /** Only a lock holds a thread up, and a swapper may choose any index. */
  lemma EveryThreadMayBeNext(s: State, t: nat, index: nat)
    requires Inv(s) && t < |s.threads|
    ensures !s.threads[t].pc.Acquire? ==> Enabled(s, Go(t)) || Enabled(s, Pick(t, index))
    ensures s.threads[t].pc.Start? && s.threads[t].role.Swapper? && 2 <= |s.lens| ==> Enabled(s, Pick(t, index))
  {
  }

  /** The passes a thread has completed in a run. */
  function Completed(s: State, run: seq<Action>, t: nat): nat
    requires ValidRun(s, run)
    decreases |run|
  {
    if run == [] then 0
    else Completed(Step(s, run[0]), run[1..], t) + if run[0] == Go(t) && s.threads[t].pc.PassEnd? then 1 else 0
  }

  lemma {:induction false} PassesAreCounted(s: State, run: seq<Action>, t: nat)
    requires ValidRun(s, run) && t < |s.threads|
    ensures t < |Exec(s, run).threads| && Exec(s, run).threads[t].passes == s.threads[t].passes + Completed(s, run, t)
    decreases |run|
  {
    if run != [] {
      PassesAreCounted(Step(s, run[0]), run[1..], t);
    }
  }

  /** In every run of rwlock.c a swapper on a node is alone there, and in every run of main.c everybody is;
      a finder of rwlock.c is held up only by a swapper. */
  lemma {:induction false} EveryRunExcludes(lens: seq<nat>, mutexes: bool, roles: seq<Role>, run: seq<Action>,
                                            t: nat, p: nat)
    requires ValidRun(Init(lens, mutexes, roles), run) && t < |roles| && p < |lens|
    ensures var e := Exec(Init(lens, mutexes, roles), run);
            && |e.threads| == |roles| && |e.locks| == |lens|
            && (Holds(e.threads[t], p) ==>
                  forall u :: 0 <= u < |roles| && u != t && Holds(e.threads[u], p) ==>
                    !mutexes && roles[t].Finder? && roles[u].Finder?)
            && (e.threads[t].pc.Acquire? && p == e.threads[t].pos + e.threads[t].pc.k ==>
                  (Enabled(e, Go(t)) <==>
                     forall u :: 0 <= u < |roles| && Holds(e.threads[u], p) ==>
                       !mutexes && roles[t].Finder? && roles[u].Finder?))
  {
    var s := Init(lens, mutexes, roles);
    InitEstablishesInv(lens, mutexes, roles);
    RunKeepsInv(s, run);
    RunKeepsRoles(s, run);
    RunKeepsList(s, run);
    LockModes(Exec(s, run), t, p);
  }

  // ---------------------------------------------------------------- every schedule completes passes

  /** The actions of one pass over n nodes, the one that begins it included. */
  function PassCost(n: nat): nat {
    12 * n + 11
  }

  /** What a thread still may do in its pass, less the price `k` of each pass it has begun. */
  function Account(n: nat, k: nat, th: Thread): int {
    Rest(n, th) - k * (th.passes + if th.pc.Start? then 0 else 1)
  }

  function Accounts(n: nat, k: nat, ts: seq<Thread>): seq<int> {
    seq(|ts|, t requires 0 <= t < |ts| => Account(n, k, ts[t]))
  }

  function Passes(ts: seq<Thread>): seq<int> {
    seq(|ts|, t requires 0 <= t < |ts| => ts[t].passes)
  }

  /** Beginning a pass costs `k` and leaves at most k - 1 to do. */
  lemma BeginPays(n: nat, th: Thread, th': Thread)
    requires th.pc.Start? && !th'.pc.Start? && th'.passes == th.passes && Rest(n, th') < PassCost(n)
    ensures 1 + Account(n, PassCost(n), th') <= Account(n, PassCost(n), th)
  {
    var k := PassCost(n);
    assert k * (th.passes + 1) == k * th.passes + k;
  }

  lemma NextPays(lens: seq<nat>, th: Thread, k: nat)
    requires ThreadOk(lens, th) && !Faulty(|lens|, th) && MidPass(th)
    ensures 1 + Account(|lens|, k, NextThread(lens, th)) <= Account(|lens|, k, th)
  {
    NextReducesRest(lens, th);
  }

  lemma {:induction false} StepPays(s: State, a: Action)
    requires Inv(s) && Enabled(s, a) && 2 <= |s.lens|
    ensures var s', n, k := Step(s, a), |s.lens|, PassCost(|s.lens|);
            && s'.lens == s.lens && |s'.threads| == |s.threads|
            && 1 + Sum(Accounts(n, k, s'.threads)) <= Sum(Accounts(n, k, s.threads))
  {
    var th, s', n, k := s.threads[a.t], Step(s, a), |s.lens|, PassCost(|s.lens|);
    assert ThreadOk(s.lens, th);
    NextKeepsThread(s.lens, th);
    var th' := s'.threads[a.t];
    if MidPass(th) {
      NextPays(s.lens, th, k);
    } else {
      BeginPays(n, th, th');
    }
    assert s'.threads == s.threads[a.t := th'];
    assert Accounts(n, k, s'.threads) == Accounts(n, k, s.threads)[a.t := Account(n, k, th')];
    SumUpdate(Accounts(n, k, s.threads), a.t, Account(n, k, th'));
  }

  lemma {:induction false} RunPays(s: State, run: seq<Action>)
    requires Inv(s) && ValidRun(s, run) && 2 <= |s.lens|
    ensures var e, n, k := Exec(s, run), |s.lens|, PassCost(|s.lens|);
            && Inv(e) && e.lens == s.lens && |e.threads| == |s.threads|
            && |run| + Sum(Accounts(n, k, e.threads)) <= Sum(Accounts(n, k, s.threads))
    decreases |run|
  {
    if run != [] {
      StepPays(s, run[0]);
      StepKeepsInv(s, run[0]);
      RunPays(Step(s, run[0]), run[1..]);
    }
  }

  lemma Distributes(k: int, x: int, y: int)
    ensures k * (x + y) == k * x + k * y
  {
  }

  lemma AccountBounded(n: nat, k: nat, th: Thread)
    requires 0 <= Rest(n, th)
    ensures 0 <= Account(n, k, th) + k * (th.passes + 1)
  {
    Distributes(k, th.passes, 1);
  }

  lemma {:induction false} AccountsBounded(n: nat, k: nat, ts: seq<Thread>)
    requires forall t :: 0 <= t < |ts| ==> 0 <= Rest(n, ts[t])
    ensures 0 <= Sum(Accounts(n, k, ts)) + k * (Sum(Passes(ts)) + |ts|)
  {
    if ts != [] {
      var rest := ts[1..];
      assert Accounts(n, k, ts)[1..] == Accounts(n, k, rest) && Passes(ts)[1..] == Passes(rest);
      AccountBounded(n, k, ts[0]);
      AccountsBounded(n, k, rest);
      Distributes(k, ts[0].passes + 1, Sum(Passes(rest)) + |rest|);
    }
  }

  lemma {:induction false} FreshAccounts(n: nat, k: nat, ts: seq<Thread>)
    requires forall t :: 0 <= t < |ts| ==> ts[t].pc.Start? && ts[t].passes == 0
    ensures Sum(Accounts(n, k, ts)) == 0
  {
    if ts != [] {
      assert Accounts(n, k, ts)[1..] == Accounts(n, k, ts[1..]);
      FreshAccounts(n, k, ts[1..]);
    }
  }

  /** No schedule runs for long without completing passes: over n nodes, T threads that have completed P
      passes have taken at most (12n + 11)(P + T) actions. */
  lemma {:induction false} EverySchedulePasses(lens: seq<nat>, mutexes: bool, roles: seq<Role>, run: seq<Action>)
    requires ValidRun(Init(lens, mutexes, roles), run) && 2 <= |lens|
    ensures var e := Exec(Init(lens, mutexes, roles), run);
            |run| <= PassCost(|lens|) * (Sum(Passes(e.threads)) + |roles|)
  {
    var s, n, k := Init(lens, mutexes, roles), |lens|, PassCost(|lens|);
    InitEstablishesInv(lens, mutexes, roles);
    RunPays(s, run);
    FreshAccounts(n, k, s.threads);
    var e := Exec(s, run);
    forall t | 0 <= t < |e.threads|
      ensures 0 <= Rest(n, e.threads[t])
    {
      assert ThreadOk(lens, e.threads[t]);
    }
    AccountsBounded(n, k, e.threads);
  }

  /** Everything at once, for every run of every mix of threads over every list: no NULL is followed,
      complete passes have counted right, and all locks can still be given back. */
  lemma {:induction false} EveryRun(lens: seq<nat>, mutexes: bool, roles: seq<Role>, run: seq<Action>)
    returns (more: seq<Action>)
    requires ValidRun(Init(lens, mutexes, roles), run)
    ensures var e := Exec(Init(lens, mutexes, roles), run);
            && Inv(e) && !e.fault && e.lens == lens
            && (forall t :: 0 <= t < |e.threads| && e.threads[t].role.Finder? && e.threads[t].result.Some? ==>
                  2 <= |lens| && CountedRight(lens, e.threads[t]))
            && StrictRun(e, more) && ValidRun(e, more) && Quiet(Exec(e, more))
  {
    var s := Init(lens, mutexes, roles);
    InitEstablishesInv(lens, mutexes, roles);
    RunKeepsInv(s, run);
    RunKeepsList(s, run);
    var e := Exec(s, run);
    forall t | 0 <= t < |e.threads| && e.threads[t].role.Finder? && e.threads[t].result.Some?
      ensures 2 <= |lens| && CountedRight(lens, e.threads[t])
    {
      CompletePassCounts(e, t);
    }
    more := CanAlwaysDrain(e);
  }
}
