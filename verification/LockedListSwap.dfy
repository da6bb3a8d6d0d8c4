/** Which locks the loops take and give back, over whole runs, and where the pointers of random_swap are. */
module LockedListSwap {
  import opened LockedList
  import opened LockedListProgress
  import opened ListStorage

  datatype LockEvent = Locked(p: nat) | Unlocked(p: nat)

  /** The lock call a thread is about to make. */
  function EventOf(th: Thread): seq<LockEvent> {
    match th.pc
    case Acquire(k) => [Locked(Base(th) + k)]
    case Release(k, _) => if k == 0 then [] else [Unlocked(Base(th) + k - 1)]
    case _ => []
  }

  /** `before`, and what thread `t` locks or unlocks in one action; a new pass starts afresh. */
  function CallsAfter(s: State, a: Action, t: nat, before: seq<LockEvent>): seq<LockEvent>
    requires Enabled(s, a)
  {
    if a.t != t then before
    else if a.Pick? || s.threads[t].pc.Start? then [] else before + EventOf(s.threads[t])
  }

  /** The lock calls thread `t` makes in a run since it last began a pass; `before` are earlier ones. */
  function Calls(s: State, run: seq<Action>, t: nat, before: seq<LockEvent>): seq<LockEvent>
    requires ValidRun(s, run)
    decreases |run|
  {
    if run == [] then before
    else
      var a := run[0];
      var now := CallsAfter(s, a, t, before);
      Calls(Step(s, a), run[1..], t, now)
  }

  /** One whole iteration: three consecutive nodes locked in order and unlocked in reverse. */
  function Iteration(i: nat): seq<LockEvent> {
    [Locked(i), Locked(i + 1), Locked(i + 2), Unlocked(i + 2), Unlocked(i + 1), Unlocked(i)]
  }

  function Iterations(n: nat): seq<LockEvent> {
    if n == 0 then [] else Iterations(n - 1) + Iteration(n - 1)
  }

  function CallsMade(pc: Pc): nat {
    match pc
    case Acquire(k) => k
    case Test(k) => k
    case Work => 3
    case Release(k, _) => 6 - (if k <= 6 then k else 6)
    case _ => 0
  }

  /** What a swapper in iteration `i` has locked and unlocked since it chose its index. */
  function CallsSoFar(th: Thread): seq<LockEvent> {
    Iterations(th.i) + if CallsMade(th.pc) <= 6 then Iteration(th.i)[..CallsMade(th.pc)] else []
  }

  lemma SwapperCalls(lens: seq<nat>, th: Thread)
    requires ThreadOk(lens, th) && th.role.Swapper? && !th.pc.Start? && !th.pc.PassEnd? && th.index <= |lens| - 2
    ensures !Faulty(|lens|, th) && CallsSoFar(NextThread(lens, th)) == CallsSoFar(th) + EventOf(th)
  {
    var its, it := Iterations(th.i), Iteration(th.i);
    match th.pc
    case Acquire(k) => assert it[..k + 1] == it[..k] + [Locked(th.i + k)];
    case Release(k, _) =>
      assert it[..6 - k] + [Unlocked(th.i + k - 1)] == it[..7 - k];
      if k == 1 {
        assert it[..6] == it;
        assert its + it == Iterations(th.i + 1);
      }
    case _ =>
  }

  ghost predicate Chosen(run: seq<Action>, n: nat) {
    forall k :: 0 <= k < |run| && run[k].Pick? ==> CanBeDrawn(n, run[k].index)
  }

  /** What is known of a swapper, with the calls it has made since it chose its index. */
  predicate OnCourse(n: nat, th: Thread, calls: seq<LockEvent>) {
    th.role.Swapper? && (!th.pc.Start? ==> th.index <= n - 2 && calls == CallsSoFar(th))
  }

  lemma OnCourseStep(s: State, a: Action, t: nat, calls: seq<LockEvent>)
    requires Inv(s) && Enabled(s, a) && t < |s.threads| && OnCourse(|s.lens|, s.threads[t], calls)
    requires a.Pick? ==> CanBeDrawn(|s.lens|, a.index)
    ensures t < |Step(s, a).threads| && OnCourse(|s.lens|, Step(s, a).threads[t], CallsAfter(s, a, t, calls))
    ensures Step(s, a).lens == s.lens
  {
    var th := s.threads[t];
    assert ThreadOk(s.lens, th);
    if a.t == t {
      if a.Pick? {
        DrawnRange(|s.lens|, a.index);
      } else {
        NextKeepsThread(s.lens, th);
        if !th.pc.Start? && !th.pc.PassEnd? {
          SwapperCalls(s.lens, th);
        }
      }
    }
  }

  lemma {:induction false} OnCourseRun(s: State, run: seq<Action>, t: nat, calls: seq<LockEvent>)
    requires Inv(s) && ValidRun(s, run) && Chosen(run, |s.lens|)
    requires t < |s.threads| && OnCourse(|s.lens|, s.threads[t], calls)
    ensures var e := Exec(s, run);
            Inv(e) && e.lens == s.lens && t < |e.threads| && OnCourse(|s.lens|, e.threads[t], Calls(s, run, t, calls))
    decreases |run|
  {
    if run != [] {
      var a := run[0];
      StepKeepsInv(s, a);
      OnCourseStep(s, a, t, calls);
      assert Chosen(run[1..], |s.lens|) by {
        assert forall k :: 0 <= k < |run[1..]| ==> run[1..][k] == run[k + 1];
      }
      OnCourseRun(Step(s, a), run[1..], t, CallsAfter(s, a, t, calls));
    }
  }

  /** In every run in which the indices come from number_random_node: prev, current and future stay at i,
      i+1 and i+2 and inside the list, no NULL branch is taken, every iteration locks exactly these three
      nodes and unlocks exactly them, nothing is held between iterations, and a pass ends after exactly
      `index` iterations. */
  lemma {:induction false} SwapperPass(lens: seq<nat>, mutexes: bool, roles: seq<Role>, run: seq<Action>, t: nat)
    requires t < |roles| && roles[t].Swapper? && ValidRun(Init(lens, mutexes, roles), run) && Chosen(run, |lens|)
    ensures var e := Exec(Init(lens, mutexes, roles), run);
            && t < |e.threads|
            && var th, calls := e.threads[t], Calls(Init(lens, mutexes, roles), run, t, []);
               && !(th.pc.Release? && th.pc.broke)
               && (th.pc.LoopTest? || th.pc.PassEnd? ==> calls == Iterations(th.i) && forall p :: !Holds(th, p))
               && (th.pc.PassEnd? ==> th.i == th.index)
               && (th.pc.Acquire? || th.pc.Test? || th.pc.Work? ==>
                     && th.prev == th.i && th.current == th.i + 1 && th.future == th.i + 2 < |lens|
                     && HeldCount(th) <= 3 && calls == Iterations(th.i) + Iteration(th.i)[..HeldCount(th)])
               && (th.pc.Release? ==>
                     && th.prev == th.i + 1 && th.current == th.i + 2 && th.future == th.i + 3 <= |lens|
                     && HeldCount(th) <= 3 && calls == Iterations(th.i) + Iteration(th.i)[..6 - HeldCount(th)])
  {
    var s := Init(lens, mutexes, roles);
    InitEstablishesInv(lens, mutexes, roles);
    OnCourseRun(s, run, t, []);
    var th := Exec(s, run).threads[t];
    assert ThreadOk(lens, th);
  }

  /** For any index at all: the pass makes min(index, n-2) iterations, so it is cut short by a NULL
      exactly when the index exceeds n-2. */
  lemma {:induction false} NullBranchIff(lens: seq<nat>, mutexes: bool, roles: seq<Role>, run: seq<Action>, t: nat)
    requires ValidRun(Init(lens, mutexes, roles), run)
    ensures var e := Exec(Init(lens, mutexes, roles), run);
            t < |e.threads| && e.threads[t].role.Swapper? && e.threads[t].pc.PassEnd? ==>
              (e.threads[t].i < e.threads[t].index <==> |lens| - 2 < e.threads[t].index)
  {
    InitEstablishesInv(lens, mutexes, roles);
    RunKeepsInv(Init(lens, mutexes, roles), run);
    RunKeepsList(Init(lens, mutexes, roles), run);
    var e := Exec(Init(lens, mutexes, roles), run);
    assert t < |e.threads| ==> ThreadOk(e.lens, e.threads[t]);
  }

  // ---------------------------------------------------------------- the finders

  /** One whole iteration of a finder: two consecutive nodes. */
  function Comparison(p: nat): seq<LockEvent> {
    [Locked(p), Locked(p + 1), Unlocked(p + 1), Unlocked(p)]
  }

  function Comparisons(n: nat): seq<LockEvent> {
    if n == 0 then [] else Comparisons(n - 1) + Comparison(n - 1)
  }

  /** The last iteration finds no following node. */
  function LastLook(p: nat): seq<LockEvent> {
    [Locked(p), Unlocked(p)]
  }

  /** What a finder at node `pos` has locked and unlocked in this pass. */
  function FinderCallsSoFar(th: Thread): seq<LockEvent> {
    Comparisons(th.pos) +
    match th.pc
    case Test(k) => [Locked(th.pos)]
    case Acquire(k) => if k == 0 then [] else [Locked(th.pos)]
    case Work => Comparison(th.pos)[..2]
    case Release(k, broke) => if broke then [Locked(th.pos)] else Comparison(th.pos)[..if k == 2 then 2 else 3]
    case PassEnd => LastLook(th.pos)
    case _ => []
  }

  lemma FinderCalls(lens: seq<nat>, th: Thread)
    requires ThreadOk(lens, th) && th.role.Finder? && !th.pc.Start? && !th.pc.PassEnd?
    ensures !Faulty(|lens|, th) && FinderCallsSoFar(NextThread(lens, th)) == FinderCallsSoFar(th) + EventOf(th)
  {
    var c := Comparison(th.pos);
    if th.pc.Release? && th.pc.k == 1 && !th.pc.broke {
      assert c[..3] + [Unlocked(th.pos)] == c;
      assert Comparisons(th.pos + 1) == Comparisons(th.pos) + c;
    }
  }

  lemma {:induction false} FinderRun(s: State, run: seq<Action>, t: nat, calls: seq<LockEvent>)
    requires Inv(s) && ValidRun(s, run) && 2 <= |s.lens| && t < |s.threads| && s.threads[t].role.Finder?
    requires s.threads[t].pc.Start? || calls == FinderCallsSoFar(s.threads[t])
    ensures var e := Exec(s, run);
            && Inv(e) && e.lens == s.lens && t < |e.threads| && e.threads[t].role.Finder?
            && (e.threads[t].pc.Start? || Calls(s, run, t, calls) == FinderCallsSoFar(e.threads[t]))
    decreases |run|
  {
    if run != [] {
      var a, th := run[0], s.threads[t];
      StepKeepsInv(s, a);
      assert ThreadOk(s.lens, th);
      NextKeepsThread(s.lens, th);
      if a.t == t && !th.pc.Start? && !th.pc.PassEnd? {
        FinderCalls(s.lens, th);
      }
      FinderRun(Step(s, a), run[1..], t, CallsAfter(s, a, t, calls));
    }
  }

  /** In every run a finder that has come to the end of its pass has locked each pair of neighbours, left
      before right, unlocked them in reverse, looked at the last node under its lock, and holds nothing. */
  lemma {:induction false} FinderPass(lens: seq<nat>, mutexes: bool, roles: seq<Role>, run: seq<Action>, t: nat)
    requires t < |roles| && roles[t].Finder? && ValidRun(Init(lens, mutexes, roles), run) && 2 <= |lens|
    ensures var e := Exec(Init(lens, mutexes, roles), run);
            && t < |e.threads|
            && var th, calls := e.threads[t], Calls(Init(lens, mutexes, roles), run, t, []);
               && (th.pc.Work? ==> calls == Comparisons(th.pos) + [Locked(th.pos), Locked(th.pos + 1)])
               && (th.pc.PassEnd? ==>
                     calls == Comparisons(|lens| - 1) + LastLook(|lens| - 1) && forall p :: !Holds(th, p))
  {
    var s := Init(lens, mutexes, roles);
    InitEstablishesInv(lens, mutexes, roles);
    FinderRun(s, run, t, []);
    assert ThreadOk(lens, Exec(s, run).threads[t]);
  }
}
