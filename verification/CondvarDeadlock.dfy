/**
 When the condition-variable queue can deadlock.  Both operations share one condition variable and
 wake one waiter only, so a signal may go to a thread that has to wait again.
 */
module CondvarDeadlock {
  import opened CondvarQueue

  /** Only a wakeup nobody signalled could still happen. */
  ghost predicate Stuck(s: State) {
    forall a :: Enabled(s, a) ==> a.Spurious?
  }

  ghost predicate Deadlocks(max: int, roles: seq<Role>, run: seq<Action>) {
    ValidRun(Init(max, roles), run) && Stuck(Exec(Init(max, roles), run))
  }

  predicate OneOfEach(roles: seq<Role>) {
    |roles| == 2 && roles[0].Writer? != roles[1].Writer?
  }

  // ---------------------------------------------------------------- one writer and one reader

  predicate Pairing(s: State) {
    |s.threads| == 2 && s.threads[0].role.Writer? != s.threads[1].role.Writer?
  }

  /** If thread t waits, its condition is still false or the other thread is about to signal. */
  predicate Remembered(s: State, t: nat)
    requires |s.threads| == 2 && t < 2
  {
    s.threads[t].pc.Waiting? ==>
      s.sh.flag == (if s.threads[t].role.Writer? then NOK else OK) || s.threads[1 - t].pc.Signal?
  }

  predicate NobodyForgotten(s: State) {
    Pairing(s) && Remembered(s, 0) && Remembered(s, 1)
  }

  lemma {:induction false} NobodyForgottenStep(s: State, a: Action)
    requires Inv(s) && NobodyForgotten(s) && s.sh.max != 0 && Enabled(s, a)
    ensures NobodyForgotten(Step(s, a)) && Step(s, a).sh.max == s.sh.max
  {
    if a.Cpu? && s.threads[a.t].pc == Check {
      assert s.mutex == HeldBy(a.t);
    }
  }

  lemma {:induction false} NobodyForgottenRun(s: State, run: seq<Action>)
    requires Inv(s) && NobodyForgotten(s) && s.sh.max != 0 && ValidRun(s, run)
    ensures Inv(Exec(s, run)) && NobodyForgotten(Exec(s, run))
    decreases |run|
  {
    if run != [] {
      StepKeepsInv(s, run[0]);
      NobodyForgottenStep(s, run[0]);
      NobodyForgottenRun(Step(s, run[0]), run[1..]);
    }
  }

  /** A scheduler for the pair: the holder of the mutex goes on, or a thread that does not wait. */
  function NextMove(s: State): Action
    requires |s.threads| == 2
  {
    var waits := s.threads[0].pc.Waiting?;
    var t := if s.mutex == HeldBy(0) then 0 else if s.mutex.HeldBy? || waits then 1 else 0;
    if s.threads[t].pc.Signal? && s.threads[1 - t].pc.Waiting? then Wake(t, 1 - t) else Cpu(t)
  }

  lemma NextMoveEnabled(s: State)
    requires Inv(s) && NobodyForgotten(s)
    ensures !(s.threads[0].pc.Waiting? && s.threads[1].pc.Waiting?)
    ensures Enabled(s, NextMove(s)) && !NextMove(s).Spurious?
  {
  }

  /** With one writer, one reader and a capacity other than 0 the two never wait together, and some
      action other than a spurious wakeup is always possible. */
  lemma {:induction false} PairKeepsMoving(max: int, roles: seq<Role>, run: seq<Action>)
    requires OneOfEach(roles) && max != 0 && ValidRun(Init(max, roles), run)
    ensures var e := Exec(Init(max, roles), run);
            && |e.threads| == 2 && !(e.threads[0].pc.Waiting? && e.threads[1].pc.Waiting?)
            && Enabled(e, NextMove(e)) && !NextMove(e).Spurious?
  {
    NobodyForgottenRun(Init(max, roles), run);
    NextMoveEnabled(Exec(Init(max, roles), run));
  }

  // ---------------------------------------------------------------- building runs

  /** `run` leads from s0 to s without a spurious wakeup. */
  ghost predicate Leads(s0: State, run: seq<Action>, s: State) {
    && ValidRun(s0, run) && Exec(s0, run) == s
    && forall k :: 0 <= k < |run| ==> !run[k].Spurious?
  }

  lemma Then(s0: State, run: seq<Action>, s: State, a: Action)
    requires Leads(s0, run, s) && Enabled(s, a) && !a.Spurious?
    ensures Leads(s0, run + [a], Step(s, a))
  {
    OneMoreAction(s0, run, a);
  }

  /** Nobody is inside a call: each thread is about to lock or waits, and the flag is right. */
  ghost predicate Quiet(s: State) {
    && s.mutex == Free && Settled(s.sh)
    && forall t :: 0 <= t < |s.threads| ==> s.threads[t].pc == Lock || s.threads[t].pc == Waiting
  }

  /** The first k threads have tried, and those that must wait are waiting. */
  function Lulled(s: State, k: nat): (s': State)
    requires k <= |s.threads|
    ensures |s'.threads| == |s.threads|
  {
    s.(threads := seq(|s.threads|, t requires 0 <= t < |s.threads| =>
      if t < k && MustWait(s.sh, s.threads[t].role) then s.threads[t].(pc := Waiting) else s.threads[t]))
  }

  lemma {:induction false} LullTo(s0: State, run: seq<Action>, s: State, k: nat) returns (run': seq<Action>)
    requires Leads(s0, run, s) && Quiet(s) && k <= |s.threads|
    ensures Leads(s0, run', Lulled(s, k))
    decreases k
  {
    if k == 0 {
      assert Lulled(s, 0).threads == s.threads;
      return run;
    }
    run' := LullTo(s0, run, s, k - 1);
    var t, u := k - 1, Lulled(s, k - 1);
    if u.threads[t].pc == Lock && MustWait(s.sh, s.threads[t].role) {
      var u1 := Step(u, Cpu(t));
      Then(s0, run', u, Cpu(t));
      Then(s0, run' + [Cpu(t)], u1, Cpu(t));
      run' := run' + [Cpu(t)] + [Cpu(t)];
      assert Step(u1, Cpu(t)).threads == Lulled(s, k).threads;
    } else {
      assert u.threads == Lulled(s, k).threads;
    }
  }

  /** Lock, pass the test and move the item: up to the signal. */
  lemma {:induction false} MoveTo(s0: State, run: seq<Action>, s: State, t: nat) returns (run': seq<Action>, m: State)
    requires Leads(s0, run, s) && Quiet(s) && At(s, t, Lock) && !MustWait(s.sh, s.threads[t].role)
    ensures Leads(s0, run', m) && m.mutex == HeldBy(t)
    ensures Settled(m.sh) && m.sh.flag != s.sh.flag && m.sh.max == s.sh.max
    ensures exists v :: m.threads == s.threads[t := s.threads[t].(pc := Signal, val := v)]
  {
    run', m := run, s;
    Then(s0, run', m, Cpu(t));
    run', m := run' + [Cpu(t)], Step(m, Cpu(t));
    Then(s0, run', m, Cpu(t));
    run', m := run' + [Cpu(t)], Step(m, Cpu(t));
    Then(s0, run', m, Cpu(t));
    run', m := run' + [Cpu(t)], Step(m, Cpu(t));
    Then(s0, run', m, Cpu(t));
    run', m := run' + [Cpu(t)], Step(m, Cpu(t));
    Then(s0, run', m, Cpu(t));
    run', m := run' + [Cpu(t)], Step(m, Cpu(t));
    var v := m.threads[t].val;
    assert m.threads == s.threads[t := s.threads[t].(pc := Signal, val := v)];
  }

  /** What a call of thread t that wakes w (or nobody, if w == t) leaves behind. */
  ghost predicate Turned(s: State, s': State, t: nat, w: nat) {
    && Quiet(s') && |s'.threads| == |s.threads|
    && s'.sh.max == s.sh.max && s'.sh.flag != s.sh.flag
    && forall u :: 0 <= u < |s.threads| ==>
         && s'.threads[u].role.Writer? == s.threads[u].role.Writer?
         && s'.threads[u].pc == if u == t || u == w then Lock else s.threads[u].pc
  }

  /** One whole call of a thread that need not wait. */
  lemma {:induction false} CallTo(s0: State, run: seq<Action>, s: State, t: nat, w: nat)
    returns (run': seq<Action>, s': State)
    requires Leads(s0, run, s) && Quiet(s) && At(s, t, Lock) && !MustWait(s.sh, s.threads[t].role)
    requires At(s, w, Waiting) || (w == t && forall u :: 0 <= u < |s.threads| ==> s.threads[u].pc == Lock)
    ensures Leads(s0, run', s') && Turned(s, s', t, w)
  {
    run', s' := MoveTo(s0, run, s, t);
    var signal := if w == t then Cpu(t) else Wake(t, w);
    Then(s0, run', s', signal);
    run', s' := run' + [signal], Step(s', signal);
    Then(s0, run', s', Cpu(t));
    run', s' := run' + [Cpu(t)], Step(s', Cpu(t));
    Then(s0, run', s', Cpu(t));
    run', s' := run' + [Cpu(t)], Step(s', Cpu(t));
  }

  // ---------------------------------------------------------------- every other combination of threads

  ghost predicate AllWait(s: State) {
    s.mutex == Free && forall t :: 0 <= t < |s.threads| ==> s.threads[t].pc == Waiting
  }

  /** The signal meant for the other side goes to a second thread of the same side: a1 and a2 wait for
      b, b wakes a1, a1 wakes a2, and in the end all of them wait. */
  lemma {:induction false} StolenSignal(s0: State, run: seq<Action>, s: State, b: nat, a1: nat, a2: nat)
    returns (run': seq<Action>, e: State)
    requires Leads(s0, run, s) && Quiet(s) && s.sh.max != 0
    requires forall u :: 0 <= u < |s.threads| && MustWait(s.sh, s.threads[u].role) ==> s.threads[u].pc == Waiting
    requires At(s, b, Lock) && At(s, a1, Waiting) && At(s, a2, Waiting) && a1 != a2
    requires MustWait(s.sh, s.threads[a1].role) && MustWait(s.sh, s.threads[a2].role)
    ensures Leads(s0, run', e) && AllWait(e) && |e.threads| == |s.threads| && !MustWait(e.sh, e.threads[b].role)
  {
    var n := |s.threads|;
    var s1, s3;
    run', s1 := CallTo(s0, run, s, b, a1);
    run' := LullTo(s0, run', s1, n);
    var s2 := Lulled(s1, n);
    run', s3 := CallTo(s0, run', s2, a1, a2);
    run' := LullTo(s0, run', s3, n);
    e := Lulled(s3, n);
  }

  /** Threads of one kind only, or no capacity: nobody can ever go on. */
  lemma {:induction false} NoPartner(max: int, roles: seq<Role>) returns (run: seq<Action>, e: State)
    requires max == 0 || forall t :: 0 <= t < |roles| ==> roles[t].Writer? == roles[0].Writer?
    ensures Leads(Init(max, roles), run, e) && AllWait(e)
  {
    var s, n := Init(max, roles), |roles|;
    run, e := [], s;
    if max != 0 && n != 0 && roles[0].Writer? {
      run, e := CallTo(s, run, s, 0, 0);
    }
    run := LullTo(s, run, e, n);
    e := Lulled(e, n);
  }

  /** Both kinds present and two threads of a1's kind: everybody ends up waiting, although b has
      nothing to wait for. */
  lemma {:induction false} ThreeIsACrowd(max: int, roles: seq<Role>, b: nat, a1: nat, a2: nat)
    returns (run: seq<Action>, e: State)
    requires max != 0 && b < |roles| && a1 < |roles| && a2 < |roles| && a1 != a2
    requires roles[a1].Writer? == roles[a2].Writer? != roles[b].Writer?
    ensures Leads(Init(max, roles), run, e) && AllWait(e)
    ensures |e.threads| == |roles| && !MustWait(e.sh, e.threads[b].role)
  {
    var s, n := Init(max, roles), |roles|;
    run, e := [], s;
    if roles[a1].Writer? {
      run, e := CallTo(s, run, s, a1, a1);
    }
    run := LullTo(s, run, e, n);
    run, e := StolenSignal(s, run, Lulled(e, n), b, a1, a2);
  }

  /** A deadlocking run without spurious wakeups for every capacity and every set of threads other
      than a pair with room for an item. */
  lemma {:induction false} CanDeadlock(max: int, roles: seq<Role>) returns (run: seq<Action>, e: State)
    requires max == 0 || !OneOfEach(roles)
    ensures Leads(Init(max, roles), run, e) && AllWait(e)
  {
    if max == 0 || forall t :: 0 <= t < |roles| ==> roles[t].Writer? == roles[0].Writer? {
      run, e := NoPartner(max, roles);
    } else {
      var other :| 0 <= other < |roles| && roles[other].Writer? != roles[0].Writer?;
      var third := if other == 1 then 2 else 1;
      if roles[third].Writer? == roles[0].Writer? {
        run, e := ThreeIsACrowd(max, roles, other, 0, third);
      } else {
        run, e := ThreeIsACrowd(max, roles, 0, other, third);
      }
    }
  }

  /** The queue is free of deadlock exactly for one writer and one reader with a capacity other than 0;
      a negative capacity, which `count` never equals, is as good as a positive one. */
  lemma {:induction false} DeadlockIff(max: int, roles: seq<Role>)
    ensures (exists run :: Deadlocks(max, roles, run)) <==> max == 0 || !OneOfEach(roles)
  {
    if max == 0 || !OneOfEach(roles) {
      var run, e := CanDeadlock(max, roles);
      assert Deadlocks(max, roles, run);
    } else {
      forall run | ValidRun(Init(max, roles), run)
        ensures !Deadlocks(max, roles, run)
      {
        PairKeepsMoving(max, roles, run);
      }
    }
  }
}
