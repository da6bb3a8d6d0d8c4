/**
 The list with one lock per node of semestr2/Task2/Task2_3: find_increasing, find_decreasing,
 find_equals and random_swap running in any number of threads over a list of any length.  In rwlock.c
 the finders take read locks and random_swap write locks; in main.c (`mutexes`) every lock is exclusive.
 No call changes the links once the threads run, so a pointer is a position and `n` is NULL.
 */
module LockedList {
  import opened Wrappers

  datatype Kind = Increasing | Decreasing | Equal
  datatype Role = Finder(kind: Kind) | Swapper

  /** Both loops walk a window of consecutive nodes: lock them one after the other (testing for NULL in
      between), do the work, and unlock from the last to the first.  `k` locks are held at each point. */
  datatype Pc =
    | Start                          // top of while(true)
    | LoopTest                       // random_swap: i < index
    | Acquire(k: nat)                // lock node k of the window
    | Test(k: nat)                   // is the next node NULL ?
    | Work                           // compare the pair, or advance prev, current and future
    | Release(k: nat, broke: bool)   // unlock node k-1 of the window
    | PassEnd                        // ++count_increment[...]

  /** `pos` is where the window starts (`node` in random_swap once it has moved on); `counter` counts
      pairs; `i`, `index`, `prev`, `current` and `future` are the variables of random_swap; `result` keeps
      the counter of the last complete pass. */
  datatype Thread = Thread(role: Role, pc: Pc, pos: nat, counter: nat, i: nat, index: nat, prev: nat, current: nat,
                           future: nat, result: Option<nat>, passes: nat)

  datatype RwLock = RwLock(writers: set<nat>, readers: set<nat>)

  /** `lens` are the lengths of the strings stored in the nodes; `fault` is a read through NULL. */
  datatype State = State(lens: seq<nat>, mutexes: bool, locks: seq<RwLock>, threads: seq<Thread>, fault: bool)

  datatype Action = Go(t: nat) | Pick(t: nat, index: nat)

  function Width(role: Role): nat {
    if role.Finder? then 2 else 3
  }

  predicate Exclusive(mutexes: bool, role: Role) {
    mutexes || role.Swapper?
  }

  predicate Available(l: RwLock, exclusive: bool) {
    l.writers == {} && (exclusive ==> l.readers == {})
  }

  /** The pointer through which a thread reaches its nodes: random_swap goes through prev until it has
      moved on, and through the saved node after that. */
  function Base(th: Thread): nat {
    var early := th.pc.Acquire? || th.pc.Test? || th.pc.Work? || (th.pc.Release? && th.pc.broke);
    if th.role.Swapper? && early then th.prev else th.pos
  }

  predicate Enabled(s: State, a: Action) {
    && a.t < |s.threads| && |s.locks| == |s.lens|
    && var th := s.threads[a.t];
       match a
       case Pick(t, index) => th.pc.Start? && th.role.Swapper? && 2 <= |s.lens|
       case Go(t) =>
         && (th.pc.Start? && th.role.Swapper? ==> |s.lens| < 2)
         && (th.pc.Acquire? && Base(th) + th.pc.k < |s.locks| ==>
               Available(s.locks[Base(th) + th.pc.k], Exclusive(s.mutexes, th.role)))
  }

  function Lock(l: RwLock, t: nat, exclusive: bool): RwLock {
    if exclusive then l.(writers := l.writers + {t}) else l.(readers := l.readers + {t})
  }

  function Unlock(l: RwLock, t: nat): RwLock {
    RwLock(l.writers - {t}, l.readers - {t})
  }

  predicate Matches(kind: Kind, x: nat, y: nat) {
    match kind
    case Increasing => x < y
    case Decreasing => x > y
    case Equal => x == y
  }

  /** The end of one loop iteration: the window moves on to the following node. */
  function NextIteration(th: Thread): Thread {
    th.(pc := if th.role.Finder? then Acquire(0) else LoopTest,
        pos := if th.role.Finder? then th.pos + 1 else th.prev, i := th.i + 1)
  }

  /** Reads or locks through NULL. */
  predicate Faulty(n: nat, th: Thread) {
    match th.pc
    case Acquire(k) => n <= Base(th) + k
    case Work => if th.role.Finder? then n <= th.pos + 1 else n <= th.prev || n <= th.current || n <= th.future
    case Release(k, _) => k == 0 || n < Base(th) + k
    case _ => false
  }

  function AfterWork(lens: seq<nat>, th: Thread): Thread
    requires th.role.Finder? ==> th.pos + 1 < |lens|
  {
    match th.role
    case Finder(kind) =>
      th.(pc := Release(2, false),
          counter := th.counter + if Matches(kind, lens[th.pos], lens[th.pos + 1]) then 1 else 0)
    case Swapper =>
      th.(pc := Release(3, false), pos := th.prev, prev := th.prev + 1, current := th.current + 1,
          future := th.future + 1)
  }

  function NextThread(lens: seq<nat>, th: Thread): Thread
    requires !Faulty(|lens|, th)
  {
    match th.pc
    case Start => if |lens| < 2 then th else th.(pc := Acquire(0), pos := 0, counter := 0)
    case LoopTest => th.(pc := if th.i < th.index then Acquire(0) else PassEnd)
    case Acquire(k) => th.(pc := if k + 1 == Width(th.role) then Work else Test(k + 1))
    case Test(k) => th.(pc := if Base(th) + k == |lens| then Release(k, true) else Acquire(k))
    case Work => AfterWork(lens, th)
    case Release(k, broke) =>
      if k > 1 then th.(pc := Release(k - 1, broke)) else if broke then th.(pc := PassEnd) else NextIteration(th)
    case PassEnd =>
      th.(pc := Start, passes := th.passes + 1, result := if th.role.Finder? then Some(th.counter) else th.result)
  }

  function Picked(th: Thread, index: nat): Thread {
    th.(pc := LoopTest, pos := 0, i := 0, index := index, prev := 0, current := 1, future := 2)
  }

  function NextLocks(locks: seq<RwLock>, mutexes: bool, t: nat, th: Thread): seq<RwLock>
    requires !Faulty(|locks|, th)
  {
    match th.pc
    case Acquire(k) => locks[Base(th) + k := Lock(locks[Base(th) + k], t, Exclusive(mutexes, th.role))]
    case Release(k, _) => locks[Base(th) + k - 1 := Unlock(locks[Base(th) + k - 1], t)]
    case _ => locks
  }

  function Step(s: State, a: Action): State
    requires Enabled(s, a)
  {
    var t, th := a.t, s.threads[a.t];
    if a.Pick? then s.(threads := s.threads[t := Picked(th, a.index)])
    else if Faulty(|s.lens|, th) then s.(fault := true)
    else s.(threads := s.threads[t := NextThread(s.lens, th)], locks := NextLocks(s.locks, s.mutexes, t, th))
  }

  function Init(lens: seq<nat>, mutexes: bool, roles: seq<Role>): State {
    State(lens, mutexes, seq(|lens|, _ => RwLock({}, {})),
          seq(|roles|, t requires 0 <= t < |roles| => Thread(roles[t], Start, 0, 0, 0, 0, 0, 0, 0, None, 0)), false)
  }

  predicate ValidRun(s: State, run: seq<Action>)
    decreases |run|
  {
    run == [] || (Enabled(s, run[0]) && ValidRun(Step(s, run[0]), run[1..]))
  }

  function Exec(s: State, run: seq<Action>): State
    requires ValidRun(s, run)
    decreases |run|
  {
    if run == [] then s else Exec(Step(s, run[0]), run[1..])
  }

  // ---------------------------------------------------------------- the inductive invariant

  /** How many of the first `m` adjacent pairs are of the given kind. */
  function Pairs(lens: seq<nat>, kind: Kind, m: nat): nat
    requires m < |lens| || m == 0
  {
    if m == 0 then 0 else Pairs(lens, kind, m - 1) + if Matches(kind, lens[m - 1], lens[m]) then 1 else 0
  }

  /** Every adjacent pair is counted by exactly one of the three finders. */
  lemma {:induction false} PairsSum(lens: seq<nat>, m: nat)
    requires m < |lens| || m == 0
    ensures Pairs(lens, Increasing, m) + Pairs(lens, Decreasing, m) + Pairs(lens, Equal, m) == m
  {
    if m > 0 {
      PairsSum(lens, m - 1);
    }
  }

  function HeldCount(th: Thread): nat {
    match th.pc
    case Acquire(k) => k
    case Test(k) => k
    case Work => Width(th.role)
    case Release(k, _) => k
    case _ => 0
  }

  /** A thread holds a window of at most three consecutive nodes. */
  predicate Holds(th: Thread, p: nat) {
    th.pos <= p < th.pos + HeldCount(th)
  }

  predicate WindowOk(n: nat, th: Thread) {
    match th.pc
    case Start => true
    case LoopTest => th.role.Swapper? && th.pos + 2 <= n
    case Acquire(k) => k < Width(th.role) && th.pos + k < n && (th.role.Swapper? ==> th.pos + 2 <= n)
    case Test(k) => 0 < k < Width(th.role) && th.pos + k <= n && (th.role.Swapper? ==> th.pos + 2 <= n)
    case Work => th.pos + Width(th.role) <= n
    case Release(k, broke) =>
      && 0 < k <= Width(th.role)
      && if broke then th.pos + Width(th.role) - 1 == n && k < Width(th.role) else th.pos + Width(th.role) <= n
    case PassEnd => th.role.Finder? ==> th.pos + 1 == n
  }

  function Advanced(th: Thread): nat {
    if th.pc.Release? && !th.pc.broke then 1 else 0
  }

  /** prev, current and future stay at i, i+1, i+2, and a NULL branch is taken only past index n-2. */
  predicate SwapperOk(n: nat, th: Thread) {
    th.pc.Start? ||
    (&& th.i <= th.index && 2 <= n
     && (!th.pc.LoopTest? && !th.pc.PassEnd? ==> th.i < th.index)
     && (!th.pc.PassEnd? ==>
           th.pos == th.i && th.prev == th.pos + Advanced(th) && th.current == th.prev + 1 && th.future == th.prev + 2)
     && (th.pc.Release? && th.pc.broke ==> n - 2 < th.index)
     && (th.pc.PassEnd? ==> th.i == if n - 2 < th.index then n - 2 else th.index))
  }

  predicate FinderOk(lens: seq<nat>, th: Thread)
    requires th.role.Finder?
  {
    && (!th.pc.Start? ==>
          th.pos + Advanced(th) < |lens| && th.counter == Pairs(lens, th.role.kind, th.pos + Advanced(th)))
    && (th.result.Some? ==> 2 <= |lens| && th.result.value == Pairs(lens, th.role.kind, |lens| - 1))
    && (!th.pc.Start? ==> 2 <= |lens|)
  }

  predicate ThreadOk(lens: seq<nat>, th: Thread) {
    WindowOk(|lens|, th) && if th.role.Finder? then FinderOk(lens, th) else SwapperOk(|lens|, th)
  }

  /** The locks record exactly who holds what. */
  ghost predicate LockOk(l: RwLock, p: nat, mutexes: bool, ts: seq<Thread>) {
    && (forall t :: t in l.writers ==> t < |ts|)
    && (forall t :: t in l.readers ==> t < |ts|)
    && (forall t :: 0 <= t < |ts| ==> (t in l.writers <==> Holds(ts[t], p) && Exclusive(mutexes, ts[t].role)))
    && (forall t :: 0 <= t < |ts| ==> (t in l.readers <==> Holds(ts[t], p) && !Exclusive(mutexes, ts[t].role)))
    && (forall t, u :: t in l.writers && (u in l.writers || u in l.readers) ==> t == u)
  }

  ghost predicate Inv(s: State) {
    && !s.fault
    && |s.locks| == |s.lens|
    && (forall t :: 0 <= t < |s.threads| ==> ThreadOk(s.lens, s.threads[t]))
    && (forall p :: 0 <= p < |s.locks| ==> LockOk(s.locks[p], p, s.mutexes, s.threads))
  }

  /** A step that locks and unlocks nothing. */
  lemma QuietKeepsLock(l: RwLock, p: nat, mutexes: bool, ts: seq<Thread>, t: nat, th: Thread)
    requires LockOk(l, p, mutexes, ts) && t < |ts|
    requires th.role == ts[t].role && (Holds(th, p) <==> Holds(ts[t], p))
    ensures LockOk(l, p, mutexes, ts[t := th])
  {
  }

  lemma NextKeepsFinder(lens: seq<nat>, th: Thread)
    requires ThreadOk(lens, th) && th.role.Finder?
    ensures !Faulty(|lens|, th) && NextThread(lens, th).role == th.role && ThreadOk(lens, NextThread(lens, th))
  {
  }

  lemma NextKeepsSwapper(lens: seq<nat>, th: Thread)
    requires ThreadOk(lens, th) && th.role.Swapper?
    ensures !Faulty(|lens|, th) && NextThread(lens, th).role == th.role
    ensures !th.pc.Start? || |lens| < 2 ==> ThreadOk(lens, NextThread(lens, th))
  {
  }

  lemma NextKeepsThread(lens: seq<nat>, th: Thread)
    requires ThreadOk(lens, th)
    ensures !Faulty(|lens|, th) && NextThread(lens, th).role == th.role
    ensures th.role.Finder? || !th.pc.Start? || |lens| < 2 ==> ThreadOk(lens, NextThread(lens, th))
  {
    if th.role.Finder? {
      NextKeepsFinder(lens, th);
    } else {
      NextKeepsSwapper(lens, th);
    }
  }

  predicate Locks(th: Thread, p: nat) {
    th.pc.Acquire? && p == Base(th) + th.pc.k
  }

  predicate Unlocks(th: Thread, p: nat) {
    th.pc.Release? && p == Base(th) + th.pc.k - 1
  }

  /** A step adds the node it locks and removes the node it unlocks, and nothing else. */
  lemma NextHolds(lens: seq<nat>, th: Thread, p: nat)
    requires ThreadOk(lens, th) && !Faulty(|lens|, th)
    ensures Holds(NextThread(lens, th), p) <==> Locks(th, p) || (Holds(th, p) && !Unlocks(th, p))
  {
  }

  function MovedLock(l: RwLock, p: nat, mutexes: bool, t: nat, th: Thread): RwLock {
    if Locks(th, p) then Lock(l, t, Exclusive(mutexes, th.role)) else if Unlocks(th, p) then Unlock(l, t) else l
  }

  lemma NextLocksAt(locks: seq<RwLock>, mutexes: bool, t: nat, th: Thread, p: nat)
    requires !Faulty(|locks|, th) && p < |locks|
    ensures |NextLocks(locks, mutexes, t, th)| == |locks|
    ensures NextLocks(locks, mutexes, t, th)[p] == MovedLock(locks[p], p, mutexes, t, th)
  {
  }

  lemma LockMoves(l: RwLock, p: nat, mutexes: bool, ts: seq<Thread>, t: nat, th: Thread)
    requires LockOk(l, p, mutexes, ts) && t < |ts| && th.role == ts[t].role
    requires Holds(th, p) <==> Locks(ts[t], p) || (Holds(ts[t], p) && !Unlocks(ts[t], p))
    requires Locks(ts[t], p) ==> Available(l, Exclusive(mutexes, th.role))
    ensures LockOk(MovedLock(l, p, mutexes, t, ts[t]), p, mutexes, ts[t := th])
  {
  }

  lemma GoKeepsInv(s: State, t: nat)
    requires Inv(s) && Enabled(s, Go(t))
    ensures Inv(Step(s, Go(t)))
  {
    var th := s.threads[t];
    assert ThreadOk(s.lens, th);
    NextKeepsThread(s.lens, th);
    forall p | 0 <= p < |s.locks|
      ensures |NextLocks(s.locks, s.mutexes, t, th)| == |s.locks|
      ensures LockOk(NextLocks(s.locks, s.mutexes, t, th)[p], p, s.mutexes, s.threads[t := NextThread(s.lens, th)])
    {
      NextHolds(s.lens, th, p);
      NextLocksAt(s.locks, s.mutexes, t, th, p);
      LockMoves(s.locks[p], p, s.mutexes, s.threads, t, NextThread(s.lens, th));
    }
    assert |NextLocks(s.locks, s.mutexes, t, th)| == |s.locks|;
  }

  lemma {:induction false} StepKeepsInv(s: State, a: Action)
    requires Inv(s) && Enabled(s, a)
    ensures Inv(Step(s, a))
  {
    if a.Go? {
      GoKeepsInv(s, a.t);
    } else {
      forall p | 0 <= p < |s.locks|
        ensures LockOk(s.locks[p], p, s.mutexes, Step(s, a).threads)
      {
        QuietKeepsLock(s.locks[p], p, s.mutexes, s.threads, a.t, Picked(s.threads[a.t], a.index));
      }
    }
  }

  /** Safety over whole runs: any mix of threads, any list length, read-write locks or mutexes. */
  lemma {:induction false} RunKeepsInv(s: State, run: seq<Action>)
    requires Inv(s) && ValidRun(s, run)
    ensures Inv(Exec(s, run))
    decreases |run|
  {
    if run != [] {
      StepKeepsInv(s, run[0]);
      RunKeepsInv(Step(s, run[0]), run[1..]);
    }
  }
}
