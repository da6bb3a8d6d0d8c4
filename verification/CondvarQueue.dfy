/**
 The condition-variable queue of semestr2/Task2/Task2_2/cond-var/queue-condvar.c with the loops of
 queue-thread-condvar.c around it.  The two operations have the same shape: lock, wait while not
 allowed, move one item, adjust `count`, set `shared_data`, signal, unlock.
 */
module CondvarQueue {
  import BoundedFifo

  datatype Flag = OK | NOK
  datatype Mutex = Free | HeldBy(t: nat)

  datatype Pc =
    | Lock        // pthread_mutex_lock, also the re-acquisition after a wakeup
    | Check       // the condition of the while loop
    | Waiting     // inside pthread_cond_wait
    | Transfer    // link or unlink one node
    | Count       // count++ or count--
    | SetFlag     // shared_data = NOK or OK
    | Signal      // pthread_cond_signal
    | Unlock
    | Back        // the caller's loop body after the call

  datatype Role = Writer(i: int) | Reader(expected: int, errors: nat)
  datatype Thread = Thread(pc: Pc, role: Role, val: int)

  /** `sent` and `got` record what was linked and unlinked; `fault` is a read through a NULL `first`. */
  datatype Shared = Shared(flag: Flag, count: int, max: int, queue: seq<int>,
                           sent: seq<int>, got: seq<int>, fault: bool)
  datatype State = State(sh: Shared, mutex: Mutex, threads: seq<Thread>)

  /** `Wake` is pthread_cond_signal when somebody waits; `Spurious` is a wakeup nobody signalled. */
  datatype Action = Cpu(t: nat) | Wake(t: nat, waiter: nat) | Spurious(t: nat)

  predicate At(s: State, t: nat, pc: Pc) {
    t < |s.threads| && s.threads[t].pc == pc
  }

  predicate Enabled(s: State, a: Action) {
    match a
    case Wake(t, u) => At(s, t, Signal) && At(s, u, Waiting)
    case Spurious(t) => At(s, t, Waiting)
    case Cpu(t) =>
      && t < |s.threads|
      && s.threads[t].pc != Waiting
      && (s.threads[t].pc == Lock ==> s.mutex == Free)
      && (s.threads[t].pc == Signal ==> forall u :: 0 <= u < |s.threads| ==> s.threads[u].pc != Waiting)
  }

  predicate MustWait(sh: Shared, role: Role) {
    match role
    case Writer(_) => sh.count == sh.max || sh.flag == NOK
    case Reader(_, _) => sh.count == 0 || sh.flag == OK
  }

  function Move(sh: Shared, role: Role): Shared {
    match role
    case Writer(i) => sh.(queue := sh.queue + [i], sent := sh.sent + [i])
    case Reader(_, _) =>
      if sh.queue == [] then sh.(fault := true) else sh.(queue := sh.queue[1..], got := sh.got + [sh.queue[0]])
  }

  function Goto(s: State, t: nat, pc: Pc): State
    requires t < |s.threads|
  {
    s.(threads := s.threads[t := s.threads[t].(pc := pc)])
  }

  function AfterCall(th: Thread): Thread {
    match th.role
    case Writer(i) => th.(pc := Lock, role := Writer(i + 1))
    case Reader(expected, errors) =>
      th.(pc := Lock, role := Reader(th.val + 1, errors + if expected != th.val then 1 else 0))
  }

  function Step(s: State, a: Action): State
    requires Enabled(s, a)
  {
    match a
    case Wake(t, u) => Goto(Goto(s, u, Lock), t, Unlock)
    case Spurious(t) => Goto(s, t, Lock)
    case Cpu(t) =>
      var th := s.threads[t];
      match th.pc
      case Lock => Goto(s, t, Check).(mutex := HeldBy(t))
      case Check =>
        if MustWait(s.sh, th.role) then Goto(s, t, Waiting).(mutex := Free) else Goto(s, t, Transfer)
      case Transfer =>
        var v := if th.role.Reader? && s.sh.queue != [] then s.sh.queue[0] else th.val;
        s.(sh := Move(s.sh, th.role), threads := s.threads[t := th.(pc := Count, val := v)])
      case Count => Goto(s, t, SetFlag).(sh := s.sh.(count := s.sh.count + if th.role.Writer? then 1 else -1))
      case SetFlag => Goto(s, t, Signal).(sh := s.sh.(flag := if th.role.Writer? then NOK else OK))
      case Signal => Goto(s, t, Unlock)
      case Unlock => Goto(s, t, Back).(mutex := Free)
      case Back => s.(threads := s.threads[t := AfterCall(th)])
  }

  function Init(max: int, roles: seq<Role>): State {
    State(Shared(OK, 0, max, [], [], [], false), Free,
          seq(|roles|, t requires 0 <= t < |roles| => Thread(Lock, roles[t], -1)))
  }

  predicate ValidRun(s: State, run: seq<Action>)
    decreases |run|
  {
    run == [] || (Enabled(s, run[0]) && ValidRun(Step(s, run[0]), run[1..]))
  }

  function Exec(s: State, run: seq<Action>): State
    requires ValidRun(s, run)
    decreases |run|
  {
    if run == [] then s else Exec(Step(s, run[0]), run[1..])
  }

  lemma {:induction false} OneMoreAction(s: State, run: seq<Action>, a: Action)
    requires ValidRun(s, run) && Enabled(Exec(s, run), a)
    ensures ValidRun(s, run + [a]) && Exec(s, run + [a]) == Step(Exec(s, run), a)
    decreases |run|
  {
    if run == [] {
      assert [a][1..] == [];
      assert run + [a] == [a];
    } else {
      assert (run + [a])[1..] == run[1..] + [a];
      OneMoreAction(Step(s, run[0]), run[1..], a);
    }
  }

  // ---------------------------------------------------------------- safety, any number of threads

  predicate Locked(pc: Pc) {
    pc.Check? || pc.Transfer? || pc.Count? || pc.SetFlag? || pc.Signal? || pc.Unlock?
  }

  ghost predicate MutexOk(mutex: Mutex, ts: seq<Thread>) {
    && (mutex.HeldBy? ==> mutex.t < |ts|)
    && forall t :: 0 <= t < |ts| ==> (Locked(ts[t].pc) <==> mutex == HeldBy(t))
  }

  /** The queue never holds more than one item, and the flag says whether it holds one. */
  predicate Settled(sh: Shared) {
    && |sh.queue| <= 1
    && sh.count == |sh.queue|
    && (sh.flag == NOK <==> |sh.queue| == 1)
  }

  /** What the shared data look like while the holder of the mutex is at `pc`. */
  predicate MidCall(sh: Shared, pc: Pc, role: Role) {
    match pc
    case Transfer => Settled(sh) && |sh.queue| == if role.Writer? then 0 else 1
    case Count =>
      if role.Writer? then |sh.queue| == 1 && sh.count == 0 && sh.flag == OK
      else |sh.queue| == 0 && sh.count == 1 && sh.flag == NOK
    case SetFlag =>
      if role.Writer? then |sh.queue| == 1 && sh.count == 1 && sh.flag == OK
      else |sh.queue| == 0 && sh.count == 0 && sh.flag == NOK
    case Signal => Settled(sh) && |sh.queue| == if role.Writer? then 1 else 0
    case _ => Settled(sh)
  }

  predicate SharedOk(sh: Shared, mutex: Mutex, ts: seq<Thread>) {
    && !sh.fault
    && sh.sent == sh.got + sh.queue
    && if mutex.HeldBy? && mutex.t < |ts| then MidCall(sh, ts[mutex.t].pc, ts[mutex.t].role) else Settled(sh)
  }

  ghost predicate Inv(s: State) {
    MutexOk(s.mutex, s.threads) && SharedOk(s.sh, s.mutex, s.threads)
  }

  lemma CpuKeepsInv(s: State, t: nat)
    requires Inv(s) && Enabled(s, Cpu(t))
    ensures Inv(Step(s, Cpu(t)))
  {
    var s', th := Step(s, Cpu(t)), s.threads[t];
    if th.pc == Transfer && th.role.Reader? {
      assert s.sh.queue == [s.sh.queue[0]];
    }
    assert s'.threads == s.threads[t := s'.threads[t]];
  }

  lemma {:induction false} StepKeepsInv(s: State, a: Action)
    requires Inv(s) && Enabled(s, a)
    ensures Inv(Step(s, a))
  {
    match a
    case Cpu(t) => CpuKeepsInv(s, t);
    case _ =>
  }

  lemma {:induction false} RunFromKeepsInv(s: State, run: seq<Action>)
    requires Inv(s) && ValidRun(s, run)
    ensures Inv(Exec(s, run))
    decreases |run|
  {
    if run != [] {
      StepKeepsInv(s, run[0]);
      RunFromKeepsInv(Step(s, run[0]), run[1..]);
    }
  }

  /** Any number of readers and writers, any capacity, any spurious wakeups: whenever the mutex is
      free the flag is NOK iff the queue holds exactly one item and OK iff it is empty. */
  lemma {:induction false} RunKeepsInv(max: int, roles: seq<Role>, run: seq<Action>)
    requires ValidRun(Init(max, roles), run)
    ensures Inv(Exec(Init(max, roles), run))
    ensures var e := Exec(Init(max, roles), run); e.mutex == Free ==>
              (e.sh.flag == NOK <==> |e.sh.queue| == 1) && (e.sh.flag == OK <==> e.sh.queue == [])
  {
    RunFromKeepsInv(Init(max, roles), run);
  }

  /** Only the mutex and waiting hold a thread up, and a waiter may wake without a signal. */
  lemma EveryThreadMayBeNext(s: State, t: nat) returns (a: Action)
    requires t < |s.threads| && (s.threads[t].pc == Lock ==> s.mutex == Free)
    ensures Enabled(s, a) && a.t == t && (a.Spurious? <==> s.threads[t].pc == Waiting)
  {
    if s.threads[t].pc == Waiting {
      return Spurious(t);
    }
    if s.threads[t].pc == Signal {
      if u :| 0 <= u < |s.threads| && s.threads[u].pc == Waiting {
        return Wake(t, u);
      }
    }
    return Cpu(t);
  }

  /** The values that calls of reader t returned. */
  function ReadBy(s: State, run: seq<Action>, t: nat): seq<int>
    requires ValidRun(s, run)
    decreases |run|
  {
    if run == [] then []
    else
      (if run[0] == Cpu(t) && s.threads[t].pc == Back then [s.threads[t].val] else [])
      + ReadBy(Step(s, run[0]), run[1..], t)
  }

  /** A reader counts each value that is not the successor of the one before. */
  lemma {:induction false} ErrorsAreSurprises(s: State, run: seq<Action>, t: nat)
    requires ValidRun(s, run) && t < |s.threads| && s.threads[t].role.Reader?
    ensures var r, e := s.threads[t].role, Exec(s, run);
            && t < |e.threads| && e.threads[t].role.Reader?
            && e.threads[t].role.errors == r.errors + BoundedFifo.Surprises(r.expected, ReadBy(s, run, t))
    decreases |run|
  {
    if run != [] {
      var got, rest := ReadBy(s, run, t), ReadBy(Step(s, run[0]), run[1..], t);
      ErrorsAreSurprises(Step(s, run[0]), run[1..], t);
      if run[0] == Cpu(t) && s.threads[t].pc == Back {
        assert got[0] == s.threads[t].val && got[1..] == rest;
      } else {
        assert got == rest;
      }
    }
  }
}

/** One writer and one reader, as the driver starts them. */
module CondvarPair {
  import opened CondvarQueue
  import BoundedFifo

  function Pair(max: int): State {
    Init(max, [Writer(0), Reader(0, 0)])
  }

  /** Between the transfer and the return the thread's own counter lags by one. */
  predicate Moved(pc: Pc) {
    pc.Count? || pc.SetFlag? || pc.Signal? || pc.Unlock? || pc.Back?
  }

  /** The threads' own counters agree with what was sent and received. */
  ghost predicate RolesOk(s: State) {
    && |s.threads| == 2
    && s.threads[0].role.Writer? && s.threads[1].role.Reader?
    && BoundedFifo.Counting(s.sh.sent)
    && var w, r := s.threads[0], s.threads[1];
       && w.role.i == |s.sh.sent| - (if Moved(w.pc) then 1 else 0)
       && r.role.expected == |s.sh.got| - (if Moved(r.pc) then 1 else 0)
       && (Moved(r.pc) ==> r.val == r.role.expected)
       && r.role.errors == 0
  }

  ghost predicate PairInv(s: State) {
    Inv(s) && RolesOk(s)
  }

  lemma WriterRole(s: State)
    requires RolesOk(s) && Enabled(s, Cpu(0))
    ensures RolesOk(Step(s, Cpu(0)))
  {
  }

  lemma ReaderRole(s: State)
    requires RolesOk(s) && Enabled(s, Cpu(1)) && s.sh.sent == s.sh.got + s.sh.queue
    requires s.threads[1].pc.Transfer? ==> s.sh.queue != []
    ensures RolesOk(Step(s, Cpu(1)))
  {
    if s.threads[1].pc.Transfer? {
      assert s.sh.sent[|s.sh.got|] == s.sh.queue[0];
    }
  }

  lemma PairCpu(s: State, t: nat)
    requires PairInv(s) && Enabled(s, Cpu(t))
    ensures PairInv(Step(s, Cpu(t)))
  {
    CpuKeepsInv(s, t);
    if t == 0 {
      WriterRole(s);
    } else {
      ReaderRole(s);
    }
  }

  lemma {:induction false} PairStep(s: State, a: Action)
    requires PairInv(s) && Enabled(s, a)
    ensures PairInv(Step(s, a))
  {
    match a
    case Cpu(t) => PairCpu(s, t);
    case _ => StepKeepsInv(s, a);
  }

  lemma {:induction false} PairRun(s: State, run: seq<Action>)
    requires PairInv(s) && ValidRun(s, run)
    ensures PairInv(Exec(s, run))
    decreases |run|
  {
    if run != [] {
      PairStep(s, run[0]);
      PairRun(Step(s, run[0]), run[1..]);
    }
  }

  /** The values arrive as 0, 1, 2, ... whatever the schedule and the spurious wakeups. */
  lemma {:induction false} ReaderSeesEveryValueInOrder(max: int, run: seq<Action>)
    requires ValidRun(Pair(max), run)
    ensures var e := Exec(Pair(max), run);
            && PairInv(e) && e.threads[1].role.errors == 0
            && BoundedFifo.Counting(e.sh.got) && e.sh.got <= e.sh.sent
  {
    PairRun(Pair(max), run);
    var e := Exec(Pair(max), run);
    assert forall k :: 0 <= k < |e.sh.got| ==> e.sh.got[k] == e.sh.sent[k];
  }

  // ---------------------------------------------------------------- throughput

  function PcWork(pc: Pc): nat {
    match pc
    case Lock => 21
    case Check => 20
    case Waiting => 19
    case Transfer => 18
    case Count => 17
    case SetFlag => 16
    case Signal => 15
    case Unlock => 10
    case Back => 9
  }

  function Work(s: State): nat
    requires |s.threads| == 2
  {
    PcWork(s.threads[0].pc) + PcWork(s.threads[1].pc)
  }

  /** Calls completed by the two threads. */
  function Completed(s: State): int
    requires |s.threads| == 2 && s.threads[0].role.Writer? && s.threads[1].role.Reader?
  {
    s.threads[0].role.i + s.threads[1].role.expected
  }

  function Spuriouses(run: seq<Action>): nat {
    if run == [] then 0 else (if run[0].Spurious? then 1 else 0) + Spuriouses(run[1..])
  }

  lemma CpuWork(s: State, t: nat)
    requires |s.threads| == 2 && s.threads[0].role.Writer? && s.threads[1].role.Reader?
    requires Moved(s.threads[1].pc) ==> s.threads[1].val == s.threads[1].role.expected
    requires Enabled(s, Cpu(t))
    ensures var s' := Step(s, Cpu(t));
            && |s'.threads| == 2 && s'.threads[0].role.Writer? && s'.threads[1].role.Reader?
            && 1 + Work(s') <= Work(s) + 13 * (Completed(s') - Completed(s))
  {
  }

  lemma {:induction false} StepWork(s: State, a: Action)
    requires |s.threads| == 2 && s.threads[0].role.Writer? && s.threads[1].role.Reader?
    requires Moved(s.threads[1].pc) ==> s.threads[1].val == s.threads[1].role.expected
    requires Enabled(s, a)
    ensures var s' := Step(s, a);
            && |s'.threads| == 2 && s'.threads[0].role.Writer? && s'.threads[1].role.Reader?
            && 1 + Work(s') <= Work(s) + 13 * (Completed(s') - Completed(s)) + 3 * (if a.Spurious? then 1 else 0)
  {
    if a.Cpu? {
      CpuWork(s, a.t);
    }
  }

  lemma {:induction false} RunWork(s: State, run: seq<Action>)
    requires PairInv(s) && ValidRun(s, run)
    ensures PairInv(Exec(s, run))
    ensures |run| + Work(Exec(s, run)) <= Work(s) + 13 * (Completed(Exec(s, run)) - Completed(s)) + 3 * Spuriouses(run)
    decreases |run|
  {
    if run != [] {
      PairStep(s, run[0]);
      StepWork(s, run[0]);
      RunWork(Step(s, run[0]), run[1..]);
    }
  }

  /** No schedule can run for long without delivering: a run with k spurious wakeups in which the
      reader has completed c calls has at most 26c + 50 + 3k actions. */
  lemma {:induction false} EveryScheduleDelivers(max: int, run: seq<Action>)
    requires ValidRun(Pair(max), run)
    ensures PairInv(Exec(Pair(max), run))
    ensures |run| <= 26 * Exec(Pair(max), run).threads[1].role.expected + 50 + 3 * Spuriouses(run)
  {
    RunWork(Pair(max), run);
    var e := Exec(Pair(max), run);
    assert |e.sh.sent| == |e.sh.got| + |e.sh.queue|;
  }
}
