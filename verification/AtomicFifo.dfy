/**
 The specification of a concurrent queue: clients call, the bounded FIFO performs each operation in
 one indivisible step between the call and the return, and the clients of the driver program
 (semestr2/Task2/Task2_2/mutex/queue-threads-mutex.c) act on what they get.  A queue whose every run
 has the calls and returns of a run of this system is linearizable.
 */
module AtomicFifo {
  import opened BoundedFifo

  datatype Status = Idle | Pending(op: Op) | Done(out: Out)

  /** `Writer` adds 0, 1, 2, ... and retries when the queue is full; `Reader` counts the values
      that differ from the one it expects; `AnyOps` calls whatever it likes. */
  datatype Driver = AnyOps | Writer(i: int) | Reader(expected: int, errors: nat)

  datatype Client = Client(status: Status, driver: Driver)

  /** `enq` and `deq` record what the queue accepted and handed out, in the order of the operations. */
  datatype State = State(q: seq<int>, max: nat, clients: seq<Client>, enq: seq<int>, deq: seq<int>)

  datatype Action = Call(t: nat, op: Op) | Perform(t: nat) | Return(t: nat)
  datatype Event = Called(t: nat, op: Op) | Returned(t: nat, out: Out)

  predicate MayCall(d: Driver, op: Op) {
    match d
    case AnyOps => true
    case Writer(i) => op == Add(i)
    case Reader(_, _) => op == Get
  }

  function AfterReturn(d: Driver, out: Out): Driver {
    match d
    case AnyOps => d
    case Writer(i) => if out == Added(true) then Writer(i + 1) else d
    case Reader(expected, errors) =>
      if out.Got? then Reader(out.val + 1, errors + if expected != out.val then 1 else 0) else d
  }

  predicate Enabled(s: State, a: Action) {
    && a.t < |s.clients|
    && match a
       case Call(t, op) => s.clients[t].status == Idle && MayCall(s.clients[t].driver, op)
       case Perform(t) => s.clients[t].status.Pending?
       case Return(t) => s.clients[t].status.Done?
  }

  function Step(s: State, a: Action): State
    requires Enabled(s, a)
  {
    var c := s.clients[a.t];
    match a
    case Call(t, op) => s.(clients := s.clients[t := c.(status := Pending(op))])
    case Perform(t) =>
      var (q, out) := Apply(s.q, s.max, c.status.op);
      s.(q := q, clients := s.clients[t := c.(status := Done(out))],
         enq := s.enq + In(c.status.op, out), deq := s.deq + Taken(out))
    case Return(t) => s.(clients := s.clients[t := Client(Idle, AfterReturn(c.driver, c.status.out))])
  }

  function Events(s: State, a: Action): seq<Event>
    requires Enabled(s, a)
  {
    match a
    case Call(t, op) => [Called(t, op)]
    case Perform(_) => []
    case Return(t) => [Returned(t, s.clients[t].status.out)]
  }

  function Init(max: nat, drivers: seq<Driver>): State {
    State([], max, seq(|drivers|, t requires 0 <= t < |drivers| => Client(Idle, drivers[t])), [], [])
  }

  predicate ValidRun(s: State, run: seq<Action>)
    decreases |run|
  {
    run == [] || (Enabled(s, run[0]) && ValidRun(Step(s, run[0]), run[1..]))
  }

  function Exec(s: State, run: seq<Action>): State
    requires ValidRun(s, run)
    decreases |run|
  {
    if run == [] then s else Exec(Step(s, run[0]), run[1..])
  }

  function Trace(s: State, run: seq<Action>): seq<Event>
    requires ValidRun(s, run)
    decreases |run|
  {
    if run == [] then [] else Events(s, run[0]) + Trace(Step(s, run[0]), run[1..])
  }

  /** Nothing lost, duplicated or reordered, and never more than `max` waiting. */
  predicate Conserved(s: State) {
    s.enq == s.deq + s.q && |s.q| <= s.max
  }

  /** What the one indivisible step of an operation does, case by case. */
  lemma PerformAccepts(s: State, t: nat, v: int)
    requires t < |s.clients| && s.clients[t].status == Pending(Add(v)) && |s.q| < s.max
    ensures Step(s, Perform(t)) == s.(q := s.q + [v], enq := s.enq + [v],
                                      clients := s.clients[t := s.clients[t].(status := Done(Added(true)))])
  {
  }

  lemma PerformRefuses(s: State, t: nat, v: int)
    requires t < |s.clients| && s.clients[t].status == Pending(Add(v)) && |s.q| == s.max
    ensures Step(s, Perform(t)) == s.(clients := s.clients[t := s.clients[t].(status := Done(Added(false)))])
  {
  }

  lemma PerformDelivers(s: State, t: nat)
    requires t < |s.clients| && s.clients[t].status == Pending(Get) && s.q != []
    ensures Step(s, Perform(t)) == s.(q := s.q[1..], deq := s.deq + [s.q[0]],
                                      clients := s.clients[t := s.clients[t].(status := Done(Got(s.q[0])))])
  {
  }

  lemma PerformFindsEmpty(s: State, t: nat)
    requires t < |s.clients| && s.clients[t].status == Pending(Get) && s.q == []
    ensures Step(s, Perform(t)) == s.(clients := s.clients[t := s.clients[t].(status := Done(Empty))])
  {
  }

  lemma StepConserves(s: State, a: Action)
    requires Conserved(s) && Enabled(s, a)
    ensures Conserved(Step(s, a))
  {
    if a.Perform? {
      match s.clients[a.t].status.op
      case Add(v) =>
        if |s.q| < s.max {
          PerformAccepts(s, a.t, v);
        } else {
          PerformRefuses(s, a.t, v);
        }
      case Get =>
        if s.q == [] {
          PerformFindsEmpty(s, a.t);
        } else {
          PerformDelivers(s, a.t);
          assert s.q == [s.q[0]] + s.q[1..];
        }
    }
  }

  lemma {:induction false} RunConserves(s: State, run: seq<Action>)
    requires Conserved(s) && ValidRun(s, run)
    ensures Conserved(Exec(s, run))
    decreases |run|
  {
    if run != [] {
      StepConserves(s, run[0]);
      RunConserves(Step(s, run[0]), run[1..]);
    }
  }

  // ---------------------------------------------------------------- the driver: one writer, one reader

  ghost predicate DriverInv(s: State) {
    && |s.clients| == 2 && s.clients[0].driver.Writer? && s.clients[1].driver.Reader?
    && Conserved(s) && Counting(s.enq)
    && var w, r := s.clients[0], s.clients[1];
       && r.driver.errors == 0
       && (match w.status
           case Idle => w.driver.i == |s.enq|
           case Pending(op) => op == Add(w.driver.i) && w.driver.i == |s.enq|
           case Done(out) => out.Added? && w.driver.i == |s.enq| - if out.ok then 1 else 0)
       && (match r.status
           case Idle => r.driver.expected == |s.deq|
           case Pending(op) => op == Get && r.driver.expected == |s.deq|
           case Done(out) => !out.Added? && r.driver.expected == |s.deq| - (if out.Got? then 1 else 0)
                             && (out.Got? ==> out.val == r.driver.expected))
  }

  lemma {:induction false} DriverStep(s: State, a: Action)
    requires DriverInv(s) && Enabled(s, a)
    ensures DriverInv(Step(s, a))
  {
    StepConserves(s, a);
    var s' := Step(s, a);
    if a.Perform? && a.t == 1 && s.q != [] {
      assert s.enq[|s.deq|] == s.q[0];
    }
  }

  /** The single reader receives 0, 1, 2, ...: its `expected` check never fires. */
  lemma {:induction false} DriverRun(s: State, run: seq<Action>)
    requires DriverInv(s) && ValidRun(s, run)
    ensures DriverInv(Exec(s, run))
    decreases |run|
  {
    if run != [] {
      DriverStep(s, run[0]);
      DriverRun(Step(s, run[0]), run[1..]);
    }
  }

  /** The values that calls of client t returned. */
  function GotBy(s: State, run: seq<Action>, t: nat): seq<int>
    requires ValidRun(s, run)
    decreases |run|
  {
    if run == [] then []
    else (if run[0] == Return(t) then Taken(s.clients[t].status.out) else []) + GotBy(Step(s, run[0]), run[1..], t)
  }

  /** A reader counts each value that is not the successor of the one before. */
  lemma {:induction false} ErrorsAreSurprises(s: State, run: seq<Action>, t: nat)
    requires ValidRun(s, run) && t < |s.clients| && s.clients[t].driver.Reader?
    ensures var d, e := s.clients[t].driver, Exec(s, run);
            && t < |e.clients| && e.clients[t].driver.Reader?
            && e.clients[t].driver.errors == d.errors + Surprises(d.expected, GotBy(s, run, t))
    decreases |run|
  {
    if run != [] {
      var got, rest := GotBy(s, run, t), GotBy(Step(s, run[0]), run[1..], t);
      ErrorsAreSurprises(Step(s, run[0]), run[1..], t);
      if run[0] == Return(t) && s.clients[t].status.out.Got? {
        assert got[0] == s.clients[t].status.out.val && got[1..] == rest;
      } else {
        assert got == rest;
      }
    }
  }
}
