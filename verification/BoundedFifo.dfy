/** What every queue of semestr2/Task2 promises: a FIFO of at most `max` values. */
module BoundedFifo {

  datatype Op = Add(val: int) | Get
  datatype Out = Added(ok: bool) | Got(val: int) | Empty

  function Apply(q: seq<int>, max: nat, op: Op): (seq<int>, Out) {
    match op
    case Add(v) => if |q| == max then (q, Added(false)) else (q + [v], Added(true))
    case Get => if q == [] then (q, Empty) else (q[1..], Got(q[0]))
  }

  function Contents(q: seq<int>, max: nat, ops: seq<Op>): seq<int>
    decreases |ops|
  {
    if ops == [] then q else Contents(Apply(q, max, ops[0]).0, max, ops[1..])
  }

  function Outputs(q: seq<int>, max: nat, ops: seq<Op>): seq<Out>
    decreases |ops|
  {
    if ops == [] then [] else [Apply(q, max, ops[0]).1] + Outputs(Apply(q, max, ops[0]).0, max, ops[1..])
  }

  /** The values of a single writer: 0, 1, 2, ... */
  ghost predicate Counting(vs: seq<int>) {
    forall k :: 0 <= k < |vs| ==> vs[k] == k
  }

  /** How often a reader that expects 0, 1, 2, ... from `expected` on is surprised. */
  function Surprises(expected: int, vals: seq<int>): nat
    decreases |vals|
  {
    if vals == [] then 0 else (if vals[0] != expected then 1 else 0) + Surprises(vals[0] + 1, vals[1..])
  }

  /** The values an operation put in, and took out. */
  function In(op: Op, out: Out): seq<int> {
    if op.Add? && out == Added(true) then [op.val] else []
  }

  function Taken(out: Out): seq<int> {
    if out.Got? then [out.val] else []
  }

  function Accepted(ops: seq<Op>, outs: seq<Out>): seq<int>
    requires |ops| == |outs|
  {
    if ops == [] then [] else In(ops[0], outs[0]) + Accepted(ops[1..], outs[1..])
  }

  function Delivered(outs: seq<Out>): seq<int> {
    if outs == [] then [] else Taken(outs[0]) + Delivered(outs[1..])
  }

  /** First in, first out, nothing lost, nothing invented, never more than `max`. */
  lemma {:induction false} FifoConservation(q: seq<int>, max: nat, ops: seq<Op>)
    requires |q| <= max
    ensures |Outputs(q, max, ops)| == |ops| && |Contents(q, max, ops)| <= max
    ensures var outs := Outputs(q, max, ops); q + Accepted(ops, outs) == Delivered(outs) + Contents(q, max, ops)
    decreases |ops|
  {
    if ops != [] {
      var (q', out) := Apply(q, max, ops[0]);
      FifoConservation(q', max, ops[1..]);
      var outs := Outputs(q, max, ops);
      assert outs[1..] == Outputs(q', max, ops[1..]);
      calc {
        q + Accepted(ops, outs);
        q + In(ops[0], out) + Accepted(ops[1..], outs[1..]);
        { assert q + In(ops[0], out) == Taken(out) + q'; }
        Taken(out) + (q' + Accepted(ops[1..], outs[1..]));
        Taken(out) + (Delivered(outs[1..]) + Contents(q', max, ops[1..]));
        Delivered(outs) + Contents(q, max, ops);
      }
    }
  }
}
