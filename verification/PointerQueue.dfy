/** The linked-list queue of semestr2/Task2/Task2_1/queue.c on the heap. */
module PointerQueue {
  import opened BoundedFifo

  class QueueNode {
    var val: int
    var next: QueueNode?

    constructor (val: int)
      ensures this.val == val && next == null
    {
      this.val, next := val, null;
    }
  }

  ghost predicate Distinct<T>(s: seq<T>) {
    forall i, j :: 0 <= i < j < |s| ==> s[i] != s[j]
  }

  class Queue {
    var first: QueueNode?
    var last: QueueNode?    // never cleared by Get: it dangles when the queue runs empty
    var count: int
    const maxCount: nat
    var addAttempts: int
    var getAttempts: int
    var addCount: int
    var getCount: int

    ghost var nodes: seq<QueueNode>      // the list, front first
    ghost var mallocs: seq<QueueNode>    // every node ever allocated, in order
    ghost var frees: seq<QueueNode>      // every call of free, in order

    ghost predicate Linked()
      reads this, nodes
    {
      && first == (if nodes == [] then null else nodes[0])
      && (forall i {:trigger nodes[i].next} :: 0 <= i < |nodes| - 1 ==> nodes[i].next == nodes[i + 1])
      && (nodes != [] ==> last == nodes[|nodes| - 1] && nodes[|nodes| - 1].next == null)
    }

    /** `mallocs == frees + nodes` without repetition: each node is live in the list or was freed
        exactly once, and nothing leaks. */
    ghost predicate Valid()
      reads this, nodes
    {
      && Linked()
      && Distinct(mallocs)
      && mallocs == frees + nodes
      && count == |nodes| == addCount - getCount
      && count <= maxCount
    }

    ghost function Values(): (vs: seq<int>)
      reads this, nodes
      ensures |vs| == |nodes|
    {
      seq(|nodes|, i requires 0 <= i < |nodes| reads this, nodes => nodes[i].val)
    }

    /** The node a call follows through `first` or `last` was never freed. */
    lemma ListNodesAreLive()
      requires Valid()
      ensures forall n :: n in nodes ==> n !in frees
    {
      forall i, j | 0 <= i < |nodes| && 0 <= j < |frees|
        ensures nodes[i] != frees[j]
      {
        assert mallocs[|frees| + i] == nodes[i] && mallocs[j] == frees[j];
      }
    }

    constructor (maxCount: nat)
      ensures Valid() && Values() == [] && mallocs == [] && frees == [] && this.maxCount == maxCount
      ensures addAttempts == getAttempts == addCount == getCount == 0
    {
      first, last, count, this.maxCount := null, null, 0, maxCount;
      addAttempts, getAttempts, addCount, getCount := 0, 0, 0, 0;
      nodes, mallocs, frees := [], [], [];
    }

    /** Hangs the new node behind the last one; an empty queue never looks at `last`. */
    method Link(node: QueueNode)
      requires Linked() && node !in nodes && node.next == null
      modifies this`first, this`last, this`nodes, nodes
      ensures Linked() && nodes == old(nodes) + [node]
      ensures forall n :: n in nodes ==> n.val == old(n.val)
    {
      if first == null {
        last := node;
        first := node;
      } else {
        last.next := node;
        last := last.next;
      }
      nodes := nodes + [node];
    }

    /** queue_add once there is room. */
    method AddNode(val: int)
      requires Valid() && |nodes| < maxCount
      modifies this`first, this`last, this`nodes, this`mallocs, this`count, this`addCount, nodes
      ensures Valid() && Values() == old(Values()) + [val] && addCount == old(addCount) + 1
      ensures forall n :: n in nodes ==> n in old(nodes) || fresh(n)
      ensures old(nodes) <= nodes
    {
      ListNodesAreLive();
      var node := new QueueNode(val);
      assert first != null ==> last !in frees;            // a stale `last` is not followed
      Link(node);
      mallocs := mallocs + [node];
      count, addCount := count + 1, addCount + 1;
      assert mallocs == frees + nodes;
      assert Values() == old(Values()) + [val];
    }

    method Add(val: int) returns (ok: bool)
      requires Valid()
      modifies this, nodes
      ensures Valid() && frees == old(frees)
      ensures Values() == Apply(old(Values()), maxCount, BoundedFifo.Add(val)).0
      ensures Added(ok) == Apply(old(Values()), maxCount, BoundedFifo.Add(val)).1
      ensures addAttempts == old(addAttempts) + 1 && getAttempts == old(getAttempts)
      ensures addCount == old(addCount) + (if ok then 1 else 0) && getCount == old(getCount)
      ensures ok <==> |old(Values())| != maxCount
      ensures forall n :: n in nodes ==> n in old(nodes) || fresh(n)
      ensures old(nodes) <= nodes
    {
      assert count <= maxCount;                           // the program's own assert
      addAttempts := addAttempts + 1;
      ok := count != maxCount;
      if ok {
        AddNode(val);
      }
    }

    method Get() returns (ok: bool, val: int)
      requires Valid()
      modifies this
      ensures Valid() && mallocs == old(mallocs)
      ensures Values() == Apply(old(Values()), maxCount, BoundedFifo.Get).0
      ensures (if ok then Got(val) else Empty) == Apply(old(Values()), maxCount, BoundedFifo.Get).1
      ensures getAttempts == old(getAttempts) + 1 && addAttempts == old(addAttempts)
      ensures getCount == old(getCount) + (if ok then 1 else 0) && addCount == old(addCount)
      ensures ok <==> old(Values()) != []
      ensures frees == old(frees) + (if ok then [old(nodes)[0]] else [])
      ensures nodes == if ok then old(nodes)[1..] else old(nodes)
      ensures ok && nodes == [] ==> last in frees          // the stale `last`
    {
      ListNodesAreLive();
      assert count <= maxCount;
      getAttempts := getAttempts + 1;
      assert count >= 0;
      if count == 0 {
        return false, 0;
      }
      var tmp := first;
      assert tmp !in frees;                 // read before, and freed for the first time
      val := tmp.val;
      first := first.next;
      frees, nodes := frees + [tmp], nodes[1..];
      count := count - 1;
      getCount := getCount + 1;
      assert frees + nodes == mallocs;
      assert Values() == old(Values())[1..];
      ok := true;
    }

    /** Any sequence of calls behaves as the bounded FIFO does. */
    method Run(ops: seq<Op>) returns (outs: seq<Out>)
      requires Valid()
      modifies this, nodes
      ensures Valid()
      ensures outs == Outputs(old(Values()), maxCount, ops) && Values() == Contents(old(Values()), maxCount, ops)
      ensures addAttempts + getAttempts == old(addAttempts + getAttempts) + |ops|
      ensures forall n :: n in nodes ==> n in old(nodes) || fresh(n)
      decreases |ops|
    {
      if ops == [] {
        return [];
      }
      var out: Out;
      match ops[0] {
        case Add(v) =>
          var ok := Add(v);
          out := Added(ok);
        case Get =>
          var ok, v := Get();
          out := if ok then Got(v) else Empty;
      }
      assert forall i :: 0 <= i < |nodes| ==> nodes[i] in old(nodes) || fresh(nodes[i]);
      var rest := Run(ops[1..]);
      outs := [out] + rest;
    }

    /** Frees what is still in the list; afterwards every node ever allocated was freed exactly once. */
    method Destroy()
      requires Valid()
      modifies this`frees
      ensures frees == mallocs && Distinct(frees)
      ensures frees == old(frees) + nodes
    {
      var cur := first;
      ghost var k := 0;
      while cur != null
        invariant 0 <= k <= |nodes|
        invariant cur == if k < |nodes| then nodes[k] else null
        invariant frees == old(frees) + nodes[..k]
        decreases |nodes| - k
      {
        assert cur !in frees by {
          assert nodes[k] == mallocs[|old(frees)| + k];
          assert forall i :: 0 <= i < |frees| ==> frees[i] == mallocs[i];
        }
        var next := cur.next;
        frees := frees + [cur];
        k := k + 1;
        cur := next;
      }
    }
  }
}
