/** The linked list of semestr2/Task2/Task2_3 on the heap: building it, and swap_nodes. */
module ListStorage {
  import opened Wrappers

  const MIN_SIZE_LIST := 3

  class Node {
    const value: string
    var next: Node?

    constructor (value: string)
      ensures this.value == value && next == null
    {
      this.value, next := value, null;
    }
  }

  /** `s` with the elements at `k` and `k + 1` exchanged. */
  function Exchanged<T>(s: seq<T>, k: nat): (r: seq<T>)
    requires k + 1 < |s|
    ensures |r| == |s|
  {
    s[k := s[k + 1]][k + 1 := s[k]]
  }

  lemma ExchangedTwice<T>(s: seq<T>, k: nat)
    requires k + 1 < |s|
    ensures Exchanged(Exchanged(s, k), k) == s
    ensures multiset(Exchanged(s, k)) == multiset(s)
  {
  }

  class Storage {
    var first: Node?
    ghost var nodes: seq<Node>

    /** An acyclic list: distinct nodes, each linked to the following one. */
    ghost predicate Valid()
      reads this, nodes
    {
      && first == (if nodes == [] then null else nodes[0])
      && (forall i, j :: 0 <= i < j < |nodes| ==> nodes[i] != nodes[j])
      && (forall i {:trigger nodes[i].next} :: 0 <= i < |nodes| ==>
            nodes[i].next == if i + 1 < |nodes| then nodes[i + 1] else null)
    }

    constructor ()
      ensures Valid() && nodes == []
    {
      first, nodes := null, [];
    }

    method AppendNewNode(node: Node)
      requires Valid() && node !in nodes && node.next == null
      modifies this, nodes
      ensures Valid() && nodes == old(nodes) + [node]
    {
      if first == null {
        first := node;
        nodes := [node];
        return;
      }
      var current := first;
      ghost var k := 0;
      while current.next != null
        invariant 0 <= k < |nodes| && current == nodes[k]
        decreases |nodes| - k
      {
        current := current.next;
        k := k + 1;
      }
      current.next := node;
      nodes := nodes + [node];
    }

    /** init_storage, with the strings as a parameter. */
    method InitStorage(values: seq<string>)
      requires Valid() && nodes == []
      modifies this
      ensures Valid() && fresh(nodes) && |nodes| == |values|
      ensures forall i :: 0 <= i < |values| ==> nodes[i].value == values[i]
    {
      for n := 0 to |values|
        invariant Valid() && fresh(nodes) && |nodes| == n
        invariant forall i :: 0 <= i < n ==> nodes[i].value == values[i]
      {
        var node := new Node(values[n]);
        AppendNewNode(node);
      }
    }

    /** With consecutive arguments, only `cur` and `future` change places. */
    method SwapNodes(prev: Node?, cur: Node?, future: Node?, ghost k: nat)
      requires prev != null && cur != null && future != null     // the program's own assert
      requires Valid() && k + 2 < |nodes| && nodes[k] == prev && nodes[k + 1] == cur && nodes[k + 2] == future
      modifies this, nodes
      ensures Valid() && nodes == Exchanged(old(nodes), k + 1) && first == old(first)
    {
      prev.next := future;
      var tmp := future.next;
      future.next := cur;
      cur.next := tmp;
      nodes := Exchanged(nodes, k + 1);
    }

    /** Swapping again with the two nodes in their new order restores every link. */
    method SwapTwice(prev: Node, cur: Node, future: Node, ghost k: nat)
      requires Valid() && k + 2 < |nodes| && nodes[k] == prev && nodes[k + 1] == cur && nodes[k + 2] == future
      modifies this, nodes
      ensures Valid() && nodes == old(nodes) && first == old(first)
      ensures forall i :: 0 <= i < |nodes| ==> nodes[i].next == old(nodes[i].next)
    {
      ghost var before := nodes;
      ExchangedTwice(before, k + 1);
      SwapNodes(prev, cur, future, k);
      assert forall n :: n in nodes ==> n in before;
      SwapNodes(prev, future, cur, k);
    }
  }

  /** What one turn of the loop makes of a random number. */
  function IndexOf(draw: nat, size: nat): nat
    requires 2 < size
  {
    draw % (size - 2)
  }

  /** number_random_node can return the index for a list of this size. */
  ghost predicate CanBeDrawn(size: nat, index: nat) {
    2 < size && MIN_SIZE_LIST <= index && exists draw: nat :: IndexOf(draw, size) == index
  }

  lemma DrawnRange(size: nat, index: nat)
    ensures CanBeDrawn(size, index) <==> 3 <= index <= size - 3
  {
    if MIN_SIZE_LIST <= index <= size - 3 {
      assert IndexOf(index, size) == index;
    }
  }

  /** number_random_node over a stream of random draws: the first that is large enough. */
  method NumberRandomNode(draws: seq<nat>, size: nat) returns (index: Option<nat>)
    requires 2 < size
    ensures index.Some? ==> CanBeDrawn(size, index.value) && 3 <= index.value <= size - 3
    ensures index.Some? ==> exists k :: 0 <= k < |draws| && draws[k] % (size - 2) == index.value
                                        && forall j :: 0 <= j < k ==> draws[j] % (size - 2) < 3
    ensures index.None? <==> forall k :: 0 <= k < |draws| ==> draws[k] % (size - 2) < 3
    ensures size < 6 ==> index.None?
  {
    for k := 0 to |draws|
      invariant forall j :: 0 <= j < k ==> IndexOf(draws[j], size) < MIN_SIZE_LIST
    {
      var i := IndexOf(draws[k], size);
      if !(i < MIN_SIZE_LIST) {
        return Some(i);
      }
    }
    index := None;
  }
}
