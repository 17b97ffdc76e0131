/** The pointer-chasing benchmark: a linked list in shuffled order, its traversal, and its deletion. */
module PointerChase {
  import opened Words
  import opened Sums

  const NUM_NODES: nat := 0x10_0000
  const ITERATIONS: nat := 5

  class Node {
    const value: int
    var next: Node?

    constructor (value: int)
      ensures this.value == value && next == null
    {
      this.value := value;
      next := null;
    }
  }

  /** `new` and `delete`; reading or deleting a node demands that it is still live. */
  class Heap {
    ghost var live: set<Node>

    constructor ()
      ensures live == {}
    {
      live := {};
    }

    method New(value: int) returns (node: Node)
      modifies this
      ensures fresh(node) && node !in old(live) && live == old(live) + {node}
      ensures node.value == value && node.next == null
    {
      node := new Node(value);
      live := live + {node};
    }

    method Value(node: Node) returns (value: int)
      requires node in live
      ensures value == node.value
    {
      value := node.value;
    }

    method Next(node: Node) returns (next: Node?)
      requires node in live
      ensures next == node.next
    {
      next := node.next;
    }

    method Delete(node: Node)
      requires node in live
      modifies this
      ensures live == old(live) - {node}
    {
      live := live - {node};
    }
  }

  /** The node at index `i`, or null past the end. */
  function NodeAt(path: seq<Node>, i: nat): Node? {
    if i < |path| then path[i] else null
  }

  /** Following `next` from the first node visits exactly `path` and then ends. */
  ghost predicate Linked(path: seq<Node>)
    reads path
  {
    forall i :: 0 <= i < |path| ==> path[i].next == NodeAt(path, i + 1)
  }

  ghost predicate IsListOf(head: Node?, path: seq<Node>)
    reads path
  {
    Linked(path) && head == NodeAt(path, 0)
  }

  function Values(path: seq<Node>): (values: seq<int>)
    ensures |values| == |path|
  {
    seq(|path|, i requires 0 <= i < |path| => path[i].value)
  }

  ghost predicate Distinct<T>(s: seq<T>) {
    forall i, j :: 0 <= i < j < |s| ==> s[i] != s[j]
  }

  /** A list has one path. */
  lemma {:induction false} PathUnique(head: Node?, p: seq<Node>, q: seq<Node>)
    requires IsListOf(head, p) && IsListOf(head, q)
    ensures p == q
    decreases |p|
  {
    if p != [] {
      assert IsListOf(p[0].next, p[1..]) && IsListOf(q[0].next, q[1..]);
      PathUnique(p[0].next, p[1..], q[1..]);
      assert p == [p[0]] + p[1..] && q == [q[0]] + q[1..];
    }
  }

  /** A path that ends has no cycle: no node comes twice. */
  lemma Acyclic(path: seq<Node>)
    requires Linked(path)
    ensures Distinct(path)
  {
    forall i, j | 0 <= i < j < |path|
      ensures path[i] != path[j]
    {
      if path[i] == path[j] {
        assert IsListOf(path[i], path[i..]) && IsListOf(path[i], path[j..]);
        PathUnique(path[i], path[i..], path[j..]);
        assert false;
      }
    }
  }

  // -------------------------------------------------------------------- building

  /** What `std::shuffle` makes of 0, 1, ..., n-1. */
  ghost predicate IsPermutation(order: seq<nat>, n: nat) {
    |order| == n && multiset(order) == multiset(Upto(n))
  }

  lemma {:induction false} UptoOnce(n: nat, v: nat)
    ensures multiset(Upto(n))[v] == if v < n then 1 else 0
  {
    if n != 0 {
      assert Upto(n) == Upto(n - 1) + [n - 1];
      UptoOnce(n - 1, v);
    }
  }

  lemma Twice<T>(s: seq<T>, i: nat, j: nat)
    requires i < j < |s| && s[i] == s[j]
    ensures multiset(s)[s[i]] >= 2
  {
    assert s == s[..i] + [s[i]] + s[i + 1..j] + [s[j]] + s[j + 1..];
  }

  lemma PermutationFacts(order: seq<nat>, n: nat)
    requires IsPermutation(order, n)
    ensures Distinct(order) && forall i :: 0 <= i < n ==> order[i] < n
  {
    forall i | 0 <= i < n
      ensures order[i] < n
    {
      assert order[i] in multiset(order);
      UptoOnce(n, order[i]);
    }
    forall i, j | 0 <= i < j < n
      ensures order[i] != order[j]
    {
      if order[i] == order[j] {
        Twice(order, i, j);
        UptoOnce(n, order[i]);
      }
    }
  }

  method AllocateNodes(heap: Heap, n: nat) returns (nodes: seq<Node>)
    modifies heap
    ensures |nodes| == n && Distinct(nodes) && fresh(nodes)
    ensures forall i :: 0 <= i < n ==> nodes[i].value == i && nodes[i].next == null && nodes[i] !in old(heap.live)
    ensures heap.live == old(heap.live) + set node | node in nodes
  {
    nodes := [];
    for i := 0 to n
      invariant |nodes| == i && Distinct(nodes) && fresh(nodes)
      invariant forall k :: 0 <= k < i ==> nodes[k].value == k && nodes[k].next == null && nodes[k] !in old(heap.live)
      invariant heap.live == old(heap.live) + set node | node in nodes
    {
      var node := heap.New(i);
      nodes := nodes + [node];
    }
  }

  /** The nodes in the given order. */
  function Arranged(nodes: seq<Node>, order: seq<nat>): (path: seq<Node>)
    requires forall i :: 0 <= i < |order| ==> order[i] < |nodes|
    ensures |path| == |order| && forall i :: 0 <= i < |order| ==> path[i] == nodes[order[i]]
  {
    seq(|order|, i requires 0 <= i < |order| => nodes[order[i]])
  }

  lemma ArrangedDistinct(nodes: seq<Node>, order: seq<nat>)
    requires forall i :: 0 <= i < |order| ==> order[i] < |nodes|
    requires Distinct(nodes) && Distinct(order)
    ensures Distinct(Arranged(nodes, order))
  {
    var path := Arranged(nodes, order);
    forall i, j | 0 <= i < j < |path|
      ensures path[i] != path[j]
    {
      assert order[i] != order[j];
      assert order[i] < order[j] || order[j] < order[i];
    }
  }

  lemma IndexOf(order: seq<nat>, n: nat, v: nat) returns (i: nat)
    requires IsPermutation(order, n) && v < n
    ensures i < n && order[i] == v
  {
    UptoOnce(n, v);
    assert v in order;
    i :| 0 <= i < n && order[i] == v;
  }

  lemma ArrangedOnto(nodes: seq<Node>, order: seq<nat>)
    requires IsPermutation(order, |nodes|) && forall i :: 0 <= i < |order| ==> order[i] < |nodes|
    ensures forall node :: node in Arranged(nodes, order) <==> node in nodes
  {
    var path := Arranged(nodes, order);
    forall i | 0 <= i < |nodes|
      ensures nodes[i] in path
    {
      var k := IndexOf(order, |nodes|, i);
      assert path[k] == nodes[i];
    }
  }

  /** The linking loop over the nodes in shuffled order. */
  method Link(nodes: seq<Node>, order: seq<nat>)
    requires order != [] && forall i :: 0 <= i < |order| ==> order[i] < |nodes|
    requires Distinct(Arranged(nodes, order))
    modifies nodes
    ensures Linked(Arranged(nodes, order))
  {
    ghost var path := Arranged(nodes, order);
    for i := 0 to |order| - 1
      invariant forall k :: 0 <= k < i ==> path[k].next == path[k + 1]
    {
      assert nodes[order[i]] == path[i];
      nodes[order[i]].next := nodes[order[i + 1]];
    }
    nodes[order[|order| - 1]].next := null;
  }

  /** For every outcome of the shuffle: a list through all the new nodes, each once, in that order. */
  method BuildShuffledList(heap: Heap, order: seq<nat>) returns (head: Node, ghost path: seq<Node>)
    requires order != [] && IsPermutation(order, |order|)
    modifies heap
    ensures IsListOf(head, path) && Distinct(path) && Values(path) == order
    ensures fresh(path) && (forall node :: node in path ==> node !in old(heap.live))
    ensures heap.live == old(heap.live) + set node | node in path
  {
    var n := |order|;
    var nodes := AllocateNodes(heap, n);
    PermutationFacts(order, n);
    ghost var arranged := Arranged(nodes, order);
    ArrangedDistinct(nodes, order);
    ArrangedOnto(nodes, order);
    Link(nodes, order);
    head, path := nodes[order[0]], arranged;
  }

  // ------------------------------------------------------------------- traversing

  method Traverse(heap: Heap, head: Node?, ghost path: seq<Node>) returns (sum: int)
    requires IsListOf(head, path) && forall node :: node in path ==> node in heap.live
    ensures sum == Sum(Values(path))
  {
    sum := 0;
    var cur := head;
    ghost var i := 0;
    while cur != null
      invariant 0 <= i <= |path|
      invariant cur == NodeAt(path, i)
      invariant sum == Sum(Values(path)[..i])
      decreases |path| - i
    {
      var value := heap.Value(cur);
      assert Values(path)[..i + 1] == Values(path)[..i] + [value];
      SumConcat(Values(path)[..i], [value]);
      sum := sum + value;
      cur := heap.Next(cur);
      i := i + 1;
    }
    assert Values(path)[..|path|] == Values(path);
  }

  /** The sum does not depend on the shuffle. */
  lemma SumOfPermutation(order: seq<nat>, n: nat)
    requires IsPermutation(order, n)
    ensures Sum(order) == n * (n - 1) / 2
  {
    var ints: seq<int>, upto: seq<int> := order, Upto(n);
    assert multiset(ints) == multiset(upto);
    SumByMultiset(ints, upto);
    SumUpto(n);
  }

  /** Every node of the list is deleted, no node twice, and none is read after its deletion. */
  method Cleanup(heap: Heap, head: Node?, ghost path: seq<Node>)
    requires IsListOf(head, path) && forall node :: node in path ==> node in heap.live
    modifies heap
    ensures heap.live == old(heap.live) - set node | node in path
  {
    Acyclic(path);
    var cur := head;
    ghost var i := 0;
    while cur != null
      invariant 0 <= i <= |path|
      invariant cur == NodeAt(path, i)
      invariant heap.live == old(heap.live) - set node | node in path[..i]
      decreases |path| - i
    {
      var tmp := cur;
      assert path[..i + 1] == path[..i] + [path[i]];
      assert path[i] !in path[..i];
      cur := heap.Next(cur);
      heap.Delete(tmp);
      i := i + 1;
    }
    assert path[..|path|] == path;
  }

  /** The whole program: the printed total, and a heap as it was before. */
  method Run(heap: Heap, order: seq<nat>) returns (total: int)
    requires order != [] && IsPermutation(order, |order|)
    modifies heap
    ensures total == 5 * (|order| * (|order| - 1) / 2)
    ensures heap.live == old(heap.live)
  {
    var head, path := BuildShuffledList(heap, order);
    SumOfPermutation(order, |order|);
    total := 0;
    for i := 0 to ITERATIONS
      invariant total == i * (|order| * (|order| - 1) / 2)
      invariant IsListOf(head, path) && heap.live == old(heap.live) + set node | node in path
    {
      var sum := Traverse(heap, head, path);
      total := total + sum;
    }
    Cleanup(heap, head, path);
  }

  /** With the constants of the source, every partial total fits a 64-bit `long`. */
  lemma TotalFits(order: seq<nat>)
    requires IsPermutation(order, 0x10_0000)
    ensures ITERATIONS * Sum(order) < TWO_63
  {
    SumOfPermutation(order, NUM_NODES);
  }
}
