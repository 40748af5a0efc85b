/** Intrusive doubly linked lists: when a sequence of nodes is one. */
module LinkedList {
  class Node<T> {
    const item: T
    var prev: Node?<T>
    var next: Node?<T>

    constructor (item: T)
      ensures this.item == item && prev == null && next == null
    {
      this.item, prev, next := item, null, null;
    }
  }

  /** The node at `i`, or null beyond either end. */
  function At<T>(nodes: seq<Node<T>>, i: int): Node?<T> { if 0 <= i < |nodes| then nodes[i] else null }

  function First<T>(nodes: seq<Node<T>>): Node?<T> { At(nodes, 0) }

  function Last<T>(nodes: seq<Node<T>>): Node?<T> { At(nodes, |nodes| - 1) }

  ghost predicate Distinct<T>(nodes: seq<Node<T>>)
  {
    forall i, j :: 0 <= i < j < |nodes| ==> nodes[i] != nodes[j]
  }

  /** The nodes, each once, in the order in which `next` leads through them, with `prev` leading back. */
  ghost predicate Linked<T>(nodes: seq<Node<T>>)
    reads nodes
  {
    && Distinct(nodes)
    && (forall i {:trigger nodes[i].prev} :: 0 <= i < |nodes| ==> nodes[i].prev == At(nodes, i - 1))
    && (forall i {:trigger nodes[i].next} :: 0 <= i < |nodes| ==> nodes[i].next == At(nodes, i + 1))
  }

  /** The same nodes in the same order, but for one node. */
  ghost predicate IsWithout<T>(nodes: seq<Node<T>>, before: seq<Node<T>>, node: Node?<T>)
  {
    exists i: nat :: i < |before| && before[i] == node && nodes == Without(before, i)
  }

  lemma EmptyIsLinked<T>()
    ensures Linked<T>([]) && First<T>([]) == null
  {
  }

  lemma Unfold<T>(nodes: seq<Node<T>>)
    requires Linked(nodes)
    ensures Distinct(nodes)
    ensures forall i {:trigger nodes[i].prev} :: 0 <= i < |nodes| ==> nodes[i].prev == At(nodes, i - 1)
    ensures forall i {:trigger nodes[i].next} :: 0 <= i < |nodes| ==> nodes[i].next == At(nodes, i + 1)
  {
  }

  twostate lemma StaysLinked<T>(nodes: seq<Node<T>>)
    requires old(Linked(nodes)) && forall n <- nodes :: unchanged(n)
    ensures Linked(nodes)
  {
    forall i | 0 <= i < |nodes| ensures nodes[i].prev == At(nodes, i - 1) && nodes[i].next == At(nodes, i + 1) {
      assert nodes[i] in nodes && unchanged(nodes[i]);
    }
  }

  ghost function Without<T>(nodes: seq<Node<T>>, i: nat): seq<Node<T>>
    requires i < |nodes|
  {
    nodes[..i] + nodes[i + 1..]
  }

  /** The links of the other nodes lead past node `i`. */
  ghost predicate Bridges<T>(nodes: seq<Node<T>>, i: nat)
    reads nodes
  {
    forall j :: 0 <= j < |nodes| && j != i ==>
      && nodes[j].prev == At(nodes, if j == i + 1 then i - 1 else j - 1)
      && nodes[j].next == At(nodes, if j == i - 1 then i + 1 else j + 1)
  }

  lemma Apart<T>(nodes: seq<Node<T>>, j: nat, k: nat)
    requires Distinct(nodes) && j < |nodes| && k < |nodes|
    ensures nodes[j] == nodes[k] <==> j == k
  {
  }

  lemma AtAround<T>(nodes: seq<Node<T>>, i: nat)
    requires 0 < i < |nodes| - 1
    ensures At(nodes, i - 1) == nodes[i - 1] && At(nodes, i) == nodes[i] && At(nodes, i + 1) == nodes[i + 1]
  {
  }

  /** Bridging the gap that a node leaves is all it takes to take it out. */
  lemma Bridged<T>(nodes: seq<Node<T>>, i: nat)
    requires Distinct(nodes) && i < |nodes| && Bridges(nodes, i)
    ensures Linked(Without(nodes, i))
  {
    hide At;
    hide Without;
    hide Distinct;
    var rest := Without(nodes, i);
    WithoutAt(nodes, i, 0);
    forall k | 0 <= k < |rest| ensures rest[k].prev == At(rest, k - 1) && rest[k].next == At(rest, k + 1) {
      WithoutAt(nodes, i, k - 1);
      WithoutAt(nodes, i, k);
      WithoutAt(nodes, i, k + 1);
      var j := if k < i then k else k + 1;
      assert rest[k] == nodes[j];
    }
  }

  lemma WithoutAt<T>(nodes: seq<Node<T>>, i: nat, k: int)
    requires i < |nodes|
    ensures |Without(nodes, i)| == |nodes| - 1
    ensures At(Without(nodes, i), k) == At(nodes, if k < i then k else k + 1)
    ensures 0 <= k < |nodes| - 1 ==> Without(nodes, i)[k] == nodes[if k < i then k else k + 1]
    ensures Distinct(nodes) ==> Distinct(Without(nodes, i))
  {
  }

  lemma OtherNodes<T>(nodes: seq<Node<T>>, i: nat)
    requires Linked(nodes) && i < |nodes|
    ensures |Without(nodes, i)| == |nodes| - 1
    ensures forall n :: n in Without(nodes, i) <==> n in nodes && n != nodes[i]
    ensures forall k :: 0 <= k < |nodes| - 1 ==> Without(nodes, i)[k] in nodes
  {
  }

  lemma WithoutEnds<T>(nodes: seq<Node<T>>, i: nat)
    requires i < |nodes|
    ensures First(Without(nodes, i)) == (if i == 0 then At(nodes, 1) else First(nodes))
    ensures Last(Without(nodes, i)) == (if i == |nodes| - 1 then At(nodes, i - 1) else Last(nodes))
  {
  }

  /** A node hung behind the last makes the list one longer. */
  lemma Extended<T>(nodes: seq<Node<T>>, more: Node<T>)
    requires Distinct(nodes) && more !in nodes && more.prev == Last(nodes) && more.next == null
    requires forall j :: 0 <= j < |nodes| ==>
      nodes[j].prev == At(nodes, j - 1) && nodes[j].next == if j == |nodes| - 1 then more else At(nodes, j + 1)
    ensures Linked(nodes + [more]) && Last(nodes + [more]) == more
    ensures First(nodes + [more]) == if nodes == [] then more else First(nodes)
  {
    var longer := nodes + [more];
    forall k | 0 <= k < |longer| ensures longer[k].prev == At(longer, k - 1) && longer[k].next == At(longer, k + 1) {
      if k < |nodes| { assert longer[k] == nodes[k]; }
    }
  }

  /** In front of the list (ptw32_robust_mutex_add). */
  method PushFront<T>(head: Node?<T>, node: Node<T>, ghost nodes: seq<Node<T>>) returns (newHead: Node<T>)
    requires Linked(nodes) && head == First(nodes) && node !in nodes
    modifies node`prev, node`next, nodes`prev
    ensures Linked([node] + nodes) && newHead == node
  {
    if head == null {
      node.prev := null;
      node.next := null;
    } else {
      node.prev := null;
      node.next := head;
      head.prev := node;
    }
    newHead := node;
    ghost var more := [node] + nodes;
    assert forall k :: 1 <= k < |more| ==> more[k] == nodes[k - 1] && more[k] in nodes;
    forall k | 0 <= k < |more| ensures more[k].prev == At(more, k - 1) && more[k].next == At(more, k + 1) {
      if k > 0 { assert more[k] == nodes[k - 1] != node; }
    }
  }

  /** Out of the list, wherever it stands (ptw32_robust_mutex_remove). */
  method Remove<T>(head: Node?<T>, node: Node<T>, ghost nodes: seq<Node<T>>, ghost i: nat) returns (newHead: Node?<T>)
    requires Linked(nodes) && head == First(nodes) && i < |nodes| && nodes[i] == node
    modifies nodes`prev, nodes`next
    ensures Linked(Without(nodes, i)) && newHead == First(Without(nodes, i))
  {
    newHead := head;
    if node.next != null { node.next.prev := node.prev; }
    if node.prev != null { node.prev.next := node.next; }
    if newHead == node { newHead := node.next; }
    Bridged(nodes, i);
  }
}
