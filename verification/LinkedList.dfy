/** kernel/single_linked_list.h: the queue under the scheduler. */
module LinkedList {

  class Node {
    var next: Node?
    const data: int

    constructor (data: int)
      ensures this.data == data && next == null
    {
      this.data := data;
      next := null;
    }
  }

  /** The first occurrence of `x` that is not at the head; the length when there is none. */
  function LaterIndex(s: seq<int>, x: int, i: nat): (r: nat)
    requires 1 <= i
    ensures i <= |s| ==> i <= r <= |s|
    ensures i <= |s| && r < |s| ==> s[r] == x
    ensures forall j :: i <= j < r && j < |s| ==> s[j] != x
    decreases |s| - i
  {
    if i >= |s| then |s| else if s[i] == x then i else LaterIndex(s, x, i + 1)
  }

  /** What `removeAt` leaves: it starts looking at the second node. */
  function WithoutLater(s: seq<int>, x: int): seq<int> {
    var i := LaterIndex(s, x, 1);
    if 1 <= i < |s| then s[..i] + s[i + 1..] else s
  }

  /** `removeAt` takes its argument out of a list without duplicates if and only if the
      argument is not at the head. */
  lemma RemoveAtIff(s: seq<int>, x: int)
    requires forall i, j :: 0 <= i < j < |s| ==> s[i] != s[j]
    ensures x !in WithoutLater(s, x) <==> s == [] || s[0] != x
  {}

  class List {
    var head: Node?
    var tail: Node?
    var size: int
    ghost var nodes: seq<Node>
    ghost var contents: seq<int>

    ghost predicate Valid()
      reads this, nodes
    {
      && size == |nodes| == |contents|
      && (forall i, j :: 0 <= i < j < |nodes| ==> nodes[i] != nodes[j])
      && (forall i :: 0 <= i < |nodes| ==> nodes[i].data == contents[i])
      && (forall i :: 0 <= i < |nodes| - 1 ==> nodes[i].next == nodes[i + 1])
      && (nodes == [] ==> head == null && tail == null)
      && (nodes != [] ==> head == nodes[0] && tail == nodes[|nodes| - 1] && nodes[|nodes| - 1].next == null)
    }

    constructor ()
      ensures Valid() && nodes == [] && contents == []
    {
      head, tail, size := null, null, 0;
      nodes, contents := [], [];
    }

    method PopHeadWithoutFree()
      requires Valid()
      modifies this
      ensures Valid()
      ensures nodes == if old(nodes) == [] then [] else old(nodes)[1..]
      ensures contents == if old(contents) == [] then [] else old(contents)[1..]
    {
      if head == null {
        return;
      }
      if head == tail {
        assert |nodes| == 1;
        head, tail := null, null;
      } else {
        head := head.next;
      }
      size := size - 1;
      nodes, contents := nodes[1..], contents[1..];
    }

    method PushTail(node: Node)
      requires Valid() && node !in nodes
      modifies this, tail, node
      ensures Valid()
      ensures nodes == old(nodes) + [node]
      ensures contents == old(contents) + [node.data]
    {
      if tail == null {
        head, tail := node, node;
      } else {
        tail.next := node;
        tail := node;
      }
      size := size + 1;
      node.next := null;
      nodes, contents := nodes + [node], contents + [node.data];
    }

    /** Returns 0 when a node was removed and -1 otherwise. */
    method RemoveAt(addr: int) returns (r: int)
      requires Valid()
      modifies this, nodes
      ensures Valid()
      ensures contents == WithoutLater(old(contents), addr)
      ensures r == if contents == old(contents) then -1 else 0
      ensures contents == old(contents) ==> nodes == old(nodes)
      ensures forall n :: n in nodes ==> n in old(nodes)
    {
      var node := head;
      if node == null {
        return -1;
      }
      var prev := node;
      node := node.next;
      ghost var i := 1;
      while node != null
        invariant 1 <= i <= |nodes| && prev == nodes[i - 1]
        invariant node == if i < |nodes| then nodes[i] else null
        invariant LaterIndex(contents, addr, i) == LaterIndex(contents, addr, 1)
        invariant unchanged(this) && forall n :: n in nodes ==> unchanged(n)
        decreases |nodes| - i
      {
        if node.data == addr {
          Splice(prev, node, i);
          return 0;
        }
        prev := node;
        node := node.next;
        i := i + 1;
      }
      return -1;
    }

    /** The removal of the node at position `i` behind `prev`. */
    method Splice(prev: Node, node: Node, ghost i: nat)
      requires Valid() && 1 <= i < |nodes| && prev == nodes[i - 1] && node == nodes[i]
      modifies this, prev
      ensures Valid()
      ensures nodes == old(nodes)[..i] + old(nodes)[i + 1..]
      ensures contents == old(contents)[..i] + old(contents)[i + 1..]
    {
      prev.next := node.next;
      if node == tail {
        tail := prev;
      }
      size := size - 1;
      nodes, contents := nodes[..i] + nodes[i + 1..], contents[..i] + contents[i + 1..];
    }
  }
}
