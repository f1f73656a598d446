/**
  The scheduler's doubly linked lists of thread nodes.
 */
module ThreadList {

  class Node {
    var next: Node?
    var prev: Node?

    constructor ()
      ensures next == null && prev == null
    {
      next, prev := null, null;
    }
  }

  function At(s: seq<Node>, i: int): Node? {
    if 0 <= i < |s| then s[i] else null
  }

  function Cut(s: seq<Node>, i: nat): seq<Node>
    requires i < |s|
  {
    s[..i] + s[i + 1..]
  }

  ghost predicate NoDup(s: seq<Node>) {
    forall i, j :: 0 <= i < j < |s| ==> s[i] != s[j]
  }

  ghost predicate Linked(s: seq<Node>, i: nat)
    requires i < |s|
    reads s[i]
  {
    s[i].next == At(s, i + 1) && s[i].prev == At(s, i - 1)
  }

  class List {
    var head: Node?
    var tail: Node?
    var nNodes: nat

    /** The nodes from head to tail are exactly s, linked both ways. */
    ghost predicate Is(s: seq<Node>)
      reads this, s
    {
      head == At(s, 0) && tail == At(s, |s| - 1) && nNodes == |s| && NoDup(s) &&
      forall i :: 0 <= i < |s| ==> Linked(s, i)
    }

    constructor ()
      ensures Is([])
    {
      head, tail, nNodes := null, null, 0;
    }

    /** The node's own next link is not written: the list grows by the node exactly if that
        link was null. */
    method Append(node: Node, ghost s: seq<Node>)
      requires Is(s) && node !in s
      modifies this, s, node
      ensures node.next == old(node.next)
      ensures Is(s + [node]) <==> old(node.next) == null
    {
      if tail != null {
        tail.next := node;
      }
      if head == null {
        head := node;
      }
      node.prev := tail;
      tail := node;
      nNodes := nNodes + 1;
      ghost var t := s + [node];
      forall i | 0 <= i < |s| ensures Linked(t, i) {
        assert t[i] == s[i] && old(Linked(s, i));
      }
      assert t[|s|] == node && (Linked(t, |s|) <==> node.next == null);
    }

    /** The node leaves the list, with both its links null, so that it can be appended. */
    method Remove(node: Node, ghost s: seq<Node>, ghost i: nat)
      requires Is(s) && i < |s| && s[i] == node
      modifies this, s
      ensures Is(Cut(s, i)) && node !in Cut(s, i) && node.next == null && node.prev == null
    {
      assert Linked(s, i);
      ghost var t := Cut(s, i);
      if node.next != null {
        node.next.prev := node.prev;
      }
      if node.prev != null {
        node.prev.next := node.next;
      }
      if head == node {
        head := node.next;
      }
      if tail == node {
        tail := node.prev;
      }
      nNodes := nNodes - 1;
      node.next := null;
      node.prev := null;
      forall j | 0 <= j < |t| ensures Linked(t, j) {
        var k := if j < i then j else j + 1;
        assert t[j] == s[k] && old(Linked(s, k));
      }
    }
  }
}
