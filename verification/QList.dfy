/** The intrusive circular list of qlist.h on real heap nodes. A head node and its items form a ring
    whose `next` and `prev` links are inverse to each other; the operations are proved to append to
    and delete from the sequence of items. */
module QList {

  class QNode {
    var next: QNode?
    var prev: QNode?

    /** qlist_init */
    constructor ()
      ensures Ring(this, [])
    {
      next, prev := this, this;
      new;
      assert RingAt([this], 0);
    }
  }

  predicate Distinct(ns: seq<QNode>) {
    forall i, j :: 0 <= i < j < |ns| ==> ns[i] != ns[j]
  }

  /** Node `i` of a ring is linked to its cyclic successor, and the successor back to it. */
  ghost predicate RingAt(ns: seq<QNode>, i: nat)
    requires i < |ns|
    reads ns
  {
    var j := if i + 1 == |ns| then 0 else i + 1;
    ns[i].next == ns[j] && ns[j].prev == ns[i]
  }

  ghost predicate Ring(head: QNode, items: seq<QNode>)
    reads head, items
  {
    var ns := [head] + items;
    Distinct(ns) && forall i :: 0 <= i < |ns| ==> RingAt(ns, i)
  }

  /** The neighbours every node of a ring has: its links are never null and undo each other. */
  lemma RingLinks(head: QNode, items: seq<QNode>, n: QNode)
    requires Ring(head, items) && (n == head || n in items)
    ensures n.next != null && n.prev != null && n.next.prev == n && n.prev.next == n
    ensures n.next in [head] + items && n.prev in [head] + items
  {
    var ns := [head] + items;
    assert n in ns;
    var i :| 0 <= i < |ns| && ns[i] == n;
    assert RingAt(ns, i);
    assert RingAt(ns, if i == 0 then |ns| - 1 else i - 1);
  }

  /** Two sequences that form a ring with the same head are equal: the links determine the items. */
  lemma {:induction false} RingUnique(head: QNode, a: seq<QNode>, b: seq<QNode>)
    requires Ring(head, a) && Ring(head, b)
    ensures a == b
  {
    var n := SamePrefix(head, a, b, if |a| <= |b| then |a| else |b|);
    var na, nb := [head] + a, [head] + b;
    assert n + 1 < |nb| ==> nb[0] != nb[n + 1];
    assert n + 1 < |na| ==> na[0] != na[n + 1];
    assert na[n] == nb[n] by {
      if n > 0 {
        assert a[n - 1] == a[..n][n - 1] && b[n - 1] == b[..n][n - 1];
      }
    }
    assert RingAt(na, n) && RingAt(nb, n);
    if |a| == |b| {
      assert a == a[..n] && b == b[..n];
    } else {
      assert false;
    }
  }

  lemma {:induction false} SamePrefix(head: QNode, a: seq<QNode>, b: seq<QNode>, k: nat) returns (n: nat)
    requires Ring(head, a) && Ring(head, b) && k <= |a| && k <= |b|
    ensures n == k && a[..k] == b[..k]
  {
    n := k;
    if k > 0 {
      var _ := SamePrefix(head, a, b, k - 1);
      var na, nb := [head] + a, [head] + b;
      assert RingAt(na, k - 1) && RingAt(nb, k - 1);
      assert na[k - 1] == nb[k - 1] by {
        if k > 1 {
          assert a[k - 2] == a[..k - 1][k - 2] && b[k - 2] == b[..k - 1][k - 2];
        }
      }
      assert a[k - 1] == b[k - 1];
      assert a[..k] == a[..k - 1] + [a[k - 1]] && b[..k] == b[..k - 1] + [b[k - 1]];
    }
  }

  /** qlist_empty */
  method IsEmpty(head: QNode, ghost items: seq<QNode>) returns (empty: bool)
    requires Ring(head, items)
    ensures empty <==> items == []
  {
    assert RingAt([head] + items, 0);
    empty := head == head.next;
  }

  /** qlist_head */
  method First(head: QNode, ghost items: seq<QNode>) returns (n: QNode)
    requires Ring(head, items)
    ensures n == if items == [] then head else items[0]
  {
    assert RingAt([head] + items, 0);
    n := head.next;
  }

  /** qlist_add_tail: writes only the new item, the head and the old last node. */
  method AddTail(head: QNode, item: QNode, ghost items: seq<QNode>)
    requires Ring(head, items) && item != head && item !in items
    modifies item, head, ([head] + items)[|items|]
    ensures Ring(head, items + [item])
  {
    ghost var ns := [head] + items;
    ghost var last := |items|;
    assert RingAt(ns, last);
    item.next := head;
    item.prev := head.prev;
    head.prev.next := item;
    head.prev := item;
    ghost var after := [head] + (items + [item]);
    assert forall i :: 0 <= i < |ns| ==> after[i] == ns[i] && (i > 0 ==> ns[i] == items[i - 1]);
    forall i | 0 <= i < |after| ensures RingAt(after, i) {
      if i < last {
        assert old(RingAt(ns, i));
      }
    }
  }

  /** qlist_remove: writes only the two neighbours; the removed node keeps its own links. */
  method Remove(item: QNode, ghost head: QNode, ghost items: seq<QNode>, ghost k: nat)
    requires Ring(head, items) && k < |items| && items[k] == item
    modifies ([head] + items)[k], ([head] + items + [head])[k + 2]
    ensures Ring(head, items[..k] + items[k + 1..])
    ensures |items| > 1 ==> item.next == old(item.next) && item.prev == old(item.prev)
  {
    ghost var ns := [head] + items;
    assert RingAt(ns, k) && RingAt(ns, k + 1);
    ghost var nx := if k + 2 == |ns| then head else ns[k + 2];
    assert nx == ([head] + items + [head])[k + 2];
    item.next.prev := item.prev;
    item.prev.next := item.next;
    ghost var after := [head] + (items[..k] + items[k + 1..]);
    assert forall i :: 0 <= i <= k ==> after[i] == ns[i];
    assert forall i :: k < i < |after| ==> after[i] == ns[i + 1];
    forall i | 0 <= i < |after| ensures RingAt(after, i) {
      if i < k {
        assert old(RingAt(ns, i));
      } else if i > k {
        assert old(RingAt(ns, i + 1));
      }
    }
  }

  /** Removing a node from a list it was never added to only relinks the node to itself; a service's
      DEL_SERVER notice does exactly this with a freshly initialised node. */
  method RemoveFresh(item: QNode, ghost head: QNode, ghost items: seq<QNode>)
    requires Ring(item, []) && Ring(head, items) && item != head && item !in items
    modifies item
    ensures Ring(item, []) && Ring(head, items)
  {
    assert [item] + [] == [item];
    assert RingAt([item] + [], 0);
    item.next.prev := item.prev;
    item.prev.next := item.next;
    ghost var ns := [head] + items;
    assert forall i :: 0 <= i < |ns| ==> old(RingAt(ns, i));
    forall i | 0 <= i < |ns| ensures RingAt(ns, i) {
      assert ns[i] != item;
    }
  }

  /** qlist_for_each: the nodes visited are the items, in order, once each. */
  method ForEach(head: QNode, ghost items: seq<QNode>) returns (visited: seq<QNode>)
    requires Ring(head, items)
    ensures visited == items
  {
    visited := [];
    ghost var ns := [head] + items;
    assert RingAt(ns, 0);
    var node := head.next;
    while node != head
      invariant |visited| <= |items| && visited == items[..|visited|]
      invariant |visited| < |items| ==> items[|visited|] == ns[|visited| + 1]
      invariant node == (if |visited| == |items| then head else items[|visited|])
      decreases |items| - |visited|
    {
      assert |visited| < |items|;
      assert RingAt(ns, |visited| + 1);
      visited := visited + [node];
      node := node.next;
    }
  }

  /** A list emptied from its head, the way a connection gives up its records. */
  method DrainFromHead(head: QNode, ghost items: seq<QNode>) returns (removed: seq<QNode>)
    requires Ring(head, items)
    modifies head, items
    ensures removed == items && Ring(head, [])
  {
    removed := [];
    ghost var rest := items;
    var empty := IsEmpty(head, rest);
    while !empty
      invariant Ring(head, rest) && removed + rest == items && forall n :: n in rest ==> n in items
      invariant empty <==> rest == []
      decreases |rest|
    {
      var n := First(head, rest);
      assert ([head] + rest + [head])[2] == (if |rest| > 1 then rest[1] else head);
      assert |rest| > 1 ==> rest[1] in rest;
      Remove(n, head, rest, 0);
      assert rest[..0] + rest[1..] == rest[1..];
      removed := removed + [n];
      rest := rest[1..];
      empty := IsEmpty(head, rest);
    }
  }
}
