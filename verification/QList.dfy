/** The intrusive circular list that both proxies keep their connections, clients and queued messages on. */
module QList {
  class QNode {
    var next: QNode
    var prev: QNode

    /** qlist_init: a node linked to itself is the empty list. */
    constructor ()
      ensures next == this && prev == this
      ensures Ring(this, [])
    {
      next := this;
      prev := this;
    }
  }

  function Successor<T>(all: seq<T>, i: nat): T
    requires i < |all|
  {
    if i + 1 == |all| then all[0] else all[i + 1]
  }

  ghost predicate Distinct<T>(s: seq<T>) {
    forall i, j :: 0 <= i < j < |s| ==> s[i] != s[j]
  }

  /** head is the sentinel of a circular list whose elements, in order, are items. */
  ghost predicate Ring(head: QNode, items: seq<QNode>)
    reads head, items
  {
    var all := [head] + items;
    && Distinct(all)
    && (forall i {:trigger Successor(all, i)} :: 0 <= i < |all| ==>
          all[i].next == Successor(all, i) && Successor(all, i).prev == all[i])
  }

  /** qlist_empty */
  method IsEmpty(head: QNode, ghost items: seq<QNode>) returns (empty: bool)
    requires Ring(head, items)
    ensures empty <==> items == []
  {
    empty := head == head.next;
    assert head.next == Successor([head] + items, 0);
  }

  /** qlist_head of a list that is not empty */
  method Head(head: QNode, ghost items: seq<QNode>) returns (first: QNode)
    requires Ring(head, items) && items != []
    ensures first == items[0]
  {
    first := head.next;
    assert head.next == Successor([head] + items, 0);
  }

  /** qlist_add_tail */
  method AddTail(head: QNode, item: QNode, ghost items: seq<QNode>)
    requires Ring(head, items) && item !in [head] + items
    modifies head, head.prev, item
    ensures Ring(head, items + [item])
  {
    ghost var all := [head] + items;
    assert all[|all| - 1] == head.prev by { assert Successor(all, |all| - 1) == head; }
    item.next := head;
    item.prev := head.prev;
    head.prev.next := item;
    head.prev := item;
    ghost var now := [head] + (items + [item]);
    assert now == all + [item];
    forall i | 0 <= i < |now|
      ensures now[i].next == Successor(now, i) && Successor(now, i).prev == now[i]
    {
      assert i + 1 < |all| ==> Successor(now, i) == Successor(all, i);
    }
  }

  /** qlist_remove of the k-th element: it is unlinked, its own links are left as they were. */
  method Remove(item: QNode, ghost head: QNode, ghost items: seq<QNode>, ghost k: nat)
    requires Ring(head, items) && k < |items| && item == items[k]
    modifies item.next, item.prev
    ensures Ring(head, items[..k] + items[k + 1..])
    ensures item.next == old(item.next) && item.prev == old(item.prev)
  {
    ghost var all := [head] + items;
    ghost var before, after := all[k], Successor(all, k + 1);
    assert item == all[k + 1] == Successor(all, k) && item.prev == before;
    assert item.next == after && after.prev == item;
    item.next.prev := item.prev;
    item.prev.next := item.next;
    ghost var now := [head] + (items[..k] + items[k + 1..]);
    assert now == all[..k + 1] + all[k + 2..];
    assert now[k] == before && Successor(now, k) == after;
    StillDistinct(all, now, k);
    forall i | 0 <= i < |now| && i != k
      ensures now[i].next == Successor(now, i) && Successor(now, i).prev == now[i]
    {
      UntouchedLink(all, now, k, i);
    }
  }

  lemma StillDistinct<T>(all: seq<T>, now: seq<T>, k: nat)
    requires k + 1 < |all| && now == all[..k + 1] + all[k + 2..] && Distinct(all)
    ensures Distinct(now)
  {
    forall i, j | 0 <= i < j < |now| ensures now[i] != now[j] {
      assert now[i] == all[if i <= k then i else i + 1] && now[j] == all[if j <= k then j else j + 1];
    }
  }

  /** Taking out element k + 1 leaves every link except the one across the gap between the same two nodes. */
  lemma UntouchedLink(all: seq<QNode>, now: seq<QNode>, k: nat, i: nat)
    requires k + 1 < |all| && now == all[..k + 1] + all[k + 2..] && i < |now| && i != k && Distinct(all)
    ensures var j := if i < k then i else i + 1;
            && now[i] == all[j] && Successor(now, i) == Successor(all, j)
            && now[i] != all[k] && Successor(now, i) != Successor(all, k + 1)
  {
  }

  /** qlist_remove of a node that is on no list: nothing else changes, so no list loses an element. */
  method RemoveUnlinked(item: QNode)
    requires Ring(item, [])
    modifies item
    ensures Ring(item, [])
  {
    assert item.next == item.prev == item by { assert Successor([item] + [], 0) == item; }
    item.next.prev := item.prev;
    item.prev.next := item.next;
  }

  /** qlist_for_each visits exactly the elements, in order. */
  method ForEach(head: QNode, ghost items: seq<QNode>) returns (visited: seq<QNode>)
    requires Ring(head, items)
    ensures visited == items
  {
    ghost var all := [head] + items;
    visited := [];
    var node := head.next;
    assert node == Successor(all, 0);
    while node != head
      invariant |visited| <= |items| && visited == items[..|visited|]
      invariant node == Successor(all, |visited|)
      decreases |items| - |visited|
    {
      assert node == all[|visited| + 1] == items[|visited|];
      visited := visited + [node];
      node := node.next;
    }
    assert |visited| == |items|;
  }

  /** The drain loop of the clean-up code: take the head off until the list is empty. */
  method Drain(head: QNode, ghost items: seq<QNode>) returns (removed: seq<QNode>)
    requires Ring(head, items)
    modifies head, items
    ensures Ring(head, []) && removed == items
  {
    removed := [];
    ghost var rest := items;
    var empty := IsEmpty(head, rest);
    while !empty
      invariant Ring(head, rest) && empty == (rest == [])
      invariant removed + rest == items
      invariant forall x :: x in rest ==> x in items
      decreases |rest|
    {
      var first := Head(head, rest);
      assert first.next in [head] + rest && first.prev in [head] + rest by {
        assert first == Successor([head] + rest, 0) && first.next == Successor([head] + rest, 1);
      }
      Remove(first, head, rest, 0);
      removed := removed + [first];
      rest := rest[..0] + rest[1..];
      empty := IsEmpty(head, rest);
    }
  }
}
