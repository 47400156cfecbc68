/** The intrusive circular doubly linked list of the QMI proxy: `qlist_init`,
    `qlist_add_tail`, `qlist_remove`, `qlist_empty` and `qlist_for_each`.

    A list is a head node and the items reached from it. The list operations only ever see
    nodes, so each method takes the sequence it acts on as a ghost argument and says what
    ring of nodes the heap holds afterwards. */
module QList {

  class Node {
    var next: Node
    var prev: Node

    /** `qlist_init`. */
    constructor ()
      ensures next == prev == this
    {
      next := this;
      prev := this;
    }
  }

  predicate Distinct(s: seq<Node>) {
    forall i, j :: 0 <= i < j < |s| ==> s[i] != s[j]
  }

  /** The nodes of `ring`, and no others, are linked into one circle in this order. */
  ghost predicate Ring(ring: seq<Node>)
    reads ring
  {
    && ring != []
    && Distinct(ring)
    && (forall i {:trigger ring[i].next} :: 0 <= i < |ring| - 1 ==> ring[i].next == ring[i + 1])
    && (forall i {:trigger ring[i].prev} :: 0 < i < |ring| ==> ring[i].prev == ring[i - 1])
    && ring[|ring| - 1].next == ring[0]
    && ring[0].prev == ring[|ring| - 1]
  }

  ghost predicate List(head: Node, items: seq<Node>)
    reads head, items
  {
    Ring([head] + items)
  }

  /** Following `next` and following `prev` undo each other everywhere on the circle. */
  lemma LinksAreInverse(head: Node, items: seq<Node>, n: Node)
    requires List(head, items) && n in [head] + items
    ensures n.next.prev == n && n.prev.next == n
    ensures n.next in [head] + items && n.prev in [head] + items
  {
    var ring := [head] + items;
    var i :| 0 <= i < |ring| && ring[i] == n;
    assert ring[0] == head && ring[|ring| - 1] in ring;
    if 0 < i {
      assert ring[i - 1].next == ring[i];
    }
    if i < |ring| - 1 {
      assert ring[i + 1].prev == ring[i];
    }
  }

  /** A heap holds at most one list of items at a head. */
  lemma ListUnique(head: Node, items: seq<Node>, others: seq<Node>)
    requires List(head, items) && List(head, others)
    ensures items == others
  {
    var r, s := [head] + items, [head] + others;
    var n := if |r| < |s| then |r| else |s|;
    PrefixesAgree(r, s, n);
    assert r[..n][n - 1] == r[n - 1] && s[..n][n - 1] == s[n - 1];
    assert |r| == |s|;
    assert r == s;
    assert items == r[1..] && others == s[1..];
  }

  lemma {:induction false} PrefixesAgree(r: seq<Node>, s: seq<Node>, n: nat)
    requires Ring(r) && Ring(s) && r[0] == s[0] && 0 < n <= |r| && n <= |s|
    ensures r[..n] == s[..n]
  {
    if n > 1 {
      PrefixesAgree(r, s, n - 1);
      assert r[n - 2] == r[..n - 1][n - 2] == s[..n - 1][n - 2] == s[n - 2];
      assert r[n - 2].next == r[n - 1] && s[n - 2].next == s[n - 1];
      assert r[..n] == r[..n - 1] + [r[n - 1]];
      assert s[..n] == s[..n - 1] + [s[n - 1]];
    }
  }

  /** `qlist_init` on a node that is in use no more. */
  method Init(node: Node)
    modifies node
    ensures List(node, [])
  {
    node.next := node;
    node.prev := node;
  }

  /** `qlist_empty`. */
  method IsEmpty(head: Node, ghost items: seq<Node>) returns (empty: bool)
    requires List(head, items)
    ensures empty <==> items == []
  {
    assert items != [] ==> ([head] + items)[0].next == ([head] + items)[1];
    empty := head == head.next;
  }

  /** `qlist_head`. */
  method Head(head: Node, ghost items: seq<Node>) returns (first: Node)
    requires List(head, items)
    ensures first == if items == [] then head else items[0]
  {
    assert items != [] ==> ([head] + items)[0].next == ([head] + items)[1];
    first := head.next;
  }

  /** `qlist_add_tail`. Besides the new node only the head and the node before it change. */
  method AddTail(head: Node, item: Node, ghost items: seq<Node>)
    requires List(head, items) && item != head && item !in items
    modifies head, head.prev, item
    ensures List(head, items + [item])
  {
    ghost var ring := [head] + items;
    ghost var last := |ring| - 1;
    item.next := head;
    item.prev := head.prev;
    head.prev.next := item;
    head.prev := item;
    assert [head] + (items + [item]) == ring + [item];
    RingGrows(ring, item);
  }

  lemma RingGrows(ring: seq<Node>, item: Node)
    requires ring != [] && Distinct(ring) && item !in ring
    requires forall i {:trigger ring[i].next} :: 0 <= i < |ring| - 1 ==> ring[i].next == ring[i + 1]
    requires forall i {:trigger ring[i].prev} :: 0 < i < |ring| ==> ring[i].prev == ring[i - 1]
    requires ring[|ring| - 1].next == item && item.prev == ring[|ring| - 1]
    requires item.next == ring[0] && ring[0].prev == item
    ensures Ring(ring + [item])
  {
  }

  /** `qlist_remove`. The removed node keeps its own links, its two neighbours are joined. */
  method Remove(item: Node, ghost head: Node, ghost items: seq<Node>, ghost k: nat)
    requires List(head, items) && k < |items| && item == items[k]
    modifies item.next, item.prev
    ensures List(head, items[..k] + items[k + 1..])
    ensures item.next == old(item.next) && item.prev == old(item.prev)
  {
    ghost var ring := [head] + items;
    ghost var rest := ring[..k + 1] + ring[k + 2..];
    assert ring[k + 1] == item && ring[k].next == ring[k + 1];
    assert item.prev == ring[k];
    assert item.next == if k + 1 == |items| then ring[0] else ring[k + 2];
    item.next.prev := item.prev;
    item.prev.next := item.next;
    assert rest == [head] + (items[..k] + items[k + 1..]);
    forall i | 0 <= i < |rest| - 1
      ensures rest[i].next == rest[i + 1]
    {
      if i > k {
        assert rest[i] == ring[i + 1] && rest[i + 1] == ring[i + 2];
      }
    }
    forall i | 0 < i < |rest|
      ensures rest[i].prev == rest[i - 1]
    {
      if i > k + 1 {
        assert rest[i] == ring[i + 1] && rest[i - 1] == ring[i];
      }
    }
  }

  /** `qlist_for_each`: the nodes that the loop hands to its body, in order. */
  method ForEach(head: Node, ghost items: seq<Node>) returns (visited: seq<Node>)
    requires List(head, items)
    ensures visited == items
  {
    ghost var ring := [head] + items;
    visited := [];
    assert ring[0].next == if items == [] then ring[0] else ring[1];
    var node := head.next;
    while node != head
      invariant |visited| <= |items| && visited == items[..|visited|]
      invariant node == if |visited| == |items| then head else items[|visited|]
      decreases |items| - |visited|
    {
      ghost var i := |visited| + 1;
      assert ring[i] == node;
      assert ring[i].next == if i == |ring| - 1 then ring[0] else ring[i + 1];
      visited := visited + [node];
      node := node.next;
    }
    assert forall j :: 0 <= j < |items| ==> items[j] == ring[j + 1] != ring[0];
  }

  // ---------------------------------------------------------------------------
  // Several lists side by side
  // ---------------------------------------------------------------------------

  /** Any number of circles, each with its head first, that share no node. */
  ghost predicate Rings(rings: seq<seq<Node>>, pool: set<Node>)
    reads pool
  {
    && (forall i, n :: 0 <= i < |rings| && n in rings[i] ==> n in pool)
    && (forall i :: 0 <= i < |rings| ==> Ring(rings[i]))
    && forall i, j, n :: 0 <= i < |rings| && 0 <= j < |rings| && i != j && n in rings[i] ==> n !in rings[j]
  }

  /** Nodes that a list does not own may change without the list noticing. */
  twostate lemma Untouched(ring: seq<Node>)
    requires old(Ring(ring))
    requires forall n :: n in ring ==> n.next == old(n.next) && n.prev == old(n.prev)
    ensures Ring(ring)
  {
    assert forall i :: 0 <= i < |ring| ==> ring[i] in ring;
  }

  lemma LinksStayInside(ring: seq<Node>, k: nat)
    requires Ring(ring) && k < |ring|
    ensures ring[k].next in ring && ring[k].prev in ring
  {
    assert ring[k].next == if k == |ring| - 1 then ring[0] else ring[k + 1];
    assert ring[k].prev == if k == 0 then ring[|ring| - 1] else ring[k - 1];
  }

  /** A node that belongs to no list becomes an empty list beside the others. */
  method InitBeside(node: Node, ghost rings: seq<seq<Node>>, ghost pool: set<Node>)
    requires Rings(rings, pool) && forall j :: 0 <= j < |rings| ==> node !in rings[j]
    modifies node
    ensures Rings(rings + [[node]], pool + {node})
  {
    Init(node);
    forall j | 0 <= j < |rings|
      ensures Ring(rings[j])
    {
      Untouched(rings[j]);
    }
  }

  /** Appending to one list leaves all the others as they are. */
  method AppendTo(head: Node, item: Node, ghost rings: seq<seq<Node>>, ghost pool: set<Node>, ghost i: nat)
    requires Rings(rings, pool) && i < |rings| && head == rings[i][0]
    requires forall j :: 0 <= j < |rings| ==> item !in rings[j]
    modifies pool, item
    ensures Rings(rings[i := rings[i] + [item]], pool + {item})
  {
    ghost var ring := rings[i];
    LinksStayInside(ring, 0);
    assert ring == [head] + ring[1..];
    AddTail(head, item, ring[1..]);
    assert ring + [item] == [head] + (ring[1..] + [item]);
    forall j | 0 <= j < |rings| && j != i
      ensures Ring(rings[j])
    {
      Untouched(rings[j]);
    }
  }

  /** Removing from one list leaves all the others as they are. */
  method RemoveFrom(item: Node, ghost rings: seq<seq<Node>>, ghost pool: set<Node>, ghost i: nat, ghost k: nat)
    requires Rings(rings, pool) && i < |rings| && 0 < k < |rings[i]| && item == rings[i][k]
    modifies pool
    ensures Rings(rings[i := rings[i][..k] + rings[i][k + 1..]], pool)
  {
    ghost var ring := rings[i];
    LinksStayInside(ring, k);
    assert ring == [ring[0]] + ring[1..];
    Remove(item, ring[0], ring[1..], k - 1);
    assert ring[..k] + ring[k + 1..] == [ring[0]] + (ring[1..][..k - 1] + ring[1..][k..]);
    forall j | 0 <= j < |rings| && j != i
      ensures Ring(rings[j])
    {
      Untouched(rings[j]);
    }
  }
}
