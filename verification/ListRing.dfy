/** The circular doubly-linked lists of include/list.h: a ring of nodes refines a sequence. */
module ListRing {
  /** struct list_node */
  class ListNode {
    var next: ListNode
    var prev: ListNode

    /** list_init() */
    constructor ()
      ensures next == this && prev == this && Ring([this])
    {
      next, prev := this, this;
    }
  }

  ghost function Nodes(all: seq<ListNode>): set<ListNode> { set n | n in all }

  /** The position behind `i` in a ring of `n` nodes. */
  function Succ(i: nat, n: nat): nat {
    if i + 1 < n then i + 1 else 0
  }

  ghost predicate Linked(all: seq<ListNode>, i: nat)
    requires i < |all|
    reads all
  {
    all[i].next == all[Succ(i, |all|)] && all[Succ(i, |all|)].prev == all[i]
  }

  predicate Distinct(all: seq<ListNode>) {
    forall i, j :: 0 <= i < j < |all| ==> all[i] != all[j]
  }

  /** The nodes of `all`, each once, form a ring in this order; nothing else is linked to it. */
  ghost predicate Ring(all: seq<ListNode>)
    reads all
  {
    all != [] && Distinct(all) && forall i :: 0 <= i < |all| ==> Linked(all, i)
  }

  /** A ring may be read from any of its nodes. */
  lemma Rotate(a: seq<ListNode>, b: seq<ListNode>)
    requires Ring(a + b)
    ensures Ring(b + a)
  {
    var ab, ba := a + b, b + a;
    forall i | 0 <= i < |ba|
      ensures Linked(ba, i)
    {
      assert Linked(ab, if i < |b| then |a| + i else i - |b|);
    }
    forall i, j | 0 <= i < j < |ba|
      ensures ba[i] != ba[j]
    {
      assert ba[i] == ab[if i < |b| then |a| + i else i - |b|];
      assert ba[j] == ab[if j < |b| then |a| + j else j - |b|];
    }
  }

  /** The node at `k` and its two neighbours. */
  lemma Neighbours(all: seq<ListNode>, k: nat)
    requires Ring(all) && k < |all|
    ensures all[k].next == all[Succ(k, |all|)] && all[k].next.prev == all[k]
    ensures k > 0 ==> all[k].prev == all[k - 1]
    ensures k == 0 ==> all[k].prev == all[|all| - 1]
    ensures all[k].prev.next == all[k]
  {
    assert Linked(all, k);
    assert Linked(all, if k > 0 then k - 1 else |all| - 1);
  }

  /** list_empty(): neither assertion of the source can fail. */
  method ListEmpty(node: ListNode, ghost all: seq<ListNode>) returns (empty: bool)
    requires Ring(all) && all[0] == node
    ensures empty <==> all == [node]
  {
    Neighbours(all, 0);
    empty := node.next == node;
    assert empty <==> node.prev == node;
    assert |all| == 1 ==> all == [node];
  }

  /** list_add(): the new node is right behind `node`. */
  method ListAdd(node: ListNode, entry: ListNode, ghost rest: seq<ListNode>)
    requires Ring([node] + rest) && entry !in [node] + rest
    modifies Nodes([node] + rest), entry
    ensures Ring([node, entry] + rest)
  {
    ghost var all, new' := rest + [node], rest + [node, entry];
    Rotate([node], rest);
    Neighbours(all, |rest|);
    assert forall i :: 0 <= i < |all| ==> all[i] == new'[i] && all[i] in [node] + rest;
    entry.next := node.next;
    entry.next.prev := entry;
    node.next := entry;
    entry.prev := node;
    forall i | 0 <= i < |new'|
      ensures Linked(new', i)
    {
      if i < |rest| {
        assert old(Linked(all, i));
      }
    }
    Rotate(rest, [node, entry]);
  }

  /** list_add_tail(): the new node is right before `node`. */
  method ListAddTail(node: ListNode, entry: ListNode, ghost rest: seq<ListNode>)
    requires Ring([node] + rest) && entry !in [node] + rest
    modifies Nodes([node] + rest), entry
    ensures Ring([node] + rest + [entry])
  {
    ghost var all, new' := [node] + rest, [node] + rest + [entry];
    Neighbours(all, 0);
    assert forall i :: 0 <= i < |all| ==> all[i] == new'[i];
    entry.prev := node.prev;
    entry.prev.next := entry;
    node.prev := entry;
    entry.next := node;
    forall i | 0 <= i < |new'|
      ensures Linked(new', i)
    {
      if i < |rest| {
        assert old(Linked(all, i));
      }
    }
  }

  /** list_del(): the others stay a ring in the same order and the node is a ring of its own; the assertions of the
      source hold. */
  method ListDel(node: ListNode, ghost rest: seq<ListNode>)
    requires Ring([node] + rest)
    modifies Nodes([node] + rest)
    ensures Ring([node]) && (rest != [] ==> Ring(rest))
  {
    ghost var all := rest + [node];
    Rotate([node], rest);
    Neighbours(all, |rest|);
    assert forall i :: 0 <= i < |rest| ==> all[i] == rest[i];
    assert Nodes(all) == Nodes([node] + rest);
    var prevn, nextn := node.prev, node.next;
    assert prevn.next == node && nextn.prev == node;
    prevn.next := node.next;
    nextn.prev := node.prev;
    node.next := node;
    node.prev := node;
    forall i | 0 <= i < |rest|
      ensures Linked(rest, i)
    {
      if i + 1 < |rest| {
        assert old(Linked(all, i));
      }
    }
  }

  /** list_for_each(): the loop visits the nodes behind the head once, in order. */
  method ListForEach(head: ListNode, ghost items: seq<ListNode>) returns (visited: seq<ListNode>)
    requires Ring([head] + items)
    ensures visited == items
  {
    ghost var all := [head] + items;
    Neighbours(all, 0);
    visited := [];
    var node := head.next;
    while node != head
      invariant |visited| <= |items| && visited == items[..|visited|]
      invariant node == all[Succ(|visited|, |all|)]
      decreases |items| - |visited|
    {
      Neighbours(all, |visited| + 1);
      visited := visited + [node];
      node := node.next;
    }
  }

  /** Round robin, as the run queues do it: the first node of a list is taken out and appended, and the order of the
      others is kept. */
  method Requeue(head: ListNode, first: ListNode, ghost rest: seq<ListNode>)
    requires Ring([head, first] + rest)
    modifies Nodes([head, first] + rest)
    ensures Ring([head] + rest + [first])
  {
    ghost var all := [head, first] + rest;
    assert all == [head] + ([first] + rest);
    Rotate([head], [first] + rest);
    ghost var turned := [first] + (rest + [head]);
    assert [first] + rest + [head] == turned;
    assert first !in rest + [head] by {
      assert forall i :: 0 < i < |turned| ==> turned[i] != turned[0];
      assert turned[1..] == rest + [head];
    }
    assert Nodes(turned) == Nodes(all) == Nodes([head] + rest) + {first};
    ListDel(first, rest + [head]);
    Rotate(rest, [head]);
    ListAddTail(head, first, rest);
  }
}
