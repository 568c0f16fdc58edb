/** The unrolled linked list of lib/unrolled_list.c, which serves as the file descriptor table: a linked list of small
    arrays that refines a map from keys to values and hands out the smallest unused key. */
module Unrolled {
  import opened Options
  import opened Arith

  /** A cell holds a non-NULL pointer, or nothing. */
  type Cell = Option<nat>

  /** The arrays of all nodes, in order. */
  type Grid = seq<seq<Cell>>

  predicate GridOk(g: Grid, len: nat) {
    0 < len && forall i :: 0 <= i < |g| ==> |g[i]| == len
  }

  /** The map that the list stands for; keys beyond the last node have no value. */
  function At(g: Grid, len: nat, key: nat): Cell
    requires GridOk(g, len)
  {
    if key / len < |g| then g[key / len][key % len] else None
  }

  function Put(g: Grid, i: nat, j: nat, c: Cell): Grid
    requires i < |g| && j < |g[i]|
  {
    g[i := g[i][j := c]]
  }

  /** The key of cell `j` of row `i`. */
  function Key(len: nat, i: nat, j: nat): nat { i * len + j }

  lemma KeyOf(len: nat, i: nat, j: nat, key: nat)
    requires 0 < len && j < len
    ensures key == Key(len, i, j) <==> key / len == i && key % len == j
  {
    DivModUnique(len, i, j);
    DivModSplit(len, key);
  }

  /** Changing a cell changes the binding of its key, and no other. */
  lemma PutAt(g: Grid, len: nat, i: nat, j: nat, c: Cell, key: nat)
    requires GridOk(g, len) && i < |g| && j < len
    ensures GridOk(Put(g, i, j, c), len)
    ensures At(Put(g, i, j, c), len, key) == if key == Key(len, i, j) then c else At(g, len, key)
  {
    KeyOf(len, i, j, key);
    hide Key;
    assert key % len < len;
  }

  /** A new node has no bindings. */
  lemma GrowAt(g: Grid, len: nat, row: seq<Cell>, key: nat)
    requires GridOk(g, len) && |row| == len && forall j :: 0 <= j < len ==> row[j] == None
    ensures GridOk(g + [row], len) && At(g + [row], len, key) == At(g, len, key)
  {
  }

  /** Every key below that of cell `j` of row `i` is in use if all cells before it are. */
  lemma BelowUsed(g: Grid, len: nat, i: nat, j: nat, key: nat)
    requires GridOk(g, len) && i < |g| && j < len && key < Key(len, i, j)
    requires forall r :: 0 <= r < i ==> RowUsed(g[r], len)
    requires RowUsed(g[i], j)
    ensures At(g, len, key).Some?
  {
    var r, c := key / len, key % len;
    KeyOrder(len, key, i, j);
    if r < i {
      assert RowUsed(g[r], len);
    }
  }

  /** The first `n` cells of a row are in use. */
  predicate RowUsed(row: seq<Cell>, n: nat) {
    n <= |row| && forall c :: 0 <= c < n ==> row[c].Some?
  }

  lemma KeyOrder(len: nat, key: nat, i: nat, j: nat)
    requires 0 < len && j < len && key < Key(len, i, j)
    ensures key / len < i || (key / len == i && key % len < j)
  {
    DivModSplit(len, key);
    TimesIsMul(key / len, len);
    TimesIsMul(i, len);
    if i < key / len {
      TimesMonotone(i + 1, key / len, len);
    }
  }

  /** How many cells of a row are empty. */
  function Frees(row: seq<Cell>): nat {
    if row == [] then 0 else Frees(row[..|row| - 1]) + if row[|row| - 1] == None then 1 else 0
  }

  lemma {:induction false} FreesUpdate(row: seq<Cell>, j: nat, c: Cell)
    requires j < |row|
    ensures Frees(row[j := c]) == Frees(row) - (if row[j] == None then 1 else 0) + (if c == None then 1 else 0)
  {
    var l := |row| - 1;
    if j < l {
      assert row[j := c][..l] == row[..l][j := c];
      FreesUpdate(row[..l], j, c);
    } else {
      assert row[j := c][..l] == row[..l];
    }
  }

  lemma {:induction false} FreesZero(row: seq<Cell>)
    ensures Frees(row) == 0 <==> forall j :: 0 <= j < |row| ==> row[j].Some?
    ensures (forall j :: 0 <= j < |row| ==> row[j] == None) ==> Frees(row) == |row|
  {
    if row != [] {
      var l := |row| - 1;
      FreesZero(row[..l]);
      assert forall j :: 0 <= j < l ==> row[..l][j] == row[j];
    }
  }

  /** struct __node: its array is a sequence of fixed length. */
  class Node {
    var cells: seq<Cell>
    const num: nat
    var nrfree: nat
    var next: Node?

    /** __unode_new() */
    constructor (num: nat, len: nat)
      ensures cells == EmptyRow(len) && this.num == num && nrfree == len && next == null
    {
      this.num, nrfree, next, cells := num, len, null, EmptyRow(len);
    }
  }

  function EmptyRow(len: nat): (r: seq<Cell>)
    ensures |r| == len && forall j :: 0 <= j < len ==> r[j] == None
  {
    seq(len, _ => None)
  }

  /** The arrays of the nodes. */
  ghost function Rows(nodes: seq<Node>): (g: Grid)
    reads nodes`cells
    ensures |g| == |nodes| && forall i :: 0 <= i < |nodes| ==> g[i] == nodes[i].cells
  {
    if nodes == [] then [] else Rows(nodes[..|nodes| - 1]) + [nodes[|nodes| - 1].cells]
  }

  /** struct unrolled_head */
  class UnrolledList {
    const len: nat
    var head: Node?
    ghost var nodes: seq<Node>
    ghost var repr: set<Node>

    ghost predicate Valid()
      reads this, repr
    {
      && (forall n :: n in nodes ==> n in repr)
      && 0 < len && head == (if nodes == [] then null else nodes[0])
      && (forall i :: 0 <= i < |nodes| ==> NodeOk(nodes, len, i))
      && (forall i, j :: 0 <= i < j < |nodes| ==> nodes[i] != nodes[j])
    }

    ghost function View(): Grid
      reads this, repr
    {
      if forall n :: n in nodes ==> n in repr then Rows(nodes) else []
    }

    /** unrolled_init() */
    constructor (len: nat)
      requires 0 < len
      ensures Valid() && this.len == len && View() == [] && repr == {}
    {
      this.len, head, nodes, repr := len, null, [], {};
    }

    /** __get_node(): the node of a key, or null if the key is out of range */
    method GetNode(key: nat) returns (node: Node?, idx: nat)
      requires Valid()
      ensures node == null <==> |nodes| <= key / len
      ensures node != null ==> key / len < |nodes| && node == nodes[key / len] && idx == key % len
    {
      idx := 0;
      node := head;
      if node == null {
        return;
      }
      assert NodeOk(nodes, len, 0);
      var num: nat := key / |node.cells|;
      idx := key % |node.cells|;
      ghost var i := 0;
      while num > 0
        invariant i + num == key / len && (if i < |nodes| then node == nodes[i] else node == null && |nodes| <= i)
        decreases num
      {
        if node == null {
          return;
        }
        assert NodeOk(nodes, len, i);
        node := node.next;
        num, i := num - 1, i + 1;
      }
    }

    /** unrolled_lookup(): agrees with the map for every key */
    method Lookup(key: nat) returns (val: Cell)
      requires Valid()
      ensures GridOk(View(), len) && val == At(View(), len, key)
    {
      ViewOk(nodes, len);
      var node, idx := GetNode(key);
      if node == null {
        return None;
      }
      return node.cells[idx];
    }

    /** Store a value in an empty cell, or empty a cell in use. */
    method SetCell(ghost i: nat, node: Node, j: nat, c: Cell)
      requires Valid() && i < |nodes| && node == nodes[i] && j < |node.cells| && c.Some? == node.cells[j].None?
      modifies node`nrfree, node`cells
      ensures Valid() && i < |old(View())| && j < |old(View())[i]| && View() == Put(old(View()), i, j, c)
    {
      assert NodeOk(nodes, len, i);
      FreesUpdate(node.cells, j, c);
      FreesPositive(node.cells, j);
      node.nrfree := if c.Some? then node.nrfree - 1 else node.nrfree + 1;
      node.cells := node.cells[j := c];
      forall k | 0 <= k < |nodes|
        ensures NodeOk(nodes, len, k)
      {
        assert old(NodeOk(nodes, len, k));
      }
    }

    /** __unode_array_find_free_idx() */
    method FindFree(node: Node) returns (j: nat)
      requires node.nrfree == Frees(node.cells) && 0 < node.nrfree
      ensures j < |node.cells| && node.cells[j] == None && RowUsed(node.cells, j)
    {
      j := 0;
      while j < |node.cells|
        invariant j <= |node.cells| && RowUsed(node.cells, j)
      {
        if node.cells[j] == None {
          return;
        }
        j := j + 1;
      }
      FreesZero(node.cells);
      assert false;
    }

    /** Append a new, empty node behind the last one. */
    method Grow(prev: Node?) returns (node: Node)
      requires Valid() && prev == (if nodes == [] then null else nodes[|nodes| - 1])
      modifies this`head, this`nodes, this`repr, repr`next
      ensures Valid() && nodes == old(nodes) + [node] && fresh(node) && node.cells == EmptyRow(len)
      ensures View() == old(View()) + [EmptyRow(len)] && fresh(repr - old(repr))
    {
      hide Frees, Rows, NodeOk;
      if prev != null {
        NodeFacts(nodes, len, |nodes| - 1);
      }
      FreesZero(EmptyRow(len));
      node := new Node(if prev == null then 0 else prev.num + 1, len);
      Attach(prev, node);
    }

    method Attach(prev: Node?, node: Node)
      requires Valid() && prev == (if nodes == [] then null else nodes[|nodes| - 1]) && node !in repr
      requires node.num == |nodes| && |node.cells| == len && node.nrfree == Frees(node.cells) && node.next == null
      modifies this`head, this`nodes, this`repr, repr`next
      ensures Valid() && nodes == old(nodes) + [node] && repr == old(repr) + {node} &&
              View() == old(View()) + [node.cells]
    {
      hide Frees, Rows;
      ghost var before := nodes;
      if prev == null {
        head := node;
      } else {
        prev.next := node;
      }
      nodes, repr := nodes + [node], repr + {node};
      RowsAppend(before, node);
      forall k | 0 <= k < |nodes|
        ensures NodeOk(nodes, len, k)
      {
        if k < |before| {
          assert old(NodeOk(nodes, len, k)) && nodes[k] == before[k] && before[k] in before;
        }
      }
    }

    /** The first node with a free cell, or the last node if there is none. */
    method FindNode() returns (node: Node?, prev: Node?, ghost i: nat)
      requires Valid() && nodes != []
      ensures i <= |nodes| && node == (if i < |nodes| then nodes[i] else null) &&
              (node == null ==> prev == nodes[|nodes| - 1])
      ensures node != null ==> 0 < node.nrfree
      ensures forall r :: 0 <= r < i ==> RowUsed(View()[r], len)
    {
      node, prev, i := head, head, 0;
      while node != null && node.nrfree == 0
        invariant i <= |nodes| && node == (if i < |nodes| then nodes[i] else null) && (i > 0 ==> prev == nodes[i - 1])
        invariant forall r :: 0 <= r < i ==> RowUsed(View()[r], len)
        decreases |nodes| - i
      {
        assert NodeOk(nodes, len, i);
        FreesZero(node.cells);
        prev, node, i := node, node.next, i + 1;
      }
    }

    /** Make sure that there is a node. */
    method FirstNode()
      requires Valid()
      modifies this`head, this`nodes, this`repr, repr
      ensures Valid() && nodes != [] && SameBindings(old(View()), View(), len)
      ensures fresh(repr - old(repr))
    {
      ViewOk(nodes, len);
      GrowAll(View(), len);
      if head == null {
        var first := Grow(null);
      }
    }

    /** The first free cell, in a new node if all are in use. */
    method FindSlot() returns (node: Node, ghost i: nat, j: nat)
      requires Valid() && nodes != []
      modifies this`head, this`nodes, this`repr, repr
      ensures Valid() && i < |nodes| && node == nodes[i] && SameBindings(old(View()), View(), len)
      ensures fresh(repr - old(repr))
      ensures node.num == i < |View()| && j < |node.cells| == len && node.cells[j] == None
      ensures FirstFree(View(), len, i, j)
    {
      hide At, Frees, Rows, NodeOk, SameBindings, FirstFree, GridOk;
      ViewOk(nodes, len);
      ghost var g := View();
      var found, prev;
      found, prev, i := FindNode();
      if found == null {
        node := Grow(prev);
        j := 0;
        SlotInNew(g, len, i);
      } else {
        NodeFacts(nodes, len, i);
        node := found;
        j := FindFree(node);
        SlotHere(g, len, i, j);
      }
      NodeFacts(nodes, len, i);
    }

    /** unrolled_insert(): the smallest unused key is bound to the value, and no other binding changes. */
    method Insert(val: nat) returns (key: nat)
      requires Valid()
      modifies this`head, this`nodes, this`repr, repr
      ensures Valid() && GridOk(old(View()), len) && GridOk(View(), len) && fresh(repr - old(repr))
      ensures At(old(View()), len, key) == None && forall k :: 0 <= k < key ==> At(old(View()), len, k).Some?
      ensures forall k :: At(View(), len, k) == if k == key then Some(val) else At(old(View()), len, k)
    {
      hide At, GridOk, Frees, NodeOk, SameBindings, FirstFree, Put, Rows;
      ghost var g := View();
      FirstNode();
      ghost var g1 := View();
      var node, i, j := FindSlot();
      ghost var g2 := View();
      key := node.num * |node.cells| + j;
      SetCell(i, node, j, Some(val));
      Inserted(g, g1, g2, len, i, j, val, key);
    }

    /** unrolled_remove_key(): false where the source panics, exactly on a key without a value. */
    method RemoveKey(key: nat) returns (ok: bool)
      requires Valid()
      modifies repr
      ensures Valid() && GridOk(old(View()), len) && GridOk(View(), len)
      ensures ok <==> At(old(View()), len, key).Some?
      ensures forall k :: At(View(), len, k) == if k == key then None else At(old(View()), len, k)
    {
      ghost var g := View();
      ViewOk(nodes, len);
      var node, idx := GetNode(key);
      if node == null || node.cells[idx] == None {
        return false;
      }
      ghost var i := key / len;
      SetCell(i, node, idx, None);
      Removed(g, len, i, idx, key);
      return true;
    }
  }

  /** Removing the key that an insertion returned restores the map. */
  method InsertAndRemove(list: UnrolledList, val: nat) returns (key: nat)
    requires list.Valid()
    modifies list`head, list`nodes, list`repr, list.repr
    ensures list.Valid() && SameBindings(old(list.View()), list.View(), list.len)
  {
    key := list.Insert(val);
    var ok := list.RemoveKey(key);
    assert ok;
  }

  /** Two lists stand for the same map. */
  ghost predicate SameBindings(g: Grid, g': Grid, len: nat) {
    GridOk(g, len) && GridOk(g', len) && forall k :: At(g', len, k) == At(g, len, k)
  }

  lemma BindingsTrans(g: Grid, g1: Grid, g2: Grid, len: nat)
    requires SameBindings(g, g1, len) && SameBindings(g1, g2, len)
    ensures SameBindings(g, g2, len)
  {
  }

  lemma RowsAppend(nodes: seq<Node>, node: Node)
    ensures Rows(nodes + [node]) == Rows(nodes) + [node.cells]
  {
    assert (nodes + [node])[..|nodes|] == nodes;
  }

  /** nrfree counts the empty cells, and the next node follows. */
  ghost predicate NodeOk(nodes: seq<Node>, len: nat, i: nat)
    requires i < |nodes|
    reads nodes
  {
    && nodes[i].num == i && |nodes[i].cells| == len && nodes[i].nrfree == Frees(nodes[i].cells)
    && nodes[i].next == (if i + 1 < |nodes| then nodes[i + 1] else null)
  }

  lemma NodeFacts(nodes: seq<Node>, len: nat, i: nat)
    requires i < |nodes| && NodeOk(nodes, len, i)
    ensures nodes[i].num == i && |nodes[i].cells| == len && nodes[i].nrfree == Frees(nodes[i].cells) &&
            Rows(nodes)[i] == nodes[i].cells
  {
  }

  lemma ViewOk(nodes: seq<Node>, len: nat)
    requires 0 < len && forall i :: 0 <= i < |nodes| ==> NodeOk(nodes, len, i)
    ensures GridOk(Rows(nodes), len)
  {
    forall i | 0 <= i < |nodes|
      ensures |Rows(nodes)[i]| == len
    {
      assert NodeOk(nodes, len, i);
    }
  }

  lemma FreesPositive(row: seq<Cell>, j: nat)
    requires j < |row|
    ensures row[j] == None ==> 0 < Frees(row)
  {
    FreesZero(row);
  }

  lemma GrowAll(g: Grid, len: nat)
    requires GridOk(g, len)
    ensures GridOk(g + [EmptyRow(len)], len) && forall k :: At(g + [EmptyRow(len)], len, k) == At(g, len, k)
  {
    forall k
      ensures At(g + [EmptyRow(len)], len, k) == At(g, len, k)
    {
      GrowAt(g, len, EmptyRow(len), k);
    }
  }

  /** Cell `j` of row `i` is empty and all cells before it are in use. */
  ghost predicate FirstFree(g: Grid, len: nat, i: nat, j: nat) {
    && i < |g| && j < |g[i]| && g[i][j] == None && RowUsed(g[i], j)
    && forall r :: 0 <= r < i ==> RowUsed(g[r], len)
  }

  lemma SlotInNew(g: Grid, len: nat, i: nat)
    requires GridOk(g, len) && i == |g| && forall r :: 0 <= r < i ==> RowUsed(g[r], len)
    ensures SameBindings(g, g + [EmptyRow(len)], len) && FirstFree(g + [EmptyRow(len)], len, i, 0)
  {
    GrowAll(g, len);
  }

  lemma SlotHere(g: Grid, len: nat, i: nat, j: nat)
    requires GridOk(g, len) && i < |g| && j < |g[i]| && g[i][j] == None && RowUsed(g[i], j)
    requires forall r :: 0 <= r < i ==> RowUsed(g[r], len)
    ensures SameBindings(g, g, len) && FirstFree(g, len, i, j)
  {
  }

  /** Storing a value in the first free cell binds the smallest unused key. */
  lemma Inserted(g: Grid, g1: Grid, g2: Grid, len: nat, i: nat, j: nat, val: nat, key: nat)
    requires SameBindings(g, g1, len) && SameBindings(g1, g2, len) && FirstFree(g2, len, i, j) && j < len &&
             key == i * len + j
    ensures GridOk(g, len) && GridOk(Put(g2, i, j, Some(val)), len)
    ensures At(g, len, key) == None && forall k :: 0 <= k < key ==> At(g, len, k).Some?
    ensures forall k :: At(Put(g2, i, j, Some(val)), len, k) == if k == key then Some(val) else At(g, len, k)
  {
    BindingsTrans(g, g1, g2, len);
    KeyOf(len, i, j, key);
    forall k: nat
      ensures k < key ==> At(g, len, k).Some?
      ensures At(Put(g2, i, j, Some(val)), len, k) == if k == key then Some(val) else At(g, len, k)
    {
      PutAt(g2, len, i, j, Some(val), k);
      if k < key {
        BelowUsed(g2, len, i, j, k);
      }
    }
  }

  lemma Removed(g: Grid, len: nat, i: nat, j: nat, key: nat)
    requires GridOk(g, len) && i < |g| && i == key / len && j == key % len
    ensures GridOk(Put(g, i, j, None), len)
    ensures forall k :: At(Put(g, i, j, None), len, k) == if k == key then None else At(g, len, k)
  {
    KeyOf(len, i, j, key);
    forall k: nat
      ensures At(Put(g, i, j, None), len, k) == if k == key then None else At(g, len, k)
    {
      PutAt(g, len, i, j, None, k);
    }
  }
}
