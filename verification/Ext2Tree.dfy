/** The block tree of a file: direct, indirect, double and triple indirect blocks (ext2/ext2.c). */
module Ext2Tree {
  import opened Bitmap
  import opened Ext2Vol

  /** A 32-bit little-endian number. */
  function Le32(s: seq<byte>, at: nat): nat
    requires at + 4 <= |s|
  {
    s[at] as int + 256 * (s[at + 1] as int) + 65536 * (s[at + 2] as int) + 16777216 * (s[at + 3] as int)
  }

  /** Entry `i` of an indirect block. */
  function Entry(block: Block, i: nat): nat
    requires 4 * i + 4 <= |block|
  {
    Le32(block, 4 * i)
  }

  /** The blocks below pointer `b` of the given level, in the order in which they are freed. */
  function Tree(disk: seq<Block>, b: nat, level: nat): seq<nat>
    decreases level, 0
  {
    if b == 0 then []
    else if level == 0 || |disk| <= b then [b]
    else Forest(disk, disk[b], |disk[b]| / 4, level - 1) + [b]
  }

  /** The trees below the first `n` entries of an indirect block. */
  function Forest(disk: seq<Block>, block: Block, n: nat, level: nat): seq<nat>
    requires 4 * n <= |block|
    decreases level, 1 + n
  {
    if n == 0 then [] else Forest(disk, block, n - 1, level) + Tree(disk, Entry(block, n - 1), level)
  }

  /** Levels of the fifteen pointers of an inode. */
  function Level(i: nat): nat {
    if i < NR_DIRECT then 0 else i - NR_DIRECT + 1
  }

  /** The blocks below the first `n` pointers of an inode. */
  function FileTree(disk: seq<Block>, blocks: seq<nat>, n: nat): seq<nat>
    requires n <= |blocks|
  {
    if n == 0 then [] else FileTree(disk, blocks, n - 1) + Tree(disk, blocks[n - 1], Level(n - 1))
  }

  lemma {:induction false} ForestPrefix(disk: seq<Block>, block: Block, i: nat, n: nat, level: nat)
    requires i <= n && 4 * n <= |block|
    ensures Forest(disk, block, i, level) <= Forest(disk, block, n, level)
  {
    if i < n {
      ForestPrefix(disk, block, i, n - 1, level);
    }
  }

  lemma {:induction false} FileTreePrefix(disk: seq<Block>, blocks: seq<nat>, i: nat, n: nat)
    requires i <= n <= |blocks|
    ensures FileTree(disk, blocks, i) <= FileTree(disk, blocks, n)
  {
    if i < n {
      FileTreePrefix(disk, blocks, i, n - 1);
    }
  }

  predicate Distinct(s: seq<nat>) {
    forall i, j :: 0 <= i < j < |s| ==> s[i] != s[j]
  }

  /** Each block is in use, holds no metadata and occurs once. */
  predicate Freeable(v: Vol, s: seq<nat>) {
    Distinct(s) && forall b :: b in s ==> v.IsData(b)
  }

  function Elements(s: seq<nat>): set<nat> { set b | b in s }

  /** The volume after all the blocks of `s` were freed. */
  function GiveAll(v: Vol, s: seq<nat>): Vol {
    v.(freeBlocks := v.freeBlocks + Elements(s))
  }

  lemma FreeableSplit(v: Vol, s: seq<nat>, t: seq<nat>)
    requires Freeable(v, s + t)
    ensures Freeable(v, s) && Freeable(GiveAll(v, s), t)
    ensures GiveAll(GiveAll(v, s), t) == GiveAll(v, s + t)
  {
    var st := s + t;
    assert forall i :: 0 <= i < |s| ==> st[i] == s[i];
    assert forall i :: 0 <= i < |t| ==> st[|s| + i] == t[i];
    assert Elements(s) + Elements(t) == Elements(st);
    forall b | b in t
      ensures b !in s && v.IsData(b)
    {
      var j :| 0 <= j < |t| && t[j] == b;
      assert st[|s| + j] == b && b in st;
    }
    assert forall b :: b in s ==> b in st;
  }

  lemma FreeablePrefix(v: Vol, s: seq<nat>, t: seq<nat>)
    requires Freeable(v, t) && s <= t
    ensures Freeable(v, s)
  {
    assert t == s + t[|s|..];
    FreeableSplit(v, s, t[|s|..]);
  }

  lemma {:induction false} DistinctCard(s: seq<nat>)
    requires Distinct(s)
    ensures |Elements(s)| == |s|
  {
    if s != [] {
      var l := |s| - 1;
      DistinctCard(s[..l]);
      assert s == s[..l] + [s[l]];
      assert Elements(s) == Elements(s[..l]) + {s[l]};
    }
  }

  /** The free blocks grow by exactly the number of blocks freed. */
  lemma GiveAllCounts(v: Vol, s: seq<nat>)
    requires Freeable(v, s)
    ensures |GiveAll(v, s).freeBlocks| == |v.freeBlocks| + |s|
  {
    DistinctCard(s);
    assert v.freeBlocks !! Elements(s);
  }

  lemma GiveAllShape(v: Vol, s: seq<nat>)
    requires v.Shape() && Freeable(v, s)
    ensures GiveAll(v, s).Shape()
  {
  }

  lemma GiveFew(v: Vol, b: nat)
    ensures GiveAll(v, []) == v
    ensures GiveAll(v, [b]) == v.(freeBlocks := v.freeBlocks + {b})
  {
    assert Elements([b]) == {b} && Elements([]) == {};
  }

  /** One entry of an indirect block: its tree may be freed next, and what was freed is the longer forest. */
  lemma ForestStep(v: Vol, b: nat, level: nat, i: nat)
    requires 0 < b < |v.disk| && 0 < level && i < |v.disk[b]| / 4 && Freeable(v, Tree(v.disk, b, level))
    ensures var done := GiveAll(v, Forest(v.disk, v.disk[b], i, level - 1));
            var next := Tree(v.disk, Entry(v.disk[b], i), level - 1);
            Freeable(done, next) && GiveAll(done, next) == GiveAll(v, Forest(v.disk, v.disk[b], i + 1, level - 1))
  {
    var buf := v.disk[b];
    var done, next := Forest(v.disk, buf, i, level - 1), Tree(v.disk, Entry(buf, i), level - 1);
    FreeableSplit(v, Forest(v.disk, buf, |buf| / 4, level - 1), [b]);
    ForestPrefix(v.disk, buf, i + 1, |buf| / 4, level - 1);
    FreeablePrefix(v, done + next, Forest(v.disk, buf, |buf| / 4, level - 1));
    FreeableSplit(v, done, next);
  }

  /** After the entries, the indirect block itself. */
  lemma ForestEnd(v: Vol, b: nat, level: nat)
    requires 0 < b < |v.disk| && 0 < level && Freeable(v, Tree(v.disk, b, level))
    ensures var done := GiveAll(v, Forest(v.disk, v.disk[b], |v.disk[b]| / 4, level - 1));
            done.IsData(b) && done.(freeBlocks := done.freeBlocks + {b}) == GiveAll(v, Tree(v.disk, b, level))
  {
    var all := Forest(v.disk, v.disk[b], |v.disk[b]| / 4, level - 1);
    FreeableSplit(v, all, [b]);
    GiveFew(GiveAll(v, all), b);
    assert b in [b];
  }

  /** One pointer of an inode, as ForestStep. */
  lemma FileTreeStep(v: Vol, blocks: seq<nat>, i: nat)
    requires i < |blocks| && Freeable(v, FileTree(v.disk, blocks, |blocks|))
    ensures var done := GiveAll(v, FileTree(v.disk, blocks, i));
            var next := Tree(v.disk, blocks[i], Level(i));
            Freeable(done, next) && GiveAll(done, next) == GiveAll(v, FileTree(v.disk, blocks, i + 1))
  {
    var done, next := FileTree(v.disk, blocks, i), Tree(v.disk, blocks[i], Level(i));
    FileTreePrefix(v.disk, blocks, i + 1, |blocks|);
    FreeablePrefix(v, done + next, FileTree(v.disk, blocks, |blocks|));
    FreeableSplit(v, done, next);
  }
}
