/** Who owns which block, and how many directory entries name an inode (ext2/ext2.c). */
module Ext2Links {
  import opened Arith
  import opened Ext2Vol
  import opened Ext2File
  import opened Ext2Tree
  import opened Ext2Dir
  import opened Ext2DirWrite
  import opened Ext2Core
  import opened Ext2DirOps

  /** Inode `n` is allocated. */
  predicate Used(v: Vol, n: nat) {
    v.IsInum(n) && |v.inodes| == v.geo.inodesCount && |v.Ino(n).blocks| == NR_BLOCKS && n !in v.freeInodes
  }

  predicate IsDir(v: Vol, n: nat) { Used(v, n) && v.Ino(n).kind == Directory }

  /** All the blocks of an allocated inode. */
  function TreeOf(v: Vol, n: nat): seq<nat>
    requires Used(v, n)
  {
    FileTree(v.disk, v.Ino(n).blocks, NR_BLOCKS)
  }

  /** A directory of whole blocks, tiled by records, without indirect blocks. */
  predicate DirOk(v: Vol, n: nat) {
    && DirFile(v, n) && 0 < v.geo.blockSize && Tiled(DirBytes(v, n), Lim(v))
    && forall i :: NR_DIRECT <= i < NR_BLOCKS ==> v.Ino(n).blocks[i] == 0
  }

  /** The live entries of directory `n` that name inode `i`. */
  function EntriesFor(v: Vol, n: nat, i: nat): nat {
    if IsDir(v, n) && DirOk(v, n) then Links(Parse(DirBytes(v, n), Lim(v), 0).ents)[i] else 0
  }

  /** The live entries of the directories among inodes 1 .. k that name inode `i`. */
  function CountBelow(v: Vol, i: nat, k: nat): nat {
    if k == 0 then 0 else CountBelow(v, i, k - 1) + EntriesFor(v, k, i)
  }

  /** The live entries of the whole volume that name inode `i`. */
  function Count(v: Vol, i: nat): nat { CountBelow(v, i, v.geo.inodesCount) }

  /** The root and the ordinary inodes. No directory entry names one of the other reserved inodes, whatever their link
      count is. */
  predicate Counted(v: Vol, i: nat) { i == ROOT || v.geo.firstInode <= i }

  /** links_count, or nothing for an inode that is free or not counted. */
  function LinksOf(v: Vol, i: nat): nat {
    if Used(v, i) && Counted(v, i) then v.Ino(i).links else 0
  }

  /** Every allocated inode owns its blocks, each once. */
  ghost predicate Owning(v: Vol) {
    forall n :: Used(v, n) ==> Freeable(v, TreeOf(v, n))
  }

  /** No two inodes share a block. */
  ghost predicate Apart(v: Vol) {
    forall m, n :: Used(v, m) && Used(v, n) && m != n ==> Elements(TreeOf(v, m)) !! Elements(TreeOf(v, n))
  }

  /** No block leaks: what is in use and holds no metadata belongs to some inode. */
  ghost predicate Covered(v: Vol) {
    forall b :: v.IsData(b) ==> Owned(v, b)
  }

  ghost predicate Owned(v: Vol, b: nat) {
    exists n :: Used(v, n) && b in TreeOf(v, n)
  }

  ghost predicate DirsOk(v: Vol) {
    forall n :: IsDir(v, n) ==> DirOk(v, n)
  }

  /** Links are counted exactly, but for inode `but`, which has `extra` entries more than links. */
  ghost predicate Linked(v: Vol, but: nat, extra: int) {
    forall i :: v.IsInum(i) ==> Count(v, i) == LinksOf(v, i) + if i == but then extra else 0
  }

  /** Every allocated inode is linked, but for the reserved ones and `but`. */
  ghost predicate Held(v: Vol, but: nat) {
    forall n :: Used(v, n) && v.geo.firstInode <= n && n != but ==> 0 < v.Ino(n).links
  }

  /** A volume in the middle of an operation on inode `but`. */
  ghost predicate FsBut(v: Vol, but: nat, extra: int) {
    && Sound(v) && GoodLimits(Lim(v)) && Owning(v) && Apart(v) && Covered(v) && DirsOk(v)
    && Linked(v, but, extra) && Held(v, but)
  }

  /** What every file operation keeps. */
  ghost predicate FsOk(v: Vol) { FsBut(v, 0, 0) }

  /** If only directory `x` may list other entries, the counts differ by what it lists. */
  lemma {:induction false} CountChange(v: Vol, w: Vol, i: nat, x: nat, k: nat)
    requires forall m :: 1 <= m <= k && m != x ==> EntriesFor(w, m, i) == EntriesFor(v, m, i)
    ensures CountBelow(w, i, k) == CountBelow(v, i, k) +
                                   if 1 <= x <= k then EntriesFor(w, x, i) - EntriesFor(v, x, i) else 0
  {
    if k > 0 {
      CountChange(v, w, i, x, k - 1);
    }
  }

  /** The trees below equal blocks are equal. */
  lemma {:induction false} TreeFrame(disk: seq<Block>, disk': seq<Block>, b: nat, level: nat)
    requires |disk'| == |disk| && forall c :: c in Tree(disk, b, level) && c < |disk| ==> disk'[c] == disk[c]
    ensures Tree(disk', b, level) == Tree(disk, b, level)
    decreases level, 0
  {
    if b != 0 && level > 0 && b < |disk| {
      assert b in Tree(disk, b, level);
      ForestFrame(disk, disk', disk[b], |disk[b]| / 4, level - 1);
    }
  }

  lemma {:induction false} ForestFrame(disk: seq<Block>, disk': seq<Block>, block: Block, n: nat, level: nat)
    requires 4 * n <= |block| && |disk'| == |disk|
    requires forall c :: c in Forest(disk, block, n, level) && c < |disk| ==> disk'[c] == disk[c]
    ensures Forest(disk', block, n, level) == Forest(disk, block, n, level)
    decreases level, 1 + n
  {
    if n > 0 {
      ForestFrame(disk, disk', block, n - 1, level);
      TreeFrame(disk, disk', Entry(block, n - 1), level);
    }
  }

  lemma {:induction false} FileTreeFrame(disk: seq<Block>, disk': seq<Block>, blocks: seq<nat>, n: nat)
    requires n <= |blocks| && |disk'| == |disk|
    requires forall c :: c in FileTree(disk, blocks, n) && c < |disk| ==> disk'[c] == disk[c]
    ensures FileTree(disk', blocks, n) == FileTree(disk, blocks, n)
  {
    if n > 0 {
      FileTreeFrame(disk, disk', blocks, n - 1);
      TreeFrame(disk, disk', blocks[n - 1], Level(n - 1));
    }
  }

  /** Direct pointers are in the tree of their file. */
  lemma {:induction false} DirectInTree(disk: seq<Block>, blocks: seq<nat>, i: nat, n: nat)
    requires i < n <= |blocks| && i < NR_DIRECT && blocks[i] != 0
    ensures blocks[i] in FileTree(disk, blocks, n)
  {
    if i < n - 1 {
      DirectInTree(disk, blocks, i, n - 1);
    }
  }

  /** The tree of a file without indirect blocks. */
  lemma {:induction false} DirectTree(v: Vol, blocks: seq<nat>, n: nat)
    requires DirectOk(v, blocks) && n <= NR_BLOCKS && forall i :: NR_DIRECT <= i < NR_BLOCKS ==> blocks[i] == 0
    ensures Freeable(v, FileTree(v.disk, blocks, n))
    ensures forall b :: b in FileTree(v.disk, blocks, n) ==> b != 0 && b in blocks[..Min(n, NR_DIRECT)]
  {
    if n > 0 {
      DirectTree(v, blocks, n - 1);
      var t, b := FileTree(v.disk, blocks, n - 1), blocks[n - 1];
      assert forall c :: c in blocks[..Min(n - 1, NR_DIRECT)] ==> c in blocks[..Min(n, NR_DIRECT)];
      if b == 0 {
        assert FileTree(v.disk, blocks, n) == t;
      } else {
        assert FileTree(v.disk, blocks, n) == t + [b];
        assert b == blocks[..n][n - 1];
        assert b !in t;
      }
    }
  }

  /** A directory owns what its direct pointers map. */
  lemma DirTree(v: Vol, n: nat)
    requires Used(v, n) && DirOk(v, n)
    ensures Freeable(v, TreeOf(v, n)) && Elements(TreeOf(v, n)) == Mapped(v.Ino(n).blocks)
  {
    var p := v.Ino(n).blocks;
    DirectTree(v, p, NR_BLOCKS);
    forall b | b in Mapped(p)
      ensures b in TreeOf(v, n)
    {
      var i :| 0 <= i < NR_DIRECT && p[i] != 0 && p[i] == b;
      DirectInTree(v.disk, p, i, NR_BLOCKS);
    }
  }

  /** Inode `m` is what it was: the same image, blocks and directory. */
  ghost predicate Kept(v: Vol, w: Vol, m: nat) {
    && Used(v, m) == Used(w, m)
    && (Used(v, m) ==> w.Ino(m) == v.Ino(m) && TreeOf(w, m) == TreeOf(v, m) && Freeable(w, TreeOf(w, m)))
    && (IsDir(v, m) ==> DirOk(v, m) && DirOk(w, m) && DirBytes(w, m) == DirBytes(v, m))
  }

  /** Only inode `x` may have changed. */
  ghost predicate KeptOthers(v: Vol, w: Vol, x: nat) {
    w.geo == v.geo && forall m :: m != x ==> Kept(v, w, m)
  }

  lemma KeptEntries(v: Vol, w: Vol, m: nat, i: nat)
    requires w.geo == v.geo && Kept(v, w, m)
    ensures EntriesFor(w, m, i) == EntriesFor(v, m, i)
  {
  }

  /** The counts of all inodes after inode `x` changed. */
  lemma KeptCount(v: Vol, w: Vol, x: nat, i: nat)
    requires KeptOthers(v, w, x) && v.IsInum(x)
    ensures Count(w, i) == Count(v, i) + EntriesFor(w, x, i) - EntriesFor(v, x, i)
  {
    forall m | 1 <= m <= v.geo.inodesCount && m != x
      ensures EntriesFor(w, m, i) == EntriesFor(v, m, i)
    {
      KeptEntries(v, w, m, i);
    }
    CountChange(v, w, i, x, v.geo.inodesCount);
  }

  /** Block `b` belongs to `x` now, or did not belong to it before. */
  ghost predicate MovedTo(v: Vol, w: Vol, x: nat, b: nat) {
    (Used(w, x) && b in TreeOf(w, x)) || (v.IsData(b) && !(Used(v, x) && b in TreeOf(v, x)))
  }

  lemma KeptOwned(v: Vol, w: Vol, x: nat, b: nat)
    requires Covered(v) && KeptOthers(v, w, x) && MovedTo(v, w, x, b)
    ensures Owned(w, b)
  {
    if !(Used(w, x) && b in TreeOf(w, x)) {
      assert Owned(v, b);
      var n :| Used(v, n) && b in TreeOf(v, n);
      assert Kept(v, w, n);
    }
  }

  /** The invariant survives a change of inode `x` that keeps the others, if `x` itself is in order. */
  lemma KeptFs(v: Vol, w: Vol, x: nat, but: nat, extra: int, but': nat, extra': int)
    requires FsBut(v, but, extra) && KeptOthers(v, w, x) && v.IsInum(x) && Sound(w)
    requires Used(w, x) ==> Freeable(w, TreeOf(w, x))
    requires Used(w, x) ==> forall m :: Used(v, m) && m != x ==> Elements(TreeOf(w, x)) !! Elements(TreeOf(v, m))
    requires IsDir(w, x) ==> DirOk(w, x)
    requires forall b :: w.IsData(b) ==> MovedTo(v, w, x, b)
    requires forall i :: v.IsInum(i) ==>
                           EntriesFor(w, x, i) - EntriesFor(v, x, i) ==
                           (if i == x then LinksOf(w, x) - LinksOf(v, x) else 0)
                           + (if i == but' then extra' else 0) - (if i == but then extra else 0)
    requires forall n :: Used(w, n) && v.geo.firstInode <= n && n != but' && (n == x || n == but) ==> 0 < w.Ino(n).links
    ensures FsBut(w, but', extra')
  {
    hide DirOk, Tiled, Freeable, Sound, Elements;
    forall b | w.IsData(b)
      ensures Owned(w, b)
    {
      KeptOwned(v, w, x, b);
    }
    forall m, n | Used(w, m) && Used(w, n) && m != n
      ensures Elements(TreeOf(w, m)) !! Elements(TreeOf(w, n))
    {
      assert m != x ==> Kept(v, w, m);
      assert n != x ==> Kept(v, w, n);
    }
    forall n | Used(w, n)
      ensures Freeable(w, TreeOf(w, n))
      ensures IsDir(w, n) ==> DirOk(w, n)
    {
      assert n != x ==> Kept(v, w, n);
    }
    forall i | v.IsInum(i)
      ensures Count(w, i) == LinksOf(w, i) + if i == but' then extra' else 0
    {
      KeptCount(v, w, x, i);
      assert i != x ==> Kept(v, w, i);
      assert Count(v, i) == LinksOf(v, i) + if i == but then extra else 0;
    }
    forall n | Used(w, n) && v.geo.firstInode <= n && n != but'
      ensures 0 < w.Ino(n).links
    {
      assert n != x ==> Kept(v, w, n);
    }
  }
}
