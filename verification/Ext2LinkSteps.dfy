/** What the steps of file_new(), ext2_new_dir_entry() and file_delete() do to owners and link counts. */
module Ext2LinkSteps {
  import opened Bitmap
  import opened Ext2Vol
  import opened Ext2File
  import opened Ext2Tree
  import opened Ext2Dir
  import opened Ext2DirWrite
  import opened Ext2Core
  import opened Ext2DirOps
  import opened Ext2Links
  import opened Ext2NewEntry

  /** A directory whose image and blocks are unchanged. */
  lemma SameDir(v: Vol, w: Vol, m: nat)
    requires DirOk(v, m) && Used(v, m) && Used(w, m) && w.Shape() && w.geo == v.geo && w.disk == v.disk
    requires w.Ino(m).kind == v.Ino(m).kind && w.Ino(m).size == v.Ino(m).size && w.Ino(m).blocks == v.Ino(m).blocks
    requires Freeable(w, TreeOf(w, m))
    ensures DirOk(w, m) && DirBytes(w, m) == DirBytes(v, m)
  {
    var p := w.Ino(m).blocks;
    forall i | 0 <= i < NR_DIRECT && p[i] != 0
      ensures w.IsData(p[i])
    {
      DirectInTree(w.disk, p, i, NR_BLOCKS);
    }
  }

  /** The blocks of other inodes stay theirs when only blocks of `x` are freed. */
  lemma SameTree(v: Vol, w: Vol, x: nat, m: nat)
    requires Owning(v) && Apart(v) && Used(v, m) && Used(w, m) && m != x && w.geo == v.geo && w.disk == v.disk
    requires w.Ino(m).blocks == v.Ino(m).blocks
    requires forall b :: b in w.freeBlocks && b !in v.freeBlocks ==> Used(v, x) && b in TreeOf(v, x)
    ensures TreeOf(w, m) == TreeOf(v, m) && Freeable(w, TreeOf(w, m))
  {
    var t := TreeOf(v, m);
    assert Freeable(v, t);
    forall b | b in t
      ensures w.IsData(b)
    {
      assert v.IsData(b) && b in Elements(t);
      if Used(v, x) {
        assert b !in Elements(TreeOf(v, x));
      }
    }
  }

  /** A step that leaves the data blocks alone, changes the image of inode `x` only and frees blocks of `x` only. */
  ghost predicate ImageStep(v: Vol, w: Vol, x: nat) {
    && w.Shape() && v.Shape() && w.geo == v.geo && w.disk == v.disk && v.IsInum(x)
    && (forall m :: m != x && v.IsInum(m) ==> w.Ino(m) == v.Ino(m))
    && (forall m :: m != x ==> (m in w.freeInodes) == (m in v.freeInodes))
    && v.freeBlocks <= w.freeBlocks
    && (forall b :: b in w.freeBlocks && b !in v.freeBlocks ==> Used(v, x) && b in TreeOf(v, x))
  }

  lemma ImageStepKeeps(v: Vol, w: Vol, x: nat)
    requires Owning(v) && Apart(v) && DirsOk(v) && ImageStep(v, w, x)
    ensures KeptOthers(v, w, x)
  {
    forall m | m != x
      ensures Kept(v, w, m)
    {
      ImageStepKept(v, w, x, m);
    }
  }

  lemma ImageStepKept(v: Vol, w: Vol, x: nat, m: nat)
    requires Owning(v) && Apart(v) && DirsOk(v) && ImageStep(v, w, x) && m != x
    ensures Kept(v, w, m)
  {
    UsedSame(v, w, x, m);
    if Used(v, m) {
      SameTree(v, w, x, m);
      if IsDir(v, m) {
        SameDir(v, w, m);
      }
    }
  }

  lemma UsedSame(v: Vol, w: Vol, x: nat, m: nat)
    requires ImageStep(v, w, x) && m != x
    ensures Used(w, m) == Used(v, m) && (Used(v, m) ==> w.Ino(m) == v.Ino(m))
  {
  }

  /** Writing into directory `n` keeps every other inode. */
  lemma TouchedKept(v: Vol, w: Vol, n: nat, m: nat)
    requires Owning(v) && Apart(v) && DirsOk(v) && Touched(v, w, n) && IsDir(v, n) && m != n
    ensures Kept(v, w, m)
  {
    TouchedUsed(v, w, n, m);
    if Used(v, m) {
      TouchedTree(v, w, n, m);
      if IsDir(v, m) {
        TouchedDir(v, w, n, m);
      }
    }
  }

  lemma TouchedUsed(v: Vol, w: Vol, n: nat, m: nat)
    requires Touched(v, w, n) && m != n
    ensures Used(w, m) == Used(v, m) && (Used(v, m) ==> w.Ino(m) == v.Ino(m))
  {
  }

  lemma TouchedTree(v: Vol, w: Vol, n: nat, m: nat)
    requires Owning(v) && Apart(v) && DirsOk(v) && Touched(v, w, n) && IsDir(v, n) && m != n && Used(v, m) && Used(w, m)
    requires w.Ino(m) == v.Ino(m)
    ensures TreeOf(w, m) == TreeOf(v, m) && Freeable(w, TreeOf(w, m))
  {
    var t := TreeOf(v, m);
    assert Freeable(v, t);
    DirTree(v, n);
    forall b | b in t
      ensures b !in Mapped(w.Ino(n).blocks) && w.IsData(b)
    {
      assert v.IsData(b) && b in Elements(t);
    }
    FileTreeFrame(v.disk, w.disk, v.Ino(m).blocks, NR_BLOCKS);
  }

  lemma TouchedDir(v: Vol, w: Vol, n: nat, m: nat)
    requires Apart(v) && DirsOk(v) && Touched(v, w, n) && IsDir(v, n) && m != n && IsDir(v, m) && IsDir(w, m)
    ensures DirOk(v, m) && DirOk(w, m) && DirBytes(w, m) == DirBytes(v, m)
  {
    DirTree(v, n);
    DirTree(v, m);
    OtherFile(v, w, n, m);
  }

  lemma TouchedKeeps(v: Vol, w: Vol, n: nat)
    requires Owning(v) && Apart(v) && DirsOk(v) && Touched(v, w, n) && IsDir(v, n)
    ensures KeptOthers(v, w, n)
  {
    forall m | m != n
      ensures Kept(v, w, m)
    {
      TouchedKept(v, w, n, m);
    }
  }

  lemma TouchedSound(v: Vol, w: Vol, n: nat)
    requires Sound(v) && Touched(v, w, n)
    ensures Sound(w)
  {
    DirsFrame(v, w);
  }

  /** A write into directory `n` that changes its entries by `delta` for inode `ino`. */
  lemma DirStep(v: Vol, w: Vol, n: nat, ino: nat, extra: int, delta: int)
    requires FsBut(v, ino, extra) && IsDir(v, n) && Touched(v, w, n) && DirFile(w, n) && Tiled(DirBytes(w, n), Lim(v))
    requires forall i :: EntriesFor(w, n, i) == EntriesFor(v, n, i) + if i == ino then delta else 0
    ensures FsBut(w, ino, extra + delta)
  {
    TouchedKeeps(v, w, n);
    TouchedSound(v, w, n);
    TouchedSelf(v, w, n);
    TouchedApart(v, w, n);
    TouchedMoved(v, w, n);
    KeptFs(v, w, n, ino, extra, ino, extra + delta);
  }

  /** Blocks that a directory takes are its own, and it gives none up. */
  lemma TouchedMoved(v: Vol, w: Vol, n: nat)
    requires Touched(v, w, n) && Used(v, n) && Used(w, n)
    requires Elements(TreeOf(w, n)) == Mapped(w.Ino(n).blocks) && Elements(TreeOf(v, n)) == Mapped(v.Ino(n).blocks)
    ensures forall b :: w.IsData(b) ==> MovedTo(v, w, n, b)
  {
    forall b | w.IsData(b)
      ensures MovedTo(v, w, n, b)
    {
      assert b in TreeOf(v, n) <==> b in Elements(TreeOf(v, n));
      assert b in TreeOf(w, n) <==> b in Elements(TreeOf(w, n));
    }
  }

  lemma TouchedSelf(v: Vol, w: Vol, n: nat)
    requires Touched(v, w, n) && IsDir(v, n) && DirOk(v, n) && DirFile(w, n) && Tiled(DirBytes(w, n), Lim(v))
    ensures IsDir(w, n) && DirOk(w, n) && Freeable(w, TreeOf(w, n)) && LinksOf(w, n) == LinksOf(v, n)
    ensures Elements(TreeOf(w, n)) == Mapped(w.Ino(n).blocks) && Elements(TreeOf(v, n)) == Mapped(v.Ino(n).blocks)
  {
    var p, q := v.Ino(n).blocks, w.Ino(n).blocks;
    forall i | NR_DIRECT <= i < NR_BLOCKS
      ensures q[i] == 0
    {
      assert q[i] == q[NR_DIRECT..][i - NR_DIRECT] == p[NR_DIRECT..][i - NR_DIRECT] == p[i];
    }
    DirTree(w, n);
    DirTree(v, n);
  }

  lemma TouchedApart(v: Vol, w: Vol, n: nat)
    requires Owning(v) && Apart(v) && Touched(v, w, n) && Used(v, n) && Used(w, n)
    requires Elements(TreeOf(w, n)) == Mapped(w.Ino(n).blocks) && Elements(TreeOf(v, n)) == Mapped(v.Ino(n).blocks)
    ensures forall m :: Used(v, m) && m != n ==> Elements(TreeOf(w, n)) !! Elements(TreeOf(v, m))
  {
    forall m | Used(v, m) && m != n
      ensures Elements(TreeOf(w, n)) !! Elements(TreeOf(v, m))
    {
      assert Freeable(v, TreeOf(v, m));
      assert forall b :: b in Elements(TreeOf(v, m)) ==> v.IsData(b);
    }
  }

  /** Adding a name: one entry more for its inode. */
  lemma AddedStep(v: Vol, w: Vol, n: nat, p: nat, ino: nat, name: seq<byte>, extra: int)
    requires FsBut(v, ino, extra) && IsDir(v, n) && Touched(v, w, n) && DirFile(w, n)
    requires DirOk(v, n) && Added(DirBytes(v, n), DirBytes(w, n), Lim(v), p, ino, name)
    ensures FsBut(w, ino, extra + 1)
  {
    TouchedSelf(v, w, n);
    assert forall i :: EntriesFor(w, n, i) == EntriesFor(v, n, i) + if i == ino then 1 else 0;
    DirStep(v, w, n, ino, extra, 1);
  }

  /** Erasing a record: one entry less. */
  lemma RemovedStep(v: Vol, w: Vol, n: nat, at: nat, ino: nat)
    requires FsBut(v, ino, 0) && IsDir(v, n) && Touched(v, w, n) && DirFile(w, n)
    requires DirOk(v, n) && Removed(DirBytes(v, n), DirBytes(w, n), Lim(v), at) && ino == EIno(DirBytes(v, n), at)
    ensures FsBut(w, ino, -1)
  {
    RemovedLookup(DirBytes(v, n), DirBytes(w, n), Lim(v), at, []);
    TouchedSelf(v, w, n);
    assert forall i :: EntriesFor(w, n, i) == EntriesFor(v, n, i) + if i == ino then -1 else 0;
    DirStep(v, w, n, ino, 0, -1);
  }

  /** Rewriting a directory without changing its records. */
  lemma SameStep(v: Vol, w: Vol, n: nat, ino: nat, extra: int)
    requires FsBut(v, ino, extra) && IsDir(v, n) && Touched(v, w, n) && DirFile(w, n) && DirOk(v, n)
    requires |DirBytes(w, n)| == |DirBytes(v, n)| &&
             Parse(DirBytes(w, n), Lim(v), 0) == Parse(DirBytes(v, n), Lim(v), 0)
    ensures FsBut(w, ino, extra)
  {
    TouchedSelf(v, w, n);
    DirStep(v, w, n, ino, extra, 0);
  }

  /** The volume with another link count for inode `x`. */
  function WithLinks(v: Vol, x: nat, k: nat): Vol
    requires v.IsInum(x) && |v.inodes| == v.geo.inodesCount
  {
    v.(inodes := v.inodes[x - 1 := v.Ino(x).(links := k)])
  }

  lemma WithLinksSelf(v: Vol, x: nat, k: nat, w: Vol)
    requires Sound(v) && DirsOk(v) && Owning(v) && Used(v, x) && w == WithLinks(v, x, k)
    ensures ImageStep(v, w, x) && Sound(w) && Used(w, x) && TreeOf(w, x) == TreeOf(v, x) && Freeable(w, TreeOf(w, x))
    ensures IsDir(v, x) == IsDir(w, x) &&
            (IsDir(w, x) ==> DirOk(v, x) && DirOk(w, x) && DirBytes(w, x) == DirBytes(v, x))
    ensures forall i :: EntriesFor(w, x, i) == EntriesFor(v, x, i)
  {
    assert w.Shape();
    DirsFrame(v, w);
    assert Freeable(v, TreeOf(v, x));
    if IsDir(v, x) {
      SameDir(v, w, x);
    }
  }

  /** Changing the link count of the inode in question shifts its surplus of entries. */
  lemma WithLinksStep(v: Vol, x: nat, k: nat, extra: int, w: Vol)
    requires FsBut(v, x, extra) && Used(v, x) && Counted(v, x) && w == WithLinks(v, x, k)
    ensures FsBut(w, x, extra + v.Ino(x).links - k) && Used(w, x)
  {
    WithLinksSelf(v, x, k, w);
    ImageStepKeeps(v, w, x);
    assert forall m :: Used(v, m) && m != x ==> Elements(TreeOf(w, x)) !! Elements(TreeOf(v, m));
    KeptFs(v, w, x, x, extra, x, extra + v.Ino(x).links - k);
  }

  /** The exception may be dropped when the inode has a link, and made for any inode. */
  lemma Settle(v: Vol, x: nat)
    requires FsBut(v, x, 0) && (Used(v, x) && v.geo.firstInode <= x ==> 0 < v.Ino(x).links)
    ensures FsOk(v)
  {
  }

  lemma Unsettle(v: Vol, x: nat)
    requires FsOk(v)
    ensures FsBut(v, x, 0)
  {
  }

  lemma NoTree(disk: seq<Block>, n: nat)
    requires n <= NR_BLOCKS
    ensures FileTree(disk, NO_BLOCKS, n) == []
  {
    if n > 0 {
      NoTree(disk, n - 1);
    }
  }

  /** inode_alloc() of a regular file: a new inode without entries, links or blocks. */
  lemma AllocStep(v: Vol, x: nat, w: Vol)
    requires FsOk(v) && x in v.freeInodes && HasInode(v, x) && w == SwitchInode(v, x, true, FreshInode(Regular)) &&
             Sound(w)
    ensures FsBut(w, x, 0) && Used(w, x) && w.Ino(x) == FreshInode(Regular)
  {
    assert ImageStep(v, w, x);
    ImageStepKeeps(v, w, x);
    NoTree(w.disk, NR_BLOCKS);
    assert TreeOf(w, x) == [] && Elements([]) == {};
    Unsettle(v, x);
    KeptFs(v, w, x, x, 0, x, 0);
  }

  /** Releasing an inode without entries and links, and all its blocks. */
  lemma ReleaseStep(v: Vol, x: nat, w: Vol)
    requires FsBut(v, x, 0) && Used(v, x) && v.Ino(x).kind == Regular && v.Ino(x).links == 0
    requires ImageStep(v, w, x) && x in w.freeInodes && Sound(w) && forall b :: b in TreeOf(v, x) ==> b in w.freeBlocks
    ensures FsOk(w)
  {
    ImageStepKeeps(v, w, x);
    KeptFs(v, w, x, x, 0, 0, 0);
  }

  /** What a live record names is allocated and has a link to give up. */
  lemma LiveUsed(v: Vol, n: nat, ino: nat)
    requires FsOk(v) && IsDir(v, n) && v.IsInum(ino) && 0 < EntriesFor(v, n, ino)
    ensures Used(v, ino) && Counted(v, ino) && 0 < v.Ino(ino).links
  {
    CountAtLeast(v, ino, n, v.geo.inodesCount);
    assert Count(v, ino) == LinksOf(v, ino);
  }

  lemma {:induction false} CountAtLeast(v: Vol, i: nat, n: nat, k: nat)
    requires 1 <= n <= k
    ensures EntriesFor(v, n, i) <= CountBelow(v, i, k)
  {
    if n < k {
      CountAtLeast(v, i, n, k - 1);
    }
  }
}
