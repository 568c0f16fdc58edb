/** Runs of file creation, hard links and deletion (ext2/ext2.c). */
module Ext2Runs {
  import opened Bitmap
  import opened Ext2Vol
  import opened Ext2File
  import opened Ext2Tree
  import opened Ext2Dir
  import opened Ext2DirWrite
  import opened Ext2Core
  import opened Ext2DirOps
  import opened Ext2NewEntry
  import opened Ext2Links
  import opened Ext2Names
  import opened Ext2Ops

  /** In a volume in order an inode's link count is the number of entries that name it; an ordinary inode is free
      exactly when no entry names it; its blocks are in use, its own and nobody else's. */
  lemma LinksExact(v: Vol, i: nat)
    requires FsOk(v) && v.IsInum(i)
    ensures Used(v, i) && Counted(v, i) ==> v.Ino(i).links == Count(v, i)
    ensures !Counted(v, i) ==> Count(v, i) == 0
    ensures v.geo.firstInode <= i ==> (i in v.freeInodes <==> Count(v, i) == 0)
    ensures Used(v, i) ==> forall b :: b in TreeOf(v, i) ==> b !in v.freeBlocks
    ensures forall j :: Used(v, i) && Used(v, j) && i != j ==> Elements(TreeOf(v, i)) !! Elements(TreeOf(v, j))
  {
    assert Count(v, i) == LinksOf(v, i);
    assert Sound(v) && v.Shape();
    if Used(v, i) {
      assert Freeable(v, TreeOf(v, i));
    }
  }

  /** There is at most one last record. */
  lemma {:induction false} LastUnique(d: seq<byte>, l: Limits, o: nat, a: nat, b: nat)
    requires 0 < l.blockSize && Reach(d, l, o, a) && ValidAt(d, l, a) && a + ERec(d, a) == |d|
    requires Reach(d, l, o, b) && ValidAt(d, l, b) && b + ERec(d, b) == |d|
    ensures a == b
    decreases |d| - o
  {
    if o < a && o < b {
      LastUnique(d, l, o + ERec(d, o), a, b);
    }
  }

  /** A block that holds no metadata is in use exactly when it belongs to an inode. */
  lemma BlocksExact(v: Vol, b: nat)
    requires FsOk(v) && v.IsBlock(b) && b !in v.geo.meta
    ensures b !in v.freeBlocks <==> Owned(v, b)
  {
    if Owned(v, b) {
      var n :| Used(v, n) && b in TreeOf(v, n);
      assert Freeable(v, TreeOf(v, n));
    }
  }

  /** What memory holds while an operation runs: behind the struct that it writes, and where it builds a new record. */
  datatype Ram = Ram(behind: seq<byte>, mem: seq<byte>) {
    predicate Ok() { |behind| == 0x1_0000 && 4 <= |mem| }
  }

  datatype Op =
    | Create(dir: nat, name: seq<byte>, ram: Ram)
    | Link(dir: nat, ino: nat, name: seq<byte>, ram: Ram)
    | Delete(dir: nat, name: seq<byte>, ram: Ram)

  method UsedNow(fs: Ext2, n: nat) returns (b: bool)
    requires fs.Wired() && FsOk(fs.View())
    ensures b == Used(fs.View(), n)
  {
    assert fs.View().Shape();
    if 1 <= n <= fs.geo.inodesCount {
      b := fs.inodeMaps.InUse(n);
    } else {
      b := false;
    }
  }

  /** Read a whole directory. */
  method ReadDir(fs: Ext2, n: nat) returns (d: seq<byte>)
    requires DirFile(fs.View(), n) && Area(fs.View()) < UINT64
    ensures d == DirBytes(fs.View(), n)
  {
    var size := DirSize(fs, n);
    if size == 0 {
      return [];
    }
    d := fs.FileRead(n, 0, size);
  }

  /** Check the condition for adding a name. */
  method CanAdd(fs: Ext2, n: nat, name: seq<byte>) returns (b: bool)
    requires fs.Wired() && FsOk(fs.View()) && IsDir(fs.View(), n)
    ensures b ==> SafeAdd(fs.View(), n, name) && !Slips(fs.View(), n, name)
    ensures !b ==> !SafeAdd(fs.View(), n, name)
  {
    hide Ext2.Wired;
    ghost var v := fs.View();
    assert DirOk(v, n) && GoodLimits(Lim(v));
    var l := Limits(fs.geo.blockSize, fs.geo.inodesCount);
    var ok, lo, entry := ScanLast(fs, n);
    var d := ReadDir(fs, n);
    b := SlotFine(d, l, lo, MinLen(|name|)) &&
         PlaceOf(d, l, lo, MinLen(|name|)) + MinLen(|name|) != NR_DIRECT * l.blockSize;
    RoomForIs(d, l, lo, MinLen(|name|), NR_DIRECT * l.blockSize);
  }

  lemma RoomForIs(d: seq<byte>, l: Limits, lo: nat, len: nat, area: nat)
    requires 0 < l.blockSize && LastOk(d, l, lo)
    ensures RoomFor(d, l, len, area) <==> SlotFine(d, l, lo, len) && PlaceOf(d, l, lo, len) + len != area
    ensures RoomFor(d, l, len, area) ==> !EdgeFor(d, l, len, area)
  {
    forall a | LastOk(d, l, a)
      ensures a == lo
    {
      if |d| != 0 {
        LastUnique(d, l, 0, a, lo);
      }
    }
  }

  method IsDirNow(fs: Ext2, n: nat) returns (b: bool)
    requires fs.Wired() && FsOk(fs.View())
    ensures b == IsDir(fs.View(), n)
  {
    hide Ext2.Wired;
    b := UsedNow(fs, n);
    b := b && fs.inodes[n - 1].kind == Directory;
  }

  /** Check the condition for deleting a name. */
  method CanDelete(fs: Ext2, n: nat, name: seq<byte>) returns (b: bool)
    requires fs.Wired() && FsOk(fs.View()) && IsDir(fs.View(), n) && 0 < |name| <= NAME_MAX
    ensures b ==> SafeDelete(fs.View(), n, name)
  {
    hide Ext2.Wired;
    assert DirOk(fs.View(), n);
    var found := FindDirEntry(fs, n, name);
    if !found.Hit? {
      return true;
    }
    var used := UsedNow(fs, found.ino);
    b := used && (fs.inodes[found.ino - 1].links != 1
                  || (fs.inodes[found.ino - 1].kind == Regular && fs.geo.firstInode <= found.ino));
  }

  /** One operation, issued if its condition holds. */
  method Step(fs: Ext2, op: Op)
    requires fs.Wired() && FsOk(fs.View()) && op.ram.Ok()
    modifies fs, fs.blockMaps, fs.inodeMaps
    ensures fs.Wired() && FsOk(fs.View()) && (Names(old(fs.View())) ==> Names(fs.View()))
  {
    hide Ext2.Wired, FsOk, SafeAdd, EdgeAdd, Slips, SafeDelete, ListOf, AddedTo, Names;
    var dir := IsDirNow(fs, op.dir);
    if !dir {
      return;
    }
    match op {
      case Create(n, name, ram) =>
        var ok := CanAdd(fs, n, name);
        if ok {
          var _ := FileNew(fs, n, name, 1, ram.behind, ram.mem);
        }
      case Link(n, ino, name, ram) =>
        var ok := CanAdd(fs, n, name);
        var used := UsedNow(fs, ino);
        if ok && used && (ino == ROOT || fs.geo.firstInode <= ino) {
          var _ := HardLink(fs, n, ino, name, 1, ram.behind, ram.mem);
        }
      case Delete(n, name, ram) =>
        if 0 < |name| <= NAME_MAX {
          var ok := CanDelete(fs, n, name);
          if ok {
            var _ := FileDelete(fs, n, name, ram.behind);
          }
        }
    }
  }

  /** A volume whose links and blocks are accounted for exactly. */
  ghost predicate Exact(v: Vol) {
    && (forall i :: v.IsInum(i) && i !in v.freeInodes && Counted(v, i) ==> Used(v, i) && v.Ino(i).links == Count(v, i))
    && (forall i :: v.IsInum(i) && v.geo.firstInode <= i ==> (i in v.freeInodes <==> Count(v, i) == 0))
    && (forall b :: v.IsBlock(b) && b !in v.geo.meta ==> (b !in v.freeBlocks <==> Owned(v, b)))
  }

  /** Over every run, each inode's link count is the number of entries that name it, an ordinary inode is free exactly
      when that number is zero, and a block is free exactly when it belongs to no inode. If no directory listed a name
      twice at the start, none does at the end. */
  method Run(fs: Ext2, ops: seq<Op>)
    requires fs.Wired() && FsOk(fs.View()) && forall k :: 0 <= k < |ops| ==> ops[k].ram.Ok()
    modifies fs, fs.blockMaps, fs.inodeMaps
    ensures fs.Wired() && FsOk(fs.View()) && Exact(fs.View()) && (Names(old(fs.View())) ==> Names(fs.View()))
  {
    hide Ext2.Wired, FsOk, Exact, Names;
    for k := 0 to |ops|
      invariant fs.Wired() && FsOk(fs.View()) && (Names(old(fs.View())) ==> Names(fs.View()))
    {
      Step(fs, ops[k]);
    }
    RunEnd(fs.View());
  }

  lemma RunEnd(v: Vol)
    requires FsOk(v)
    ensures Exact(v)
  {
    assert Sound(v) && v.Shape();
    hide FsBut;
    forall i | v.IsInum(i)
      ensures i !in v.freeInodes && Counted(v, i) ==> Used(v, i) && v.Ino(i).links == Count(v, i)
      ensures v.geo.firstInode <= i ==> (i in v.freeInodes <==> Count(v, i) == 0)
    {
      LinksExact(v, i);
    }
    forall b | v.IsBlock(b) && b !in v.geo.meta
      ensures b !in v.freeBlocks <==> Owned(v, b)
    {
      BlocksExact(v, b);
    }
  }
}
