/** file_delete() of ext2/ext2.c. */
module Ext2Unlink {
  import opened Bitmap
  import opened Ext2Vol
  import opened Ext2File
  import opened Ext2Tree
  import opened Ext2Dir
  import opened Ext2DirWrite
  import opened Ext2Core
  import opened Ext2DirOps

  /** A lookup that hits has found a live record with that name. */
  lemma {:induction false} HitAt(d: seq<byte>, l: Limits, o: nat, name: seq<byte>, at: nat)
    requires 0 < l.blockSize && Lookup(Parse(d, l, o), name).Hit? && at == Lookup(Parse(d, l, o), name).at
    ensures Reach(d, l, o, at) && ValidAt(d, l, at) && EName(d, at) == name
    ensures EIno(d, at) == Lookup(Parse(d, l, o), name).ino != 0
    decreases |d| - o
  {
    assert o <= |d|;
    LookupStep(d, l, o, name);
    if !(EIno(d, o) != 0 && EName(d, o) == name) {
      HitAt(d, l, o + ERec(d, o), name, at);
    }
  }

  /** The directory's bytes after the record at `at` was written back with inode number 0. */
  function Erased(d: seq<byte>, at: nat, slack: seq<byte>): seq<byte>
    requires at + HEADER <= |d| && HEADER <= ERec(d, at) && |slack| == 0x1_0000
  {
    Overwrite(d, at, LastBytes(d, at, 0, ERec(d, at), ERec(d, at), slack))
  }

  lemma ErasedRemoves(d: seq<byte>, l: Limits, at: nat, slack: seq<byte>, e: seq<byte>)
    requires GoodLimits(l) && Reach(d, l, 0, at) && ValidAt(d, l, at) && EIno(d, at) != 0 && |slack| == 0x1_0000
    requires e == Erased(d, at, slack)
    ensures Removed(d, e, l, at)
  {
    RewriteRecord(d, l, at, 0, ERec(d, at), slack, e);
  }

  /** Write the record back with inode number 0. */
  method EraseEntry(fs: Ext2, n: nat, at: nat, slack: seq<byte>, ghost d: seq<byte>, ghost e: seq<byte>)
    requires fs.Wired() && DirFile(fs.View(), n) && GoodLimits(Lim(fs.View())) && |slack| == 0x1_0000
    requires d == DirBytes(fs.View(), n) && ValidAt(d, Lim(fs.View()), at) && e == Erased(d, at, slack)
    modifies fs`inodes, fs`disk, fs.blockMaps
    ensures fs.Wired() && fs.View().freeBlocks == old(fs.View()).freeBlocks
    ensures Edited(old(fs.View()), fs.View(), n, e)
  {
    hide Ext2.Wired, FileOk, NoHoles, Touched;
    assert at < |d| && |d| <= Area(fs.View());
    var ent := ReadEntry(fs, n, at);
    StructIsLast(d, at, ent, 0, ERec(d, at), slack);
    hide Overwrite, LastBytes, StructBytes;
    var ret := DirWrite(fs, n, StructBytes(ent, 0, ERec(ent, 0), slack), at);
  }

  /** file->links_count-- */
  function LessLink(v: Vol, n: nat): Vol
    requires v.IsInum(n) && |v.inodes| == v.geo.inodesCount && 0 < v.Ino(n).links
  {
    v.(inodes := v.inodes[n - 1 := v.Ino(n).(links := v.Ino(n).links - 1)])
  }

  /** The volume after an unlinked file's blocks and inode were released. */
  function Gone(v: Vol, n: nat): Vol
    requires HasInode(v, n) && |v.Ino(n).blocks| == NR_BLOCKS
  {
    SwitchInode(Truncated(v, n), n, false, FreshInode(NoFile))
  }

  method TakeLink(fs: Ext2, n: nat)
    requires fs.Wired() && fs.View().IsInum(n) && |fs.inodes| == fs.geo.inodesCount && 0 < fs.inodes[n - 1].links
    modifies fs`inodes
    ensures fs.Wired() && fs.View() == LessLink(old(fs.View()), n)
  {
    fs.inodes := fs.inodes[n - 1 := fs.inodes[n - 1].(links := fs.inodes[n - 1].links - 1)];
  }

  lemma TruncatedSound(v: Vol, n: nat)
    requires Sound(v) && v.IsInum(n) && |v.Ino(n).blocks| == NR_BLOCKS &&
             Freeable(v, FileTree(v.disk, v.Ino(n).blocks, NR_BLOCKS))
    ensures Sound(Truncated(v, n))
  {
    var w := Truncated(v, n);
    GiveAllShape(v, FileTree(v.disk, v.Ino(n).blocks, NR_BLOCKS));
    assert w.Shape();
    DirsFrame(v, w);
  }

  /** Truncate a regular file without links and release its inode. */
  method Release(fs: Ext2, n: nat)
    requires fs.Wired() && Sound(fs.View()) && fs.View().IsInum(n) && fs.geo.firstInode <= n &&
             n !in fs.View().freeInodes
    requires HasInode(fs.View(), n) && |fs.inodes[n - 1].blocks| == NR_BLOCKS && fs.inodes[n - 1].kind == Regular
    requires Freeable(fs.View(), FileTree(fs.disk, fs.inodes[n - 1].blocks, NR_BLOCKS))
    modifies fs`groupDirs, fs`inodes, fs.blockMaps, fs.inodeMaps
    ensures fs.Wired() && Sound(fs.View()) && fs.View() == Gone(old(fs.View()), n)
  {
    hide Ext2.Wired;
    TruncatedSound(fs.View(), n);
    fs.FileTruncate(n);
    fs.InodeDealloc(n);
  }
}
