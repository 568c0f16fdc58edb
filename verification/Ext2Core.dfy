/** The in-memory superblock of ext2/ext2.c and the operations on the volume. */
module Ext2Core {
  import opened Options
  import opened Arith
  import opened Bitmap
  import opened BitmapAlloc
  import opened Ext2Vol
  import opened Ext2File
  import opened Ext2Tree
  import opened Ext2Reach

  datatype Errno = EBADF | EFBIG | ENOSPC | ENOENT | EIO | EEXIST | ENAMETOOLONG | ENOTDIR

  /** A count or inode number, or a negative errno. */
  datatype Ret = Ok(val: nat) | Err(e: Errno)

  const UINT64: nat := 0x1_0000_0000_0000_0000

  /** The allocated directory inodes of group `g`. */
  function DirsIn(v: Vol, g: nat): set<nat>
    requires v.Shape()
  {
    set n: nat | 1 <= n <= v.geo.inodesCount && IsDirIn(v, n, g)
  }

  predicate IsDirIn(v: Vol, n: nat, g: nat)
    requires v.Shape() && v.IsInum(n)
  {
    n !in v.freeInodes && v.Ino(n).kind == Directory && Quot(n - 1, v.geo.inodesPerGroup) == g
  }

  /** used_dirs_count of every group counts its allocated directories. */
  predicate DirsCounted(v: Vol)
    requires v.Shape()
  {
    && Quot(v.geo.inodesCount - 1, v.geo.inodesPerGroup) < |v.groupDirs|
    && forall g :: 0 <= g < |v.groupDirs| ==> v.groupDirs[g] == |DirsIn(v, g)|
  }

  /** What every operation keeps. */
  predicate Sound(v: Vol) {
    v.Shape() && DirsCounted(v)
  }

  /** The bytes of file `n` from `offset`, cut at `len`, at its end and at the end of the supported area. */
  function Stretch(v: Vol, n: nat, offset: nat, len: nat): seq<byte>
    requires FileOk(v, n) && offset <= v.Ino(n).size && offset <= Area(v)
  {
    PointersInRange(v, n);
    FileData(v, n)[offset..Min(Min(offset + len, v.Ino(n).size), Area(v))]
  }

  lemma StretchIs(v: Vol, n: nat, offset: nat, len: nat)
    requires FileOk(v, n) && offset <= v.Ino(n).size <= Area(v)
    ensures Stretch(v, n, offset, len) == Content(v, n)[offset..Min(offset + len, v.Ino(n).size)]
  {
    PointersInRange(v, n);
    hide FileOk;
    CutTwice(FileData(v, n), v.Ino(n).size, offset, Min(offset + len, v.Ino(n).size));
  }

  lemma CutTwice(s: seq<byte>, n: nat, lo: nat, hi: nat)
    requires lo <= hi <= n <= |s|
    ensures s[..n][lo..hi] == s[lo..hi]
  {
  }

  function TakeBlock(v: Vol, b: nat): Vol { v.(freeBlocks := v.freeBlocks - {b}) }

  function GiveBlock(v: Vol, b: nat): Vol { v.(freeBlocks := v.freeBlocks + {b}) }

  /** Inode `n` has an image and belongs to a group. */
  predicate HasInode(v: Vol, n: nat) {
    && v.IsInum(n) && |v.inodes| == v.geo.inodesCount
    && 0 < v.geo.inodesPerGroup && Quot(n - 1, v.geo.inodesPerGroup) < |v.groupDirs|
  }

  /** The volume after inode `n` changed between free and used and its image was replaced. */
  function SwitchInode(v: Vol, n: nat, used: bool, image: Inode): Vol
    requires HasInode(v, n)
  {
    var g := Quot(n - 1, v.geo.inodesPerGroup);
    var d := if used && image.kind == Directory then 1
             else if !used && v.Ino(n).kind == Directory then -1 else 0;
    v.(freeInodes := if used then v.freeInodes - {n} else v.freeInodes + {n},
    groupDirs := v.groupDirs[g := v.groupDirs[g] + d],
    inodes := v.inodes[n - 1 := image])
  }

  lemma SwitchInodeIs(v: Vol, w: Vol, n: nat, used: bool, image: Inode, g: nat)
    requires HasInode(v, n) && g == Quot(n - 1, v.geo.inodesPerGroup) && w.geo == v.geo
    requires w.freeBlocks == v.freeBlocks && w.disk == v.disk
    requires w.freeInodes == if used then v.freeInodes - {n} else v.freeInodes + {n}
    requires w.groupDirs == v.groupDirs[g := v.groupDirs[g] + if used && image.kind == Directory then 1
                            else if !used && v.Ino(n).kind == Directory then -1
                            else 0]
    requires w.inodes == v.inodes[n - 1 := image]
    ensures w == SwitchInode(v, n, used, image)
  {
  }

  lemma CardWithout<T>(s: set<T>, t: set<T>, x: T)
    requires s - {x} == t - {x}
    ensures |s| - (if x in s then 1 else 0) == |t| - (if x in t then 1 else 0)
  {
    assert x in s ==> |s - {x}| == |s| - 1;
    assert x in t ==> |t - {x}| == |t| - 1;
    assert x !in s ==> s - {x} == s;
    assert x !in t ==> t - {x} == t;
  }

  /** Directory counters stay exact when an inode is handed out or taken back. */
  lemma SwitchInodeSound(v: Vol, n: nat, used: bool, image: Inode)
    requires Sound(v) && v.IsInum(n) && v.geo.firstInode <= n
    requires used == (n in v.freeInodes) && |image.blocks| == NR_BLOCKS
    ensures HasInode(v, n) && Sound(SwitchInode(v, n, used, image))
  {
    InodeFacts(v, n);
    var w := SwitchInode(v, n, used, image);
    assert w.Shape();
    forall g | 0 <= g < |w.groupDirs|
      ensures w.groupDirs[g] == |DirsIn(w, g)|
    {
      assert forall m: nat :: v.IsInum(m) && m != n ==> IsDirIn(w, m, g) == IsDirIn(v, m, g);
      assert DirsIn(w, g) - {n} == DirsIn(v, g) - {n};
      CardWithout(DirsIn(w, g), DirsIn(v, g), n);
    }
  }

  /** Operations that keep every inode's kind and the free inodes keep the directory counters exact. */
  lemma DirsFrame(v: Vol, w: Vol)
    requires Sound(v) && w.Shape() && w.geo == v.geo && w.groupDirs == v.groupDirs && w.freeInodes == v.freeInodes
    requires forall n: nat :: v.IsInum(n) ==> w.Ino(n).kind == v.Ino(n).kind
    ensures Sound(w)
  {
    forall g | 0 <= g < |w.groupDirs|
      ensures w.groupDirs[g] == |DirsIn(w, g)|
    {
      assert DirsIn(w, g) == DirsIn(v, g);
    }
  }

  lemma FreeBlockFacts(v: Vol, b: nat)
    requires v.Shape() && b in v.freeBlocks
    ensures b != 0 && v.IsBlock(b) && b !in v.geo.meta
  {
    assert v.geo.Ok();
  }

  lemma InodeFacts(v: Vol, n: nat)
    requires Sound(v) && (v.IsInum(n) || n in v.freeInodes)
    ensures HasInode(v, n) && (n in v.freeInodes ==> v.geo.firstInode <= n)
  {
    assert v.Shape() && v.geo.Ok();
    QuotMonotone(n - 1, v.geo.inodesCount - 1, v.geo.inodesPerGroup);
  }

  /** What file_write() returns: not a file, beyond the direct blocks, too few free blocks, or the bytes that fit. */
  lemma FileThere(v: Vol, n: nat)
    requires FileOk(v, n)
    ensures v.IsInum(n) && |v.inodes| == v.geo.inodesCount && 0 < v.geo.blockSize
  {
  }

  function WriteRet(v: Vol, n: nat, len: nat, offset: nat): Ret
    requires FileOk(v, n)
  {
    if v.Ino(n).kind != Regular && v.Ino(n).kind != Directory then Err(EBADF)
    else if Area(v) <= offset then Err(EFBIG)
    else
      var fit := Min(len, Area(v) - offset);
      if Needed(v, n, offset, fit) <= |v.freeBlocks| then Ok(fit) else Err(ENOSPC)
  }

  /** file_truncate() after the first `i` pointers. */
  function Emptied(v: Vol, n: nat, i: nat): Vol
    requires v.IsInum(n) && |v.inodes| == v.geo.inodesCount && i <= |v.Ino(n).blocks| == NR_BLOCKS
  {
    var ino := v.Ino(n);
    GiveAll(v, FileTree(v.disk, ino.blocks, i)).(
    inodes := v.inodes[n - 1 := ino.(size := 0, i512 := 0, blocks := NO_BLOCKS[..i] + ino.blocks[i..])])
  }

  function ClearPointer(v: Vol, n: nat, i: nat): Vol
    requires v.IsInum(n) && |v.inodes| == v.geo.inodesCount && i < |v.Ino(n).blocks|
  {
    v.(inodes := v.inodes[n - 1 := v.Ino(n).(blocks := v.Ino(n).blocks[i := 0])])
  }

  /** One pointer of file_truncate(): its tree may be freed and the pointer cleared. */
  lemma EmptiedStep(v: Vol, n: nat, i: nat)
    requires v.IsInum(n) && |v.inodes| == v.geo.inodesCount && i < |v.Ino(n).blocks| == NR_BLOCKS
    requires Freeable(v, FileTree(v.disk, v.Ino(n).blocks, NR_BLOCKS))
    ensures var e := Emptied(v, n, i);
            var tree := Tree(v.disk, v.Ino(n).blocks[i], Level(i));
            && e.Ino(n).blocks[i] == v.Ino(n).blocks[i]
            && Freeable(e, tree)
            && Emptied(v, n, i + 1) == ClearPointer(GiveAll(e, tree), n, i)
  {
    FileTreeStep(v, v.Ino(n).blocks, i);
    ClearedOne(v.Ino(n).blocks, i);
  }

  lemma ClearedOne(p: seq<nat>, i: nat)
    requires i < |p| == NR_BLOCKS
    ensures (NO_BLOCKS[..i] + p[i..])[i] == p[i]
    ensures (NO_BLOCKS[..i] + p[i..])[i := 0] == NO_BLOCKS[..i + 1] + p[i + 1..]
  {
    var was, now := NO_BLOCKS[..i] + p[i..], NO_BLOCKS[..i + 1] + p[i + 1..];
    forall k | 0 <= k < NR_BLOCKS
      ensures was[i := 0][k] == now[k]
    {
      assert NO_BLOCKS[k] == 0;
    }
  }

  lemma EmptiedEnds(v: Vol, n: nat)
    requires v.IsInum(n) && |v.inodes| == v.geo.inodesCount && |v.Ino(n).blocks| == NR_BLOCKS
    ensures Emptied(v, n, 0) == v.(inodes := v.inodes[n - 1 := v.Ino(n).(size := 0, i512 := 0)])
    ensures Emptied(v, n, NR_BLOCKS) == Truncated(v, n)
  {
    var p := v.Ino(n).blocks;
    assert NO_BLOCKS[..0] + p[0..] == p;
    assert NO_BLOCKS[..NR_BLOCKS] + p[NR_BLOCKS..] == NO_BLOCKS;
    GiveFew(v, 0);
  }

  /** The volume after file `n` was truncated. */
  function Truncated(v: Vol, n: nat): Vol
    requires v.IsInum(n) && |v.inodes| == v.geo.inodesCount && |v.Ino(n).blocks| == NR_BLOCKS
  {
    var ino := v.Ino(n);
    GiveAll(v, FileTree(v.disk, ino.blocks, NR_BLOCKS)).(
    inodes := v.inodes[n - 1 := ino.(size := 0, i512 := 0, blocks := NO_BLOCKS)])
  }

  /** Freeing a tree of blocks makes exactly the blocks that its root reaches newly free. */
  lemma GivenReached(v: Vol, b: nat, level: nat)
    requires Freeable(v, Tree(v.disk, b, level))
    ensures forall x: nat :: x in GiveAll(v, Tree(v.disk, b, level)).freeBlocks && x !in v.freeBlocks <==>
                             Within(v.disk, b, x, level)
  {
    hide Tree, Within;
    forall x: nat
      ensures x in GiveAll(v, Tree(v.disk, b, level)).freeBlocks && x !in v.freeBlocks <==>
              Within(v.disk, b, x, level)
    {
      TreeReaches(v.disk, b, level, x);
      NewlyFree(v, Tree(v.disk, b, level), x);
    }
  }

  /** Truncating makes exactly the blocks newly free that the fifteen pointers reach. */
  lemma TruncatedReached(v: Vol, n: nat)
    requires v.IsInum(n) && |v.inodes| == v.geo.inodesCount && |v.Ino(n).blocks| == NR_BLOCKS
    requires Freeable(v, FileTree(v.disk, v.Ino(n).blocks, NR_BLOCKS))
    ensures forall b: nat :: b in Truncated(v, n).freeBlocks && b !in v.freeBlocks <==>
                             Reachable(v.disk, v.Ino(n).blocks, b)
    ensures Truncated(v, n).Ino(n).blocks == seq(15, _ => 0)
  {
    hide FileTree, Reachable;
    forall b: nat
      ensures b in Truncated(v, n).freeBlocks && b !in v.freeBlocks <==> Reachable(v.disk, v.Ino(n).blocks, b)
    {
      FileReaches(v.disk, v.Ino(n).blocks, b);
      NewlyFree(v, FileTree(v.disk, v.Ino(n).blocks, NR_BLOCKS), b);
    }
  }

  /** Bit `i` of the block bitmap of group `g` is clear exactly if its block is free, and likewise for inodes: blocks
      count from the first data block, inodes from 1. */
  lemma BitmapsMean(fs: Ext2, g: nat, i: nat)
    requires fs.Wired()
    ensures var b := fs.geo.firstDataBlock + g * fs.geo.blocksPerGroup + i;
            g < |fs.blockMaps.maps| && i < fs.geo.blocksPerGroup && b < fs.geo.blocksCount ==>
              && i / 8 < |fs.blockMaps.maps[g]|
              && (b in fs.View().freeBlocks <==> fs.blockMaps.maps[g][i / 8] / Pow2(i % 8) % 2 == 0)
    ensures var n := 1 + g * fs.geo.inodesPerGroup + i;
            g < |fs.inodeMaps.maps| && i < fs.geo.inodesPerGroup && n <= fs.geo.inodesCount ==>
              && i / 8 < |fs.inodeMaps.maps[g]|
              && (n in fs.View().freeInodes <==> fs.inodeMaps.maps[g][i / 8] / Pow2(i % 8) % 2 == 0)
  {
    hide Pow2, Agree, Free;
    if g < |fs.blockMaps.maps| && i < fs.geo.blocksPerGroup &&
       fs.geo.firstDataBlock + g * fs.geo.blocksPerGroup + i < fs.geo.blocksCount {
      ItemBit(fs.blockMaps, g, i);
    }
    if g < |fs.inodeMaps.maps| && i < fs.geo.inodesPerGroup && 1 + g * fs.geo.inodesPerGroup + i <= fs.geo.inodesCount {
      ItemBit(fs.inodeMaps, g, i);
    }
  }

  class Ext2 {
    const geo: Geometry
    const blockMaps: Allocator
    const inodeMaps: Allocator
    var groupDirs: seq<int>
    var inodes: seq<Inode>
    var disk: seq<Block>

    ghost function View(): Vol
      reads this, blockMaps, inodeMaps
    {
      Vol(geo, blockMaps.free, inodeMaps.free, groupDirs, inodes, disk)
    }

    ghost predicate Wired()
      reads this, blockMaps, inodeMaps
    {
      && blockMaps != inodeMaps
      && blockMaps.range == Range(geo.blocksPerGroup, geo.firstDataBlock, geo.blocksCount)
      && inodeMaps.range == Range(geo.inodesPerGroup, 1, geo.inodesCount + 1)
      && blockMaps.Valid() && inodeMaps.Valid()
    }

    /** ext2_init(): take over the volume image. */
    constructor (geo: Geometry, blockMaps: Allocator, inodeMaps: Allocator, groupDirs: seq<int>,
                 inodes: seq<Inode>, disk: seq<Block>)
      ensures this.geo == geo && this.blockMaps == blockMaps && this.inodeMaps == inodeMaps
      ensures this.groupDirs == groupDirs && this.inodes == inodes && this.disk == disk
    {
      this.geo, this.blockMaps, this.inodeMaps := geo, blockMaps, inodeMaps;
      this.groupDirs, this.inodes, this.disk := groupDirs, inodes, disk;
    }

    /** block_alloc(): the lowest free block, or 0 exactly when none is free. */
    method BlockAlloc() returns (b: nat)
      requires Wired() && View().Shape()
      modifies blockMaps
      ensures Wired()
      ensures b == 0 <==> old(View()).freeBlocks == {}
      ensures b == 0 ==> View() == old(View()) && blockMaps.total == 0
      ensures b != 0 ==> b in old(View()).freeBlocks && forall c :: c in old(View()).freeBlocks ==> b <= c
      ensures b != 0 ==> View() == TakeBlock(old(View()), b)
      ensures blockMaps.total == |View().freeBlocks|
    {
      var found, x := blockMaps.Alloc();
      if !found {
        return 0;
      }
      FreeBlockFacts(old(View()), x);
      return x;
    }

    /** block_dealloc() */
    method BlockDealloc(block: nat)
      requires Wired() && View().IsBlock(block) && block !in View().freeBlocks
      modifies blockMaps
      ensures Wired()
      ensures View() == GiveBlock(old(View()), block)
      ensures blockMaps.total == |View().freeBlocks| <= geo.blocksCount
    {
      blockMaps.Dealloc(block);
    }

    /** inode_alloc(): the lowest free inode with a fresh image, or 0 exactly when none is free. */
    method InodeAlloc(kind: FileKind) returns (n: nat)
      requires Wired() && Sound(View())
      modifies this`groupDirs, this`inodes, inodeMaps
      ensures Wired() && Sound(View())
      ensures n == 0 <==> old(View()).freeInodes == {}
      ensures n == 0 ==> View() == old(View()) && inodeMaps.total == 0
      ensures n != 0 ==> n in old(View()).freeInodes && forall m :: m in old(View()).freeInodes ==> n <= m
      ensures n != 0 ==> HasInode(old(View()), n) && View() == SwitchInode(old(View()), n, true, FreshInode(kind))
      ensures inodeMaps.total == |View().freeInodes|
    {
      ghost var v := View();
      n := TakeInode();
      if n != 0 {
        SetInode(n, true, FreshInode(kind), v, inodeMaps.free);
      }
    }

    /** Take the lowest free inode number from the bitmaps. */
    method TakeInode() returns (n: nat)
      requires Wired() && Sound(View())
      modifies inodeMaps
      ensures Wired()
      ensures n == 0 <==> old(View()).freeInodes == {}
      ensures n == 0 ==> View() == old(View()) && inodeMaps.total == 0
      ensures n != 0 ==> n in old(View()).freeInodes && forall m :: m in old(View()).freeInodes ==> n <= m
      ensures n != 0 ==> View() == old(View()).(freeInodes := old(View()).freeInodes - {n})
      ensures inodeMaps.total == |View().freeInodes|
    {
      assert View().Shape();
      var found, x := inodeMaps.Alloc();
      if !found {
        return 0;
      }
      return x;
    }

    /** Put the new image of inode `n` in place once its bit was changed. */
    method SetInode(n: nat, used: bool, image: Inode, ghost v: Vol, ghost free: set<nat>)
      requires Sound(v) && v.IsInum(n) && geo.firstInode <= n && v.geo == geo
      requires used == (n in v.freeInodes) && |image.blocks| == NR_BLOCKS
      requires View() == v.(freeInodes := free) && free == if used then v.freeInodes - {n} else v.freeInodes + {n}
      modifies this`groupDirs, this`inodes
      ensures HasInode(v, n) && View() == SwitchInode(v, n, used, image) && Sound(View())
    {
      InodeFacts(v, n);
      SwitchInodeSound(v, n, used, image);
      var g := Quot(n - 1, geo.inodesPerGroup);
      var d := if used && image.kind == Directory then 1
      else if !used && inodes[n - 1].kind == Directory then -1 else 0;
      StoreInode(n, image, g, d);
      SwitchInodeIs(v, View(), n, used, image, g);
    }

    /** Replace the image of an inode and adjust the directory counter of its group. */
    method StoreInode(n: nat, image: Inode, g: nat, d: int)
      requires 1 <= n <= |inodes| && g < |groupDirs|
      modifies this`groupDirs, this`inodes
      ensures groupDirs == old(groupDirs[g := groupDirs[g] + d]) && inodes == old(inodes[n - 1 := image])
    {
      groupDirs := groupDirs[g := groupDirs[g] + d];
      inodes := inodes[n - 1 := image];
    }

    /** inode_dealloc() */
    method InodeDealloc(n: nat)
      requires Wired() && Sound(View())
      requires View().IsInum(n) && geo.firstInode <= n && n !in View().freeInodes
      modifies this`groupDirs, this`inodes, inodeMaps
      ensures Wired() && Sound(View())
      ensures HasInode(old(View()), n) && View() == SwitchInode(old(View()), n, false, FreshInode(NoFile))
      ensures inodeMaps.total == |View().freeInodes|
    {
      ghost var v := View();
      inodeMaps.Dealloc(n);
      SetInode(n, false, FreshInode(NoFile), v, inodeMaps.free);
    }

    /** file_read(): the bytes of the file from `offset`, cut at `len`, at the end of the file and at the end of the
        supported area. Beyond that area, but inside a larger file, an assertion of the source fails. */
    method FileRead(n: nat, offset: nat, len: nat) returns (buf: seq<byte>)
      requires FileOk(View(), n) && (offset < inodes[n - 1].size ==> offset <= Area(View()))
      requires offset + len < UINT64
      ensures inodes[n - 1].kind !in {Regular, Directory} || inodes[n - 1].size <= offset ==> buf == []
      ensures inodes[n - 1].kind in {Regular, Directory} && offset < inodes[n - 1].size ==>
                buf == Stretch(View(), n, offset, len)
      ensures inodes[n - 1].kind in {Regular, Directory} && offset < inodes[n - 1].size <= Area(View()) ==>
                buf == Content(View(), n)[offset..Min(offset + len, inodes[n - 1].size)]
    {
      ghost var v := View();
      PointersInRange(v, n);
      buf := [];
      var ino := inodes[n - 1];
      if (ino.kind != Regular && ino.kind != Directory) || offset >= ino.size {
        return;
      }
      var area := NR_DIRECT * geo.blockSize;
      var part := Min(len, ino.size - offset);
      if offset + part > area {
        part := area - offset;
      }
      buf := ReadBlocks(disk, geo.blockSize, ino.blocks, offset, part);
      assert buf == Stretch(v, n, offset, len);
      if ino.size <= area {
        StretchIs(v, n, offset, len);
      }
    }

    /** Map pointer `q` of a file if it is a hole, with the lowest free block. */
    method MapIfHole(n: nat, q: nat) returns (ok: bool)
      requires Wired() && FileOk(View(), n) && q < NR_DIRECT
      modifies this`inodes, blockMaps
      ensures Wired() && disk == old(disk)
      ensures !ok <==> old(inodes[n - 1].blocks[q]) == 0 && old(View()).freeBlocks == {}
      ensures !ok ==> View() == old(View())
      ensures ok ==> View() == (if old(inodes[n - 1].blocks[q]) == 0
                                then MapBlock(old(View()), n, q, Least(old(View()).freeBlocks))
                                else old(View()))
    {
      ok := true;
      if inodes[n - 1].blocks[q] == 0 {
        var block := BlockAlloc();
        if block == 0 {
          return false;
        }
        assert block == Least(old(View()).freeBlocks);
        var ino := inodes[n - 1];
        inodes := inodes[n - 1 := ino.(blocks := ino.blocks[q := block])];
      }
    }

    /** block_write() into a mapped block of a file, then extend the file if it grew. */
    method PutBlock(n: nat, off: nat, chunk: seq<byte>)
      requires FileOk(View(), n) && ChunkFits(View(), n, off, |chunk|)
      modifies this`inodes, this`disk
      ensures View() == PutChunk(old(View()), n, off, chunk)
    {
      PointersInRange(View(), n);
      var block := inodes[n - 1].blocks[Quot(off, geo.blockSize)];
      disk := disk[block := Splice(disk[block], Rem(off, geo.blockSize), chunk)];
      inodes := inodes[n - 1 := Grow(inodes[n - 1], off + |chunk|, geo.blockSize)];
    }

    /** One turn of the loop in file_write(). */
    method WriteChunk(n: nat, off: nat, chunk: seq<byte>) returns (ok: bool)
      requires Wired() && FileOk(View(), n) && 0 < geo.blockSize
      requires Quot(off, geo.blockSize) < NR_DIRECT && Rem(off, geo.blockSize) + |chunk| <= geo.blockSize
      modifies this`inodes, this`disk, blockMaps
      ensures Wired()
      ensures ok ==> ChunkStep(old(View()), n, off, chunk) == Some(View())
      ensures !ok ==> ChunkStep(old(View()), n, off, chunk) == None && View() == old(View())
    {
      ghost var v := View();
      var q := Quot(off, geo.blockSize);
      if inodes[n - 1].blocks[q] == 0 && v.freeBlocks != {} {
        FreeNotZero(v, Least(v.freeBlocks));
        MapBlockOk(v, n, q, Least(v.freeBlocks));
      }
      ok := MapIfHole(n, q);
      if ok {
        PutBlock(n, off, chunk);
      }
    }

    /** The loop of file_write(). */
    method WriteLoop(n: nat, buf: seq<byte>, offset: nat, len: nat) returns (ok: bool, stop: nat)
      requires Wired() && FileOk(View(), n)
      requires offset + len <= Area(View()) && offset < Area(View()) && len <= |buf| && 0 < geo.blockSize
      modifies this`inodes, this`disk, blockMaps
      ensures Wired() && (if ok then stop == offset + len else offset <= stop < offset + len)
      ensures Written(old(View()), View(), n, offset, stop, buf)
      ensures |View().freeBlocks| + Needed(old(View()), n, offset, stop - offset) == |old(View()).freeBlocks|
      ensures ok <==> Needed(old(View()), n, offset, len) <= |old(View()).freeBlocks|
      ensures !ok ==> (stop == offset || Quot(offset, geo.blockSize) < Quot(stop, geo.blockSize))
    {
      hide Written, Progress, FileOk, Holes, Writing, ChunkStep, Quot, Rem, ChunkLen;
      ghost var v := View();
      var end := offset + len;
      assert Needed(v, n, offset, end - offset) == Needed(v, n, offset, len);
      WritingStart(v, n, offset, end, buf);
      var off := offset;
      ghost var i := Quot(offset, geo.blockSize);
      while off != end
        invariant offset <= off <= end
        invariant Wired() && Writing(v, View(), n, offset, off, end, buf, i)
      {
        ghost var w := View();
        WritingChunk(v, w, n, offset, off, end, buf, i);
        var next := off + ChunkLen(off, end, geo.blockSize);
        var chunk := buf[off - offset..next - offset];
        WritingTurn(v, w, n, offset, off, end, buf, i, chunk, next);
        var mapped := WriteChunk(n, off, chunk);
        if !mapped {
          return false, off;
        }
        off := next;
        i := i + 1;
      }
      WritingDone(v, View(), n, offset, end, buf, i);
      return true, end;
    }

    /** file_write(): the bytes up to `stop` reach the file; all that fit unless the volume runs out of blocks. */
    method FileWrite(n: nat, buf: seq<byte>, offset: nat) returns (ret: Ret, ghost stop: nat)
      requires Wired() && FileOk(View(), n) && offset + |buf| < UINT64
      modifies this`inodes, this`disk, blockMaps
      ensures Wired()
      ensures ret == Err(EBADF) || ret == Err(EFBIG) ==> View() == old(View())
      ensures ret.Ok? || ret == Err(ENOSPC) ==> Written(old(View()), View(), n, offset, stop, buf)
      ensures ret == WriteRet(old(View()), n, |buf|, offset)
      ensures var kind, area, free := old(inodes[n - 1].kind), 12 * geo.blockSize, |old(View().freeBlocks)|;
              if kind !in {Regular, Directory} then ret == Err(EBADF)
              else if area <= offset then ret == Err(EFBIG)
              else
                var fit := Min(|buf|, area - offset);
                ret == if Needed(old(View()), n, offset, fit) <= free then Ok(fit) else Err(ENOSPC)
      ensures old(inodes[n - 1].size) < inodes[n - 1].size ==>
                SectorsFit(inodes[n - 1].i512, inodes[n - 1].size, geo.blockSize)
      ensures ret.Ok? || ret == Err(ENOSPC) ==>
                && offset <= stop <= Area(old(View()))
                && |View().freeBlocks| + Needed(old(View()), n, offset, stop - offset) == |old(View()).freeBlocks|
      ensures ret.Ok? ==> stop == offset + ret.val
      ensures ret == Err(ENOSPC) && 0 < geo.blockSize ==>
                stop < offset + |buf| && (stop == offset || Quot(offset, geo.blockSize) < Quot(stop, geo.blockSize))
    {
      hide Wired, Written, Quot, Holes, FileOk;
      FileThere(View(), n);
      stop := offset;
      if inodes[n - 1].kind != Regular && inodes[n - 1].kind != Directory {
        return Err(EBADF), offset;
      }
      var area := NR_DIRECT * geo.blockSize;
      if offset >= area {
        return Err(EFBIG), offset;
      }
      var len := Min(|buf|, area - offset);
      PointersInRange(View(), n);
      var ok, reached := WriteLoop(n, buf, offset, len);
      WrittenSectors(old(View()), View(), n, offset, reached, buf);
      return if ok then Ok(len) else Err(ENOSPC), reached;
    }

    /** indirect_block_dealloc(): free the whole tree below a pointer, depth first. */
    method IndirectBlockDealloc(block: nat, level: nat)
      requires Wired() && level <= 3 && |disk| == geo.blocksCount
      requires Freeable(View(), Tree(disk, block, level))
      modifies blockMaps
      ensures Wired()
      ensures View() == GiveAll(old(View()), Tree(disk, block, level))
      ensures forall x: nat ::
                x in View().freeBlocks && x !in old(View().freeBlocks) <==> Within(disk, block, x, level)
      decreases level
    {
      ghost var v := View();
      GivenReached(v, block, level);
      GiveFew(v, block);
      if block == 0 {
        return;
      }
      assert block in Tree(disk, block, level);
      if level == 0 {
        BlockDealloc(block);
        return;
      }
      var buf := disk[block];
      for i := 0 to |buf| / 4
        invariant Wired() && View() == GiveAll(v, Forest(v.disk, buf, i, level - 1))
      {
        ForestStep(v, block, level, i);
        GiveFew(View(), 0);
        if Entry(buf, i) != 0 {
          IndirectBlockDealloc(Entry(buf, i), level - 1);
        }
      }
      ForestEnd(v, block, level);
      BlockDealloc(block);
    }

    /** Free the tree below pointer `i` of an inode and clear the pointer. */
    method DropPointer(n: nat, i: nat)
      requires Wired() && |disk| == geo.blocksCount && View().IsInum(n) && |inodes| == geo.inodesCount
      requires i < |inodes[n - 1].blocks| == NR_BLOCKS
      requires Freeable(View(), Tree(disk, inodes[n - 1].blocks[i], Level(i)))
      modifies this`inodes, blockMaps
      ensures Wired()
      ensures View() == ClearPointer(GiveAll(old(View()), Tree(disk, old(inodes[n - 1].blocks[i]), Level(i))), n, i)
    {
      IndirectBlockDealloc(inodes[n - 1].blocks[i], Level(i));
      inodes := inodes[n - 1 := inodes[n - 1].(blocks := inodes[n - 1].blocks[i := 0])];
    }

    /** file_truncate(): every block of the file is freed once and every pointer cleared. The direct pointers
        have level 0, for which indirect_block_dealloc() is block_dealloc() on non-zero pointers. */
    method FileTruncate(n: nat)
      requires Wired() && |disk| == geo.blocksCount && View().IsInum(n) && |inodes| == geo.inodesCount
      requires |inodes[n - 1].blocks| == NR_BLOCKS && Freeable(View(), FileTree(disk, inodes[n - 1].blocks, NR_BLOCKS))
      modifies this`inodes, blockMaps
      ensures Wired()
      ensures View() == Truncated(old(View()), n)
      ensures forall b: nat ::
                b in View().freeBlocks && b !in old(View().freeBlocks) <==>
                Reachable(disk, old(inodes[n - 1].blocks), b)
      ensures inodes[n - 1].size == inodes[n - 1].i512 == 0 && inodes[n - 1].blocks == seq(15, _ => 0)
      ensures blockMaps.total == old(blockMaps.total + |FileTree(disk, inodes[n - 1].blocks, NR_BLOCKS)|)
    {
      hide FileTree, Tree, GiveAll;
      ghost var v := View();
      EmptiedEnds(v, n);
      TruncatedReached(v, n);
      GiveAllCounts(v, FileTree(disk, inodes[n - 1].blocks, NR_BLOCKS));
      FreeCounted();
      inodes := inodes[n - 1 := inodes[n - 1].(size := 0, i512 := 0)];
      for i := 0 to NR_BLOCKS
        invariant Wired() && View() == Emptied(v, n, i)
      {
        EmptiedStep(v, n, i);
        DropPointer(n, i);
      }
      FreeCounted();
    }

    /** The superblock's count of free blocks is exact. */
    lemma FreeCounted()
      requires Wired()
      ensures blockMaps.total == |View().freeBlocks|
    {
      TotalIsFree(blockMaps.bits, blockMaps.range, blockMaps.counts);
    }
  }

  /** Reading back what file_write() took yields the bytes written. */
  method WriteThenRead(fs: Ext2, n: nat, buf: seq<byte>, offset: nat) returns (ret: Ret, back: seq<byte>)
    requires fs.Wired() && FileOk(fs.View(), n) && fs.View().Ino(n).size <= Area(fs.View()) && offset + |buf| < UINT64
    modifies fs`inodes, fs`disk, fs.blockMaps
    ensures ret.Ok? && 0 < ret.val ==> ret.val <= |buf| && back == buf[..ret.val]
  {
    hide Ext2.Wired, WriteRet, Needed, SectorsFit;
    ghost var v, stop := fs.View(), 0;
    ret, stop := fs.FileWrite(n, buf, offset);
    back := [];
    if ret.Ok? && 0 < ret.val {
      ReadBack(v, fs.View(), n, offset, stop, buf);
      hide Content, Bytes, Mapping;
      back := fs.FileRead(n, offset, ret.val);
    }
  }
}
