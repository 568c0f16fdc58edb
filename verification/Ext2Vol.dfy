/** A snapshot of a mounted ext2 volume (ext2/ext2.c, include/ext2.h) and the bytes of a file. */
module Ext2Vol {
  import opened Arith
  import opened Bitmap

  const NR_DIRECT := 12
  const NR_BLOCKS := 15

  /** EXT2_ROOT_INODE */
  const ROOT := 2

  type Block = seq<byte>

  datatype FileKind = NoFile | Regular | Directory | Special

  /** The inode fields that the modelled operations read or write. */
  datatype Inode = Inode(kind: FileKind, size: nat, links: nat, i512: nat, flags: nat, blocks: seq<nat>)

  const NO_BLOCKS: seq<nat> := [0, 0, 0, 0, 0, 0, 0, 0, 0, 0, 0, 0, 0, 0, 0]

  function FreshInode(kind: FileKind): Inode {
    Inode(kind, 0, 0, 0, 0, NO_BLOCKS)
  }

  /** What is fixed once ext2_init() accepted the volume. `meta` are the blocks of the superblock, the
      group descriptors, the bitmaps and the inode tables. */
  datatype Geometry = Geometry(
    blockSize: nat, blocksCount: nat, firstDataBlock: nat, blocksPerGroup: nat,
    inodesCount: nat, inodesPerGroup: nat, firstInode: nat, meta: set<nat>)
  {
    predicate Ok() {
      && (blockSize == 1024 || blockSize == 2048 || blockSize == 4096)
      && 0 < blocksPerGroup && 0 < inodesPerGroup <= inodesCount
      && firstDataBlock < blocksCount
      && 2 < firstInode <= inodesCount
      && firstDataBlock in meta
    }
  }

  datatype Vol = Vol(
    geo: Geometry, freeBlocks: set<nat>, freeInodes: set<nat>, groupDirs: seq<int>,
    inodes: seq<Inode>, disk: seq<Block>)
  {
    predicate IsBlock(b: nat) { geo.firstDataBlock <= b < geo.blocksCount }

    predicate IsInum(n: nat) { 1 <= n <= geo.inodesCount }

    /** inode_get() */
    function Ino(n: nat): Inode
      requires IsInum(n) && |inodes| == geo.inodesCount
    {
      inodes[n - 1]
    }

    /** Sizes agree; metadata blocks and reserved inodes are never free. */
    predicate Shape() {
      && geo.Ok()
      && DiskShape(disk, geo.blocksCount, geo.blockSize)
      && |inodes| == geo.inodesCount
      && (forall i :: 0 <= i < |inodes| ==> |inodes[i].blocks| == NR_BLOCKS)
      && (forall b :: b in freeBlocks ==> IsBlock(b) && b !in geo.meta)
      && (forall n :: n in freeInodes ==> IsInum(n) && geo.firstInode <= n)
    }

    /** A block in use that holds file data or indirect pointers. */
    predicate IsData(b: nat) { IsBlock(b) && b !in freeBlocks && b !in geo.meta }
  }

  predicate DiskShape(disk: seq<Block>, count: nat, size: nat) {
    |disk| == count && forall b :: 0 <= b < |disk| ==> |disk[b]| == size
  }

  /** The first `n` blocks of a file, one after the other. A pointer of 0 reads block 0, as in the source. */
  function Data(disk: seq<Block>, blocks: seq<nat>, n: nat): seq<byte>
    requires n <= |blocks| && forall i :: 0 <= i < n ==> blocks[i] < |disk|
  {
    if n == 0 then [] else Data(disk, blocks, n - 1) + disk[blocks[n - 1]]
  }

  lemma {:induction false} DataAt(disk: seq<Block>, size: nat, blocks: seq<nat>, n: nat, q: nat, r: nat)
    requires n <= |blocks| && (forall i :: 0 <= i < n ==> blocks[i] < |disk|)
    requires DiskShape(disk, |disk|, size)
    requires q < n && r < size
    ensures |Data(disk, blocks, n)| == Times(n, size)
    ensures Times(q, size) + r < Times(n, size)
    ensures Data(disk, blocks, n)[Times(q, size) + r] == disk[blocks[q]][r]
  {
    if n == 1 {
      assert Data(disk, blocks, 0) == [];
    } else if q == n - 1 {
      DataAt(disk, size, blocks, n - 1, 0, r);
    } else {
      DataAt(disk, size, blocks, n - 1, q, r);
    }
  }

  lemma DataLength(disk: seq<Block>, size: nat, blocks: seq<nat>, n: nat)
    requires n <= |blocks| && (forall i :: 0 <= i < n ==> blocks[i] < |disk|)
    requires DiskShape(disk, |disk|, size)
    ensures |Data(disk, blocks, n)| == Times(n, size)
  {
    if n > 0 {
      DataLength(disk, size, blocks, n - 1);
    }
  }

  /** A stretch inside one block of the file is that stretch of the block. */
  lemma DataChunk(disk: seq<Block>, size: nat, blocks: seq<nat>, n: nat, off: nat, len: nat)
    requires n <= |blocks| && (forall i :: 0 <= i < n ==> blocks[i] < |disk|)
    requires 0 < size && DiskShape(disk, |disk|, size)
    requires Quot(off, size) < n && Rem(off, size) + len <= size
    ensures off + len <= |Data(disk, blocks, n)|
    ensures Data(disk, blocks, n)[off..off + len] == disk[blocks[Quot(off, size)]][Rem(off, size)..Rem(off, size) + len]
  {
    var q, r := Quot(off, size), Rem(off, size);
    QuotRem(off, size);
    DataAt(disk, size, blocks, n, q, size - 1);
    var got, want := Data(disk, blocks, n)[off..off + len], disk[blocks[q]][r..r + len];
    forall k | 0 <= k < len
      ensures got[k] == want[k]
    {
      DataAt(disk, size, blocks, n, q, r + k);
    }
  }

  /** Overwrite a stretch of a sequence. */
  function Splice(s: seq<byte>, at: nat, t: seq<byte>): (r: seq<byte>)
    requires at + |t| <= |s|
    ensures |r| == |s|
  {
    s[..at] + t + s[at + |t|..]
  }

  /** Rewriting the block behind pointer `q` changes that stretch of the file and nothing else. */
  lemma DataAfter(disk: seq<Block>, size: nat, blocks: seq<nat>, n: nat, q: nat, b: nat, block: Block, k: nat)
    requires n <= |blocks| && (forall i :: 0 <= i < n ==> blocks[i] < |disk|)
    requires 0 < size && DiskShape(disk, |disk|, size) && |block| == size
    requires q < n && b < |disk| && forall i :: 0 <= i < n && i != q ==> blocks[i] != b
    requires k < Times(n, size)
    ensures |Data(disk[b := block], blocks[q := b], n)| == |Data(disk, blocks, n)| == Times(n, size)
    ensures Quot(k, size) < n
    ensures Data(disk[b := block], blocks[q := b], n)[k] ==
            if Quot(k, size) == q then block[Rem(k, size)] else Data(disk, blocks, n)[k]
  {
    QuotRem(k, size);
    QuotLess(k, n, size);
    DataAt(disk, size, blocks, n, Quot(k, size), Rem(k, size));
    DataAt(disk[b := block], size, blocks[q := b], n, Quot(k, size), Rem(k, size));
  }

  lemma QuotLess(k: nat, n: nat, size: nat)
    requires 0 < size && k < Times(n, size)
    ensures Quot(k, size) < n
  {
    QuotRem(k, size);
    if n <= Quot(k, size) {
      TimesMonotone(n, Quot(k, size), size);
    }
  }

  lemma StretchInBlock(off: nat, len: nat, size: nat, k: nat)
    requires 0 < size && Rem(off, size) + len <= size
    ensures off <= k < off + len ==> Quot(k, size) == Quot(off, size)
  {
    if off <= k < off + len {
      QuotRem(off, size);
      QuotRemUnique(Quot(off, size), size, Rem(off, size) + (k - off));
    }
  }

  /** Overwriting a stretch inside one unshared block overwrites that stretch of the file. */
  lemma DataSplice(disk: seq<Block>, size: nat, blocks: seq<nat>, n: nat, off: nat, chunk: seq<byte>, k: nat)
    requires n <= |blocks| && (forall i :: 0 <= i < n ==> blocks[i] < |disk|)
    requires 0 < size && DiskShape(disk, |disk|, size)
    requires Quot(off, size) < n && Rem(off, size) + |chunk| <= size
    requires forall i :: 0 <= i < n && i != Quot(off, size) ==> blocks[i] != blocks[Quot(off, size)]
    requires k < Times(n, size)
    ensures var b := blocks[Quot(off, size)];
            var disk' := disk[b := Splice(disk[b], Rem(off, size), chunk)];
            && |Data(disk', blocks, n)| == |Data(disk, blocks, n)| == Times(n, size)
            && Data(disk', blocks, n)[k] == if off <= k < off + |chunk| then chunk[k - off]
                                            else Data(disk, blocks, n)[k]
  {
    var q, r := Quot(off, size), Rem(off, size);
    var b := blocks[q];
    assert blocks[q := b] == blocks;
    DataAfter(disk, size, blocks, n, q, b, Splice(disk[b], r, chunk), k);
    StretchInBlock(off, |chunk|, size, k);
    if Quot(k, size) == q {
      QuotRem(off, size);
      QuotRem(k, size);
      DataAt(disk, size, blocks, n, q, Rem(k, size));
    }
  }

  /** A file depends only on its own pointers and the blocks behind them. */
  lemma {:induction false} DataFrame(disk: seq<Block>, disk': seq<Block>, blocks: seq<nat>, n: nat)
    requires n <= |blocks| && forall i :: 0 <= i < n ==> blocks[i] < |disk| && blocks[i] < |disk'|
    requires forall i :: 0 <= i < n ==> disk'[blocks[i]] == disk[blocks[i]]
    ensures Data(disk', blocks, n) == Data(disk, blocks, n)
  {
    if n > 0 {
      DataFrame(disk, disk', blocks, n - 1);
    }
  }
}
