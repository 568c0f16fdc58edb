/** What file_write() of ext2/ext2.c does to a volume, chunk by chunk. */
module Ext2File {
  import opened Options
  import opened Arith
  import opened Bitmap
  import opened Ext2Vol

  /** supported_area */
  function Area(v: Vol): nat { NR_DIRECT * v.geo.blockSize }

  /** The blocks behind the direct pointers. */
  function Mapped(blocks: seq<nat>): set<nat>
    requires |blocks| == NR_BLOCKS
  {
    set i | 0 <= i < NR_DIRECT && blocks[i] != 0 :: blocks[i]
  }

  /** The direct pointers of a file are unshared blocks in use, disjoint from the metadata. */
  predicate DirectOk(v: Vol, blocks: seq<nat>) {
    && |blocks| == NR_BLOCKS
    && (forall i :: 0 <= i < NR_DIRECT && blocks[i] != 0 ==> v.IsData(blocks[i]))
    && (forall i, j :: 0 <= i < j < NR_DIRECT && blocks[i] != 0 ==> blocks[i] != blocks[j])
  }

  predicate FileOk(v: Vol, n: nat) {
    v.Shape() && v.IsInum(n) && DirectOk(v, v.Ino(n).blocks)
  }

  lemma PointersInRange(v: Vol, n: nat)
    requires FileOk(v, n)
    ensures |v.Ino(n).blocks| == NR_BLOCKS && 0 < v.geo.blockSize
    ensures forall i :: 0 <= i < NR_DIRECT ==> v.Ino(n).blocks[i] < |v.disk|
    ensures forall i :: 0 <= i < NR_DIRECT && v.Ino(n).blocks[i] != 0 ==> v.IsData(v.Ino(n).blocks[i])
    ensures DiskShape(v.disk, |v.disk|, v.geo.blockSize) && |v.disk| == v.geo.blocksCount
    ensures |FileData(v, n)| == Area(v)
  {
    assert v.geo.Ok();
    DataLength(v.disk, v.geo.blockSize, v.Ino(n).blocks, NR_DIRECT);
    TimesIsMul(NR_DIRECT, v.geo.blockSize);
  }

  lemma QuotInArea(k: nat, size: nat)
    requires 0 < size && k < NR_DIRECT * size
    ensures Quot(k, size) < NR_DIRECT
  {
    TimesIsMul(NR_DIRECT, size);
    QuotLess(k, NR_DIRECT, size);
  }

  /** The bytes behind the direct pointers of inode `n`. */
  function FileData(v: Vol, n: nat): seq<byte>
    requires v.IsInum(n) && |v.inodes| == v.geo.inodesCount && |v.Ino(n).blocks| == NR_BLOCKS
    requires forall i :: 0 <= i < NR_DIRECT ==> v.Ino(n).blocks[i] < |v.disk|
  {
    Data(v.disk, v.Ino(n).blocks, NR_DIRECT)
  }

  /** `w` is `v` after the bytes of `buf` were written to file `n` from offset `from` up to `to`. */
  ghost predicate Written(v: Vol, w: Vol, n: nat, from: nat, to: nat, buf: seq<byte>) {
    && FileOk(v, n) && FileOk(w, n)
    && from <= to <= from + |buf| && to <= Area(v)
    && SameElsewhere(v, w, n)
    && Mapping(v, w, n)
    && Bytes(v, w, n, from, to, buf)
    && w.Ino(n).size == (if from < to then Max(v.Ino(n).size, to) else v.Ino(n).size)
    && w.Ino(n).i512 == (if w.Ino(n).size > v.Ino(n).size then Sectors(w.Ino(n).size, v.geo.blockSize)
                         else v.Ino(n).i512)
  }

  /** The 512-byte sectors of the blocks that hold `size` bytes. */
  function Sectors(size: nat, blockSize: nat): nat
    requires 0 < blockSize
  {
    CeilDiv(size, blockSize) * blockSize / 512
  }

  /** The sectors are whole blocks, and no block more than the size needs. */
  predicate SectorsFit(i512: nat, size: nat, blockSize: nat) {
    0 < blockSize && 512 * i512 % blockSize == 0 && size <= 512 * i512 < size + blockSize
  }

  lemma SectorsExact(size: nat, blockSize: nat)
    requires 0 < blockSize && blockSize % 512 == 0
    ensures SectorsFit(Sectors(size, blockSize), size, blockSize)
  {
    hide CeilDiv;
    var c, f := CeilDiv(size, blockSize), blockSize / 512;
    EnoughBlocks(size, blockSize, c);
    WholeBlocks(c, f, blockSize);
    DivModUnique(blockSize, c, 0);
  }

  lemma EnoughBlocks(size: nat, blockSize: nat, c: nat)
    requires 0 < blockSize && c == CeilDiv(size, blockSize)
    ensures size <= c * blockSize < size + blockSize
  {
    hide Quot;
    if size > 0 {
      QuotRem(size - 1, blockSize);
      TimesIsMul(c - 1, blockSize);
      assert c * blockSize == (c - 1) * blockSize + blockSize;
    }
  }

  lemma WholeBlocks(c: nat, f: nat, blockSize: nat)
    requires blockSize == f * 512
    ensures c * blockSize / 512 == c * f && 512 * (c * f) == c * blockSize
  {
    assert c * blockSize == (c * f) * 512;
    DivModUnique(512, c * f, 0);
  }

  lemma WrittenSectors(v: Vol, w: Vol, n: nat, from: nat, to: nat, buf: seq<byte>)
    requires Written(v, w, n, from, to, buf)
    ensures v.IsInum(n) && |v.inodes| == |w.inodes| == v.geo.inodesCount && w.geo == v.geo
    ensures v.Ino(n).size < w.Ino(n).size ==> SectorsFit(w.Ino(n).i512, w.Ino(n).size, v.geo.blockSize)
  {
    hide Bytes, Mapping, Sectors, SectorsFit, Mapped;
    SectorsExact(w.Ino(n).size, v.geo.blockSize);
  }

  /** Only file `n` and the block allocator are touched. */
  predicate SameElsewhere(v: Vol, w: Vol, n: nat)
    requires FileOk(v, n) && FileOk(w, n)
  {
    && w.geo == v.geo && w.freeInodes == v.freeInodes && w.groupDirs == v.groupDirs
    && w.inodes == v.inodes[n - 1 := w.Ino(n)]
    && w.Ino(n).kind == v.Ino(n).kind && w.Ino(n).links == v.Ino(n).links && w.Ino(n).flags == v.Ino(n).flags
    && (forall b :: 0 <= b < |v.disk| && b !in Mapped(w.Ino(n).blocks) ==> w.disk[b] == v.disk[b])
  }

  /** Pointers in use keep their value and holes are filled with blocks that were free. */
  predicate Mapping(v: Vol, w: Vol, n: nat)
    requires FileOk(v, n) && FileOk(w, n)
  {
    var p, q := v.Ino(n).blocks, w.Ino(n).blocks;
    && q[NR_DIRECT..] == p[NR_DIRECT..]
    && w.freeBlocks <= v.freeBlocks
    && (forall i :: 0 <= i < NR_DIRECT ==> q[i] == p[i] || (p[i] == 0 && q[i] in v.freeBlocks))
    && (forall b :: b in v.freeBlocks && b !in w.freeBlocks ==> b in Mapped(q))
  }

  /** The written stretch holds the buffer; every other byte of a block that was mapped is unchanged. */
  ghost predicate Bytes(v: Vol, w: Vol, n: nat, from: nat, to: nat, buf: seq<byte>)
    requires FileOk(v, n) && FileOk(w, n)
  {
    PointersInRange(v, n);
    PointersInRange(w, n);
    forall k: nat :: k < Area(v) ==> ByteOk(v, w, n, from, to, buf, k)
  }

  predicate ByteOk(v: Vol, w: Vol, n: nat, from: nat, to: nat, buf: seq<byte>, k: nat)
    requires FileOk(v, n) && FileOk(w, n)
  {
    PointersInRange(v, n);
    PointersInRange(w, n);
    var q := Quot(k, v.geo.blockSize);
    k < |FileData(v, n)| && k < |FileData(w, n)| && q < NR_DIRECT &&
    if from <= k < to then k - from < |buf| && FileData(w, n)[k] == buf[k - from] && w.Ino(n).blocks[q] != 0
    else v.Ino(n).blocks[q] != 0 ==> FileData(w, n)[k] == FileData(v, n)[k]
  }

  /** Fill the hole at pointer `q` with a free block. */
  function MapBlock(w: Vol, n: nat, q: nat, b: nat): Vol
    requires w.IsInum(n) && |w.inodes| == w.geo.inodesCount && q < |w.Ino(n).blocks|
  {
    var ino := w.Ino(n);
    w.(freeBlocks := w.freeBlocks - {b}, inodes := w.inodes[n - 1 := ino.(blocks := ino.blocks[q := b])])
  }

  lemma MapBlockOk(w: Vol, n: nat, q: nat, b: nat)
    requires FileOk(w, n) && q < NR_DIRECT && w.Ino(n).blocks[q] == 0 && b in w.freeBlocks && b != 0
    ensures FileOk(MapBlock(w, n, q, b), n)
  {
  }

  lemma WrittenNothing(v: Vol, n: nat, from: nat, buf: seq<byte>)
    requires FileOk(v, n) && from <= Area(v)
    ensures Written(v, v, n, from, from, buf)
  {
    PointersInRange(v, n);
    assert v.inodes == v.inodes[n - 1 := v.Ino(n)];
    forall k: nat | k < Area(v)
      ensures ByteOk(v, v, n, from, from, buf, k)
    {
      QuotInArea(k, v.geo.blockSize);
    }
  }

  /** Filling a hole keeps what was written so far. */
  lemma MapBlockBytes(v: Vol, w: Vol, n: nat, from: nat, to: nat, buf: seq<byte>, q: nat, b: nat)
    requires Written(v, w, n, from, to, buf)
    requires q < NR_DIRECT && w.Ino(n).blocks[q] == 0 && b in w.freeBlocks && b != 0
    ensures FileOk(MapBlock(w, n, q, b), n) && Bytes(v, MapBlock(w, n, q, b), n, from, to, buf)
  {
    hide Data, Quot, Rem, Sectors;
    MapBlockOk(w, n, q, b);
    var x := MapBlock(w, n, q, b);
    PointersInRange(w, n);
    PointersInRange(x, n);
    forall k: nat | k < Area(v)
      ensures ByteOk(v, x, n, from, to, buf, k)
    {
      assert ByteOk(v, w, n, from, to, buf, k);
      assert w.disk[b := w.disk[b]] == w.disk;
      DataAfter(w.disk, v.geo.blockSize, w.Ino(n).blocks, NR_DIRECT, q, b, w.disk[b], k);
    }
  }

  lemma MapBlockWritten(v: Vol, w: Vol, n: nat, from: nat, to: nat, buf: seq<byte>, q: nat, b: nat)
    requires Written(v, w, n, from, to, buf)
    requires q < NR_DIRECT && w.Ino(n).blocks[q] == 0 && b in w.freeBlocks && b != 0
    ensures Written(v, MapBlock(w, n, q, b), n, from, to, buf)
  {
    MapBlockBytes(v, w, n, from, to, buf, q, b);
    var x := MapBlock(w, n, q, b);
    assert x.inodes == v.inodes[n - 1 := x.Ino(n)];
    MappedAfter(w.Ino(n).blocks, q, b);
  }

  lemma MappedAfter(blocks: seq<nat>, q: nat, b: nat)
    requires |blocks| == NR_BLOCKS && q < NR_DIRECT && blocks[q] == 0 && b != 0
    ensures Mapped(blocks[q := b]) == Mapped(blocks) + {b}
  {
    var after := blocks[q := b];
    forall c | c in Mapped(blocks) + {b}
      ensures c in Mapped(after)
    {
      if c == b {
        assert after[q] == b;
      } else {
        var i :| 0 <= i < NR_DIRECT && blocks[i] == c && c != 0;
        assert after[i] == c;
      }
    }
  }

  /** A write that ends past the end of the file extends it. */
  function Grow(ino: Inode, end: nat, blockSize: nat): Inode
    requires 0 < blockSize
  {
    if end > ino.size then ino.(size := end, i512 := Sectors(end, blockSize)) else ino
  }

  /** One turn of the loop in file_write(): the chunk lies inside one mapped block. */
  predicate ChunkFits(w: Vol, n: nat, off: nat, len: nat)
    requires FileOk(w, n)
  {
    PointersInRange(w, n);
    var q := Quot(off, w.geo.blockSize);
    q < NR_DIRECT && w.Ino(n).blocks[q] != 0 && Rem(off, w.geo.blockSize) + len <= w.geo.blockSize
  }

  function PutChunk(w: Vol, n: nat, off: nat, chunk: seq<byte>): Vol
    requires FileOk(w, n) && ChunkFits(w, n, off, |chunk|)
  {
    PointersInRange(w, n);
    var b := w.Ino(n).blocks[Quot(off, w.geo.blockSize)];
    w.(disk := w.disk[b := Splice(w.disk[b], Rem(off, w.geo.blockSize), chunk)],
    inodes := w.inodes[n - 1 := Grow(w.Ino(n), off + |chunk|, w.geo.blockSize)])
  }

  lemma PutChunkOk(w: Vol, n: nat, off: nat, chunk: seq<byte>)
    requires FileOk(w, n) && ChunkFits(w, n, off, |chunk|)
    ensures FileOk(PutChunk(w, n, off, chunk), n)
  {
    PointersInRange(w, n);
  }

  lemma PutChunkByte(v: Vol, w: Vol, n: nat, from: nat, to: nat, buf: seq<byte>, chunk: seq<byte>, k: nat)
    requires Written(v, w, n, from, to, buf) && ChunkFits(w, n, to, |chunk|)
    requires to - from + |chunk| <= |buf| && chunk == buf[to - from..to - from + |chunk|]
    requires k < Area(v) && FileOk(PutChunk(w, n, to, chunk), n)
    ensures ByteOk(v, PutChunk(w, n, to, chunk), n, from, to + |chunk|, buf, k)
  {
    hide Data, Sectors;
    var x := PutChunk(w, n, to, chunk);
    PointersInRange(w, n);
    PointersInRange(x, n);
    assert ByteOk(v, w, n, from, to, buf, k);
    assert x.Ino(n).blocks == w.Ino(n).blocks;
    DataSplice(w.disk, w.geo.blockSize, w.Ino(n).blocks, NR_DIRECT, to, chunk, k);
    StretchInBlock(to, |chunk|, w.geo.blockSize, k);
  }

  lemma PutChunkWritten(v: Vol, w: Vol, n: nat, from: nat, to: nat, buf: seq<byte>, chunk: seq<byte>, next: nat)
    requires Written(v, w, n, from, to, buf) && ChunkFits(w, n, to, |chunk|)
    requires next == to + |chunk| && to < next <= from + |buf| && chunk == buf[to - from..next - from]
    ensures Written(v, PutChunk(w, n, to, chunk), n, from, next, buf)
  {
    var x := PutChunk(w, n, to, chunk);
    PutChunkOk(w, n, to, chunk);
    forall k: nat | k < Area(v)
      ensures ByteOk(v, x, n, from, next, buf, k)
    {
      PutChunkByte(v, w, n, from, to, buf, chunk, k);
    }
    assert x.inodes == v.inodes[n - 1 := x.Ino(n)];
    PointersInRange(w, n);
    DataChunk(w.disk, w.geo.blockSize, w.Ino(n).blocks, NR_DIRECT, to, |chunk|);
    assert w.Ino(n).blocks[Quot(to, w.geo.blockSize)] in Mapped(w.Ino(n).blocks);
  }

  /** The lowest-numbered member. */
  ghost function Least(s: set<nat>): (m: nat)
    requires s != {}
    ensures m in s && forall x :: x in s ==> m <= x
  {
    LeastExists(s);
    var m :| IsLeast(s, m);
    m
  }

  predicate IsLeast(s: set<nat>, m: nat) { m in s && forall x :: x in s ==> m <= x }

  lemma {:induction false} LeastExists(s: set<nat>)
    requires s != {}
    ensures exists m :: IsLeast(s, m)
  {
    var x :| x in s;
    var rest := s - {x};
    assert forall y :: y in s ==> y == x || y in rest;
    if rest == {} {
      assert IsLeast(s, x);
    } else {
      LeastExists(rest);
      var m :| IsLeast(rest, m);
      assert IsLeast(s, if m < x then m else x);
    }
  }

  /** One turn of the loop in file_write(); None when a block is needed and none is free. */
  ghost function ChunkStep(v: Vol, n: nat, off: nat, chunk: seq<byte>): (r: Option<Vol>)
    requires FileOk(v, n)
    requires (PointersInRange(v, n); Quot(off, v.geo.blockSize) < NR_DIRECT &&
                                     Rem(off, v.geo.blockSize) + |chunk| <= v.geo.blockSize)
    ensures r.Some? ==> FileOk(r.value, n) && r.value.geo == v.geo
  {
    PointersInRange(v, n);
    var q := Quot(off, v.geo.blockSize);
    if v.Ino(n).blocks[q] != 0 then
      PutChunkOk(v, n, off, chunk);
      Some(PutChunk(v, n, off, chunk))
    else if v.freeBlocks == {} then None
    else
      var b := Least(v.freeBlocks);
      FreeNotZero(v, b);
      MapBlockOk(v, n, q, b);
      PutChunkOk(MapBlock(v, n, q, b), n, off, chunk);
      Some(PutChunk(MapBlock(v, n, q, b), n, off, chunk))
  }

  lemma FreeNotZero(v: Vol, b: nat)
    requires v.Shape() && b in v.freeBlocks
    ensures b != 0
  {
    assert v.geo.Ok();
  }

  lemma StepWritten(v: Vol, w: Vol, x: Vol, n: nat, from: nat, to: nat, buf: seq<byte>, chunk: seq<byte>, next: nat)
    requires Written(v, w, n, from, to, buf) && 0 < w.geo.blockSize && Quot(to, w.geo.blockSize) < NR_DIRECT
    requires Rem(to, w.geo.blockSize) + |chunk| <= w.geo.blockSize
    requires next == to + |chunk| && to < next <= from + |buf| && chunk == buf[to - from..next - from]
    requires ChunkStep(w, n, to, chunk) == Some(x)
    ensures Written(v, x, n, from, next, buf)
    ensures forall i :: 0 <= i < NR_BLOCKS && i != Quot(to, w.geo.blockSize) ==>
                          x.Ino(n).blocks[i] == w.Ino(n).blocks[i]
    ensures |x.freeBlocks| == |w.freeBlocks| - if w.Ino(n).blocks[Quot(to, w.geo.blockSize)] == 0 then 1 else 0
  {
    PointersInRange(w, n);
    var q := Quot(to, w.geo.blockSize);
    if w.Ino(n).blocks[q] == 0 {
      var b := Least(w.freeBlocks);
      FreeNotZero(w, b);
      MapBlockWritten(v, w, n, from, to, buf, q, b);
      PutChunkWritten(v, MapBlock(w, n, q, b), n, from, to, buf, chunk, next);
    } else {
      PutChunkWritten(v, w, n, from, to, buf, chunk, next);
    }
  }

  /** The holes among pointers lo .. hi - 1. */
  function Holes(blocks: seq<nat>, lo: nat, hi: nat): nat
    requires lo <= hi <= |blocks|
  {
    if lo == hi then 0 else Holes(blocks, lo, hi - 1) + if blocks[hi - 1] == 0 then 1 else 0
  }

  /** Holes are the pointers that are 0. */
  lemma {:induction false} HolesCount(blocks: seq<nat>, lo: nat, hi: nat)
    requires lo <= hi <= |blocks|
    ensures Holes(blocks, lo, hi) == |Unmapped(blocks, lo, hi)|
  {
    if lo < hi {
      HolesCount(blocks, lo, hi - 1);
      var before := Unmapped(blocks, lo, hi - 1);
      assert Unmapped(blocks, lo, hi) == before + if blocks[hi - 1] == 0 then {hi - 1} else {};
      assert hi - 1 !in before;
    }
  }

  function Unmapped(blocks: seq<nat>, lo: nat, hi: nat): set<nat>
    requires hi <= |blocks|
  {
    set q: nat | lo <= q < hi && blocks[q] == 0
  }

  lemma HolesMonotone(blocks: seq<nat>, lo: nat, mid: nat, hi: nat)
    requires lo <= mid <= hi <= |blocks|
    ensures Holes(blocks, lo, mid) <= Holes(blocks, lo, hi)
  {
    if mid < hi {
      HolesMonotone(blocks, lo, mid, hi - 1);
    }
  }

  /** How many blocks a write of `len` bytes at `offset` must allocate. */
  function Needed(v: Vol, n: nat, offset: nat, len: nat): nat
    requires FileOk(v, n) && offset + len <= Area(v)
  {
    PointersInRange(v, n);
    if len == 0 then 0
    else
      var size := v.geo.blockSize;
      QuotMonotone(offset, offset + len - 1, size);
      QuotInArea(offset + len - 1, size);
      Holes(v.Ino(n).blocks, Quot(offset, size), Quot(offset + len - 1, size) + 1)
  }

  /** A write needs one block for each pointer that is 0 among those of the blocks it touches. */
  lemma NeededCount(v: Vol, n: nat, offset: nat, len: nat)
    requires FileOk(v, n) && offset + len <= Area(v) && 0 < len && 0 < v.geo.blockSize
    ensures var size, blocks := v.geo.blockSize, v.Ino(n).blocks;
            offset / size <= (offset + len - 1) / size < |blocks| &&
            Needed(v, n, offset, len) == |Unmapped(blocks, offset / size, (offset + len - 1) / size + 1)|
  {
    var size := v.geo.blockSize;
    PointersInRange(v, n);
    QuotMonotone(offset, offset + len - 1, size);
    QuotInArea(offset + len - 1, size);
    HolesCount(v.Ino(n).blocks, Quot(offset, size), Quot(offset + len - 1, size) + 1);
    QuotIsDiv(offset, size);
    QuotIsDiv(offset + len - 1, size);
    hide Quot, Holes, FileOk;
  }

  /** Bookkeeping of the loop in file_write(): pointers below `i` are done, each hole cost one block. */
  predicate Progress(v: Vol, w: Vol, n: nat, from: nat, to: nat, end: nat, i: nat)
    requires FileOk(v, n) && FileOk(w, n)
  {
    PointersInRange(v, n);
    var size, p := v.geo.blockSize, v.Ino(n).blocks;
    && from <= to <= end <= Area(v) && from < Area(v)
    && Quot(from, size) <= i <= NR_DIRECT
    && (to < end ==> i == Quot(to, size))
    && (if from < to then i == Quot(to - 1, size) + 1 else i == Quot(from, size))
    && (forall j :: i <= j < NR_DIRECT ==> w.Ino(n).blocks[j] == p[j])
    && |w.freeBlocks| + Holes(p, Quot(from, size), i) == |v.freeBlocks|
  }

  lemma ProgressStart(v: Vol, n: nat, from: nat, end: nat)
    requires FileOk(v, n) && from <= end <= Area(v) && from < Area(v)
    ensures 0 < v.geo.blockSize && Progress(v, v, n, from, from, end, Quot(from, v.geo.blockSize))
  {
    PointersInRange(v, n);
    QuotInArea(from, v.geo.blockSize);
  }

  /** The chunk that the loop writes next. */
  function ChunkLen(off: nat, end: nat, size: nat): nat
    requires 0 < size && off <= end
  {
    Min(size - Rem(off, size), end - off)
  }

  lemma ChunkEnds(off: nat, end: nat, size: nat)
    requires 0 < size && off < end
    ensures 0 < ChunkLen(off, end, size) && off + ChunkLen(off, end, size) <= end
    ensures Rem(off, size) + ChunkLen(off, end, size) <= size
    ensures Quot(off + ChunkLen(off, end, size) - 1, size) == Quot(off, size)
    ensures off + ChunkLen(off, end, size) < end ==> Quot(off + ChunkLen(off, end, size), size) == Quot(off, size) + 1
  {
    var len := ChunkLen(off, end, size);
    StretchInBlock(off, len, size, off + len - 1);
    QuotRem(off, size);
    QuotRemUnique(Quot(off, size) + 1, size, 0);
  }

  lemma ProgressStep(v: Vol, w: Vol, x: Vol, n: nat, from: nat, to: nat, end: nat, i: nat, next: nat)
    requires FileOk(v, n) && FileOk(w, n) && FileOk(x, n) && Progress(v, w, n, from, to, end, i)
    requires to < end && w.geo == v.geo && 0 < v.geo.blockSize && Quot(to, v.geo.blockSize) < NR_DIRECT
    requires forall j :: 0 <= j < NR_DIRECT && j != i ==> x.Ino(n).blocks[j] == w.Ino(n).blocks[j]
    requires |x.freeBlocks| == |w.freeBlocks| - if w.Ino(n).blocks[i] == 0 then 1 else 0
    requires next == to + ChunkLen(to, end, v.geo.blockSize)
    ensures Progress(v, x, n, from, next, end, i + 1)
  {
    ChunkEnds(to, end, v.geo.blockSize);
    PointersInRange(v, n);
  }

  /** The write succeeds exactly when there are free blocks for all its holes. */
  lemma ProgressEnd(v: Vol, w: Vol, n: nat, from: nat, to: nat, end: nat, i: nat)
    requires FileOk(v, n) && FileOk(w, n) && Progress(v, w, n, from, to, end, i)
    ensures to == end ==> Needed(v, n, from, end - from) <= |v.freeBlocks|
    ensures to < end && w.freeBlocks == {} && i < NR_DIRECT && w.Ino(n).blocks[i] == 0 ==>
              Needed(v, n, from, end - from) > |v.freeBlocks|
  {
    PointersInRange(v, n);
    var size := v.geo.blockSize;
    if to < end && w.freeBlocks == {} && i < NR_DIRECT && w.Ino(n).blocks[i] == 0 {
      QuotMonotone(to, end - 1, size);
      QuotInArea(end - 1, size);
      HolesMonotone(v.Ino(n).blocks, Quot(from, size), i + 1, Quot(end - 1, size) + 1);
    }
  }

  /** So far the write has taken exactly one block for every hole it met. */
  lemma ProgressTakes(v: Vol, w: Vol, n: nat, from: nat, to: nat, end: nat, i: nat)
    requires FileOk(v, n) && FileOk(w, n) && Progress(v, w, n, from, to, end, i)
    ensures |w.freeBlocks| + Needed(v, n, from, to - from) == |v.freeBlocks|
  {
    PointersInRange(v, n);
  }

  /** The invariant of the loop in file_write(). */
  ghost predicate Writing(v: Vol, w: Vol, n: nat, from: nat, to: nat, end: nat, buf: seq<byte>, i: nat) {
    Written(v, w, n, from, to, buf) && end - from <= |buf| && Progress(v, w, n, from, to, end, i)
  }

  lemma WritingStart(v: Vol, n: nat, from: nat, end: nat, buf: seq<byte>)
    requires FileOk(v, n) && from <= end <= Area(v) && from < Area(v) && end - from <= |buf|
    ensures 0 < v.geo.blockSize && Writing(v, v, n, from, from, end, buf, Quot(from, v.geo.blockSize))
  {
    WrittenNothing(v, n, from, buf);
    ProgressStart(v, n, from, end);
  }

  /** What the loop body may rely on. */
  lemma WritingChunk(v: Vol, w: Vol, n: nat, from: nat, to: nat, end: nat, buf: seq<byte>, i: nat)
    requires Writing(v, w, n, from, to, end, buf, i) && to < end
    ensures FileOk(w, n) && w.geo == v.geo && 0 < v.geo.blockSize
    ensures i == Quot(to, v.geo.blockSize) < NR_DIRECT
    ensures var len := ChunkLen(to, end, v.geo.blockSize);
            0 < len && to + len <= end && Rem(to, v.geo.blockSize) + len <= v.geo.blockSize
  {
    PointersInRange(v, n);
    ChunkEnds(to, end, v.geo.blockSize);
    QuotInArea(to, v.geo.blockSize);
  }

  lemma WritingStep(v: Vol, w: Vol, x: Vol, n: nat, from: nat, to: nat, end: nat, buf: seq<byte>, i: nat,
                    chunk: seq<byte>, next: nat)
    requires Writing(v, w, n, from, to, end, buf, i) && to < end && 0 < w.geo.blockSize
    requires next == to + |chunk| <= end && |chunk| == ChunkLen(to, end, w.geo.blockSize) &&
             chunk == buf[to - from..next - from]
    requires Quot(to, w.geo.blockSize) < NR_DIRECT && Rem(to, w.geo.blockSize) + |chunk| <= w.geo.blockSize
    requires ChunkStep(w, n, to, chunk) == Some(x)
    ensures Writing(v, x, n, from, next, end, buf, i + 1)
  {
    WritingChunk(v, w, n, from, to, end, buf, i);
    StepWritten(v, w, x, n, from, to, buf, chunk, next);
    ProgressStep(v, w, x, n, from, to, end, i, next);
  }

  /** One turn of the loop, whether or not a block could be allocated. */
  lemma WritingTurn(v: Vol, w: Vol, n: nat, from: nat, to: nat, end: nat, buf: seq<byte>, i: nat,
                    chunk: seq<byte>, next: nat)
    requires Writing(v, w, n, from, to, end, buf, i) && to < end && 0 < w.geo.blockSize
    requires next == to + |chunk| <= end && |chunk| == ChunkLen(to, end, w.geo.blockSize) &&
             chunk == buf[to - from..next - from]
    requires Quot(to, w.geo.blockSize) < NR_DIRECT && Rem(to, w.geo.blockSize) + |chunk| <= w.geo.blockSize
    ensures FileOk(v, n) && FileOk(w, n)
    ensures var step := ChunkStep(w, n, to, chunk);
            if step.Some? then Writing(v, step.value, n, from, next, end, buf, i + 1)
            else
              && Needed(v, n, from, end - from) > |v.freeBlocks| && Written(v, w, n, from, to, buf)
              && |w.freeBlocks| + Needed(v, n, from, to - from) == |v.freeBlocks|
              && (from < to ==> Quot(from, w.geo.blockSize) < Quot(to, w.geo.blockSize))
  {
    var step := ChunkStep(w, n, to, chunk);
    if step.Some? {
      WritingStep(v, w, step.value, n, from, to, end, buf, i, chunk, next);
    } else {
      ProgressEnd(v, w, n, from, to, end, i);
      ProgressTakes(v, w, n, from, to, end, i);
      if from < to {
        QuotMonotone(from, to - 1, w.geo.blockSize);
      }
    }
  }

  lemma WritingDone(v: Vol, w: Vol, n: nat, from: nat, end: nat, buf: seq<byte>, i: nat)
    requires Writing(v, w, n, from, end, end, buf, i)
    ensures Written(v, w, n, from, end, buf) && |w.freeBlocks| + Needed(v, n, from, end - from) == |v.freeBlocks|
  {
    ProgressTakes(v, w, n, from, end, end, i);
  }

  /** The bytes of a file up to its size. */
  function Content(v: Vol, n: nat): (r: seq<byte>)
    requires FileOk(v, n) && v.Ino(n).size <= Area(v)
    ensures |r| == v.Ino(n).size
  {
    PointersInRange(v, n);
    FileData(v, n)[..v.Ino(n).size]
  }

  /** Reading back the stretch that was written yields the buffer. */
  lemma ReadBack(v: Vol, w: Vol, n: nat, from: nat, to: nat, buf: seq<byte>)
    requires Written(v, w, n, from, to, buf) && v.Ino(n).size <= Area(v)
    ensures from < to ==> w.Ino(n).size <= Area(w) && to <= w.Ino(n).size
    ensures from < to ==> Content(w, n)[from..to] == buf[..to - from]
  {
    if from < to {
      PointersInRange(w, n);
      var got := Content(w, n)[from..to];
      forall k | 0 <= k < to - from
        ensures got[k] == buf[k]
      {
        assert ByteOk(v, w, n, from, to, buf, from + k);
      }
    }
  }

  /** Every block below the end of the file is mapped. */
  predicate NoHoles(v: Vol, n: nat)
    requires FileOk(v, n)
  {
    PointersInRange(v, n);
    forall k: nat :: k < v.Ino(n).size ==>
                       Quot(k, v.geo.blockSize) < NR_DIRECT && v.Ino(n).blocks[Quot(k, v.geo.blockSize)] != 0
  }

  /** A write inside a file without holes needs no block. */
  lemma NothingNeeded(v: Vol, n: nat, offset: nat, len: nat)
    requires FileOk(v, n) && NoHoles(v, n) && offset + len <= v.Ino(n).size <= Area(v)
    ensures Needed(v, n, offset, len) == 0
  {
    PointersInRange(v, n);
    if len > 0 {
      var size := v.geo.blockSize;
      QuotMonotone(offset, offset + len - 1, size);
      QuotInArea(offset + len - 1, size);
      NoHolesBetween(v, n, Quot(offset, size), Quot(offset + len - 1, size) + 1, offset + len - 1);
    }
  }

  lemma {:induction false} NoHolesBetween(v: Vol, n: nat, lo: nat, hi: nat, last: nat)
    requires FileOk(v, n) && NoHoles(v, n) && lo <= hi <= NR_DIRECT && last < v.Ino(n).size
    requires 0 < v.geo.blockSize && hi <= Quot(last, v.geo.blockSize) + 1
    ensures |v.Ino(n).blocks| == NR_BLOCKS && Holes(v.Ino(n).blocks, lo, hi) == 0
  {
    PointersInRange(v, n);
    if lo < hi {
      var size := v.geo.blockSize;
      NoHolesBetween(v, n, lo, hi - 1, last);
      QuotRem(last, size);
      TimesMonotone(hi - 1, Quot(last, size), size);
      QuotRemUnique(hi - 1, size, 0);
      assert Times(hi - 1, size) < v.Ino(n).size;
    }
  }

  /** The sequence that results from writing `t` at `at`, byte by byte, extending `s` if necessary. */
  function Overwrite(s: seq<byte>, at: nat, t: seq<byte>): (r: seq<byte>)
    requires at <= |s|
    ensures |r| == Max(|s|, at + |t|)
    decreases |t|
  {
    if t == [] then s
    else
      var l := |t| - 1;
      var r := Overwrite(s, at, t[..l]);
      if at + l < |r| then r[at + l := t[l]] else r + [t[l]]
  }

  lemma {:induction false} OverwriteAt(s: seq<byte>, at: nat, t: seq<byte>)
    requires at <= |s|
    ensures forall k :: 0 <= k < at || at + |t| <= k < |s| ==> Overwrite(s, at, t)[k] == s[k]
    ensures forall k :: at <= k < at + |t| ==> Overwrite(s, at, t)[k] == t[k - at]
  {
    if t != [] {
      OverwriteAt(s, at, t[..|t| - 1]);
    }
  }

  /** On a file without holes, a write that starts inside the file or at its end overwrites its content. */
  lemma WrittenContent(v: Vol, w: Vol, n: nat, from: nat, to: nat, buf: seq<byte>)
    requires Written(v, w, n, from, to, buf) && NoHoles(v, n)
    requires from <= v.Ino(n).size <= Area(v)
    ensures w.Ino(n).size <= Area(w) && NoHoles(w, n)
    ensures Content(w, n) == Overwrite(Content(v, n), from, buf[..to - from])
  {
    PointersInRange(v, n);
    PointersInRange(w, n);
    var got, want := Content(w, n), Overwrite(Content(v, n), from, buf[..to - from]);
    OverwriteAt(Content(v, n), from, buf[..to - from]);
    forall k: nat | k < w.Ino(n).size
      ensures got[k] == want[k]
      ensures Quot(k, v.geo.blockSize) < NR_DIRECT && w.Ino(n).blocks[Quot(k, v.geo.blockSize)] != 0
    {
      assert ByteOk(v, w, n, from, to, buf, k);
      assert k < v.Ino(n).size || from <= k < to;
    }
  }

  /** The copying loop of file_read(). */
  method ReadBlocks(disk: seq<Block>, size: nat, blocks: seq<nat>, offset: nat, len: nat) returns (buf: seq<byte>)
    requires |blocks| == NR_BLOCKS && (forall i :: 0 <= i < NR_DIRECT ==> blocks[i] < |disk|)
    requires 0 < size && DiskShape(disk, |disk|, size) && offset + len <= NR_DIRECT * size
    ensures |Data(disk, blocks, NR_DIRECT)| == NR_DIRECT * size
    ensures buf == Data(disk, blocks, NR_DIRECT)[offset..offset + len]
  {
    hide Data, Quot, Rem, Times;
    DataLength(disk, size, blocks, NR_DIRECT);
    TimesIsMul(NR_DIRECT, size);
    ghost var data := Data(disk, blocks, NR_DIRECT);
    buf := [];
    var off: nat, left: nat := offset, len;
    while left != 0
      invariant off + left == offset + len && offset <= off
      invariant buf == data[offset..off]
    {
      QuotInArea(off, size);
      var q, r := Quot(off, size), Rem(off, size);
      var chunk: nat := Min(size - r, left);
      DataChunk(disk, size, blocks, NR_DIRECT, off, chunk);
      buf := buf + disk[blocks[q]][r..r + chunk];
      left := left - chunk;
      off := off + chunk;
    }
  }

  /** Everything that writing to file `n` may change. */
  predicate Touched(v: Vol, w: Vol, n: nat) {
    && FileOk(v, n) && FileOk(w, n)
    && w.geo == v.geo && w.freeInodes == v.freeInodes && w.groupDirs == v.groupDirs
    && w.inodes == v.inodes[n - 1 := w.Ino(n)]
    && w.Ino(n).kind == v.Ino(n).kind && w.Ino(n).links == v.Ino(n).links
    && w.Ino(n).blocks[NR_DIRECT..] == v.Ino(n).blocks[NR_DIRECT..]
    && w.freeBlocks <= v.freeBlocks
    && (forall i :: 0 <= i < NR_DIRECT ==> PointerKept(v, w, n, i))
    && Mapped(w.Ino(n).blocks) == Mapped(v.Ino(n).blocks) + (v.freeBlocks - w.freeBlocks)
    && (forall b :: 0 <= b < |v.disk| && b !in Mapped(w.Ino(n).blocks) ==> w.disk[b] == v.disk[b])
  }

  /** Pointer `i` keeps its value, or it was 0 and has a block that was free and is not any more. */
  predicate PointerKept(v: Vol, w: Vol, n: nat, i: nat)
    requires FileOk(v, n) && FileOk(w, n) && i < NR_DIRECT
  {
    var p, q := v.Ino(n).blocks[i], w.Ino(n).blocks[i];
    q == p || (p == 0 && q in v.freeBlocks && q !in w.freeBlocks)
  }

  /** Without a block taken, all pointers are as they were. */
  lemma SamePointers(v: Vol, w: Vol, n: nat)
    requires Touched(v, w, n) && w.freeBlocks == v.freeBlocks
    ensures w.Ino(n).blocks == v.Ino(n).blocks
  {
    var p, q := v.Ino(n).blocks, w.Ino(n).blocks;
    forall i | 0 <= i < NR_BLOCKS
      ensures q[i] == p[i]
    {
      if i < NR_DIRECT {
        assert PointerKept(v, w, n, i);
      } else {
        assert q[NR_DIRECT..][i - NR_DIRECT] == p[NR_DIRECT..][i - NR_DIRECT];
      }
    }
  }

  lemma WrittenTouched(v: Vol, w: Vol, n: nat, from: nat, to: nat, buf: seq<byte>)
    requires Written(v, w, n, from, to, buf)
    ensures Touched(v, w, n)
  {
    var p, q := v.Ino(n).blocks, w.Ino(n).blocks;
    forall b | b in Mapped(p)
      ensures b in Mapped(q)
    {
      var i :| 0 <= i < NR_DIRECT && p[i] != 0 && p[i] == b;
      assert q[i] == b;
    }
    forall b | b in Mapped(q)
      ensures b in Mapped(p) || (b in v.freeBlocks && b !in w.freeBlocks)
    {
      var i :| 0 <= i < NR_DIRECT && q[i] != 0 && q[i] == b;
      if q[i] == p[i] {
        assert b in Mapped(p);
      } else {
        assert w.IsData(b);
      }
    }
    forall i | 0 <= i < NR_DIRECT
      ensures PointerKept(v, w, n, i)
    {
      assert q[i] != p[i] ==> w.IsData(q[i]);
    }
  }

  lemma TouchedTrans(v: Vol, w: Vol, x: Vol, n: nat)
    requires Touched(v, w, n) && Touched(w, x, n)
    ensures Touched(v, x, n)
  {
    forall i | 0 <= i < NR_DIRECT
      ensures PointerKept(v, x, n, i)
    {
      assert PointerKept(v, w, n, i) && PointerKept(w, x, n, i);
    }
    assert x.inodes == v.inodes[n - 1 := x.Ino(n)];
  }

  /** Writing one file leaves the bytes of a file with other blocks alone. */
  lemma OtherFile(v: Vol, w: Vol, n: nat, m: nat)
    requires Touched(v, w, n) && FileOk(v, m) && m != n
    requires Mapped(v.Ino(m).blocks) !! Mapped(v.Ino(n).blocks)
    ensures FileOk(w, m) && w.Ino(m) == v.Ino(m) && FileData(w, m) == FileData(v, m)
  {
    PointersInRange(v, m);
    var p := v.Ino(m).blocks;
    forall i | 0 <= i < NR_DIRECT
      ensures w.disk[p[i]] == v.disk[p[i]] && (p[i] != 0 ==> w.IsData(p[i]))
    {
      assert p[i] != 0 ==> p[i] in Mapped(p);
    }
    DataFrame(v.disk, w.disk, p, NR_DIRECT);
  }
}
