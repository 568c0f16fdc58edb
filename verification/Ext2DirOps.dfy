/** find_dir_entry(), ext2_new_dir_entry() and file_delete() of ext2/ext2.c. */
module Ext2DirOps {
  import opened Arith
  import opened Bitmap
  import opened Ext2Vol
  import opened Ext2File
  import opened Ext2Dir
  import opened Ext2DirWrite
  import opened Ext2Core

  function Lim(v: Vol): Limits { Limits(v.geo.blockSize, v.geo.inodesCount) }

  /** A directory file within the direct blocks, every block of it mapped. */
  predicate DirFile(v: Vol, n: nat) {
    FileOk(v, n) && v.Ino(n).kind == Directory && v.Ino(n).size <= Area(v) && NoHoles(v, n)
  }

  /** The bytes of a directory. */
  function DirBytes(v: Vol, n: nat): seq<byte>
    requires DirFile(v, n)
  {
    Content(v, n)
  }

  lemma BlockSizePositive(v: Vol, n: nat)
    requires FileOk(v, n)
    ensures 0 < v.geo.blockSize && v.geo.Ok() && |v.inodes| == v.geo.inodesCount
  {
  }

  /** dir_entry_valid() on the bytes read at `off` of a directory of `size` bytes. */
  predicate EntryOk(ent: seq<byte>, off: nat, size: nat, l: Limits)
    requires 0 < l.blockSize
  {
    && HEADER <= |ent|
    && Rem(off, 4) == 0 && Rem(ERec(ent, 0), 4) == 0
    && 12 <= ERec(ent, 0) && MinLen(ENameLen(ent, 0)) <= ERec(ent, 0)
    && ERec(ent, 0) + Rem(off, l.blockSize) <= l.blockSize
    && off + ERec(ent, 0) <= size
    && EIno(ent, 0) <= l.inodes
  }

  /** What a read of one struct dir_entry shows is what the directory holds there. */
  lemma EntryRead(d: seq<byte>, l: Limits, off: nat, ent: seq<byte>)
    requires 0 < l.blockSize && off < |d| && ent == d[off..Min(off + ENTRY_SIZE, |d|)]
    ensures EntryOk(ent, off, |d|, l) == ValidAt(d, l, off)
    ensures ValidAt(d, l, off) ==> EIno(ent, 0) == EIno(d, off) && ERec(ent, 0) == ERec(d, off)
    ensures ValidAt(d, l, off) ==> ENameLen(ent, 0) == ENameLen(d, off) && HEADER + ENameLen(d, off) <= |ent|
    ensures ValidAt(d, l, off) ==> ent[HEADER..HEADER + ENameLen(d, off)] == EName(d, off)
  {
    if ValidAt(d, l, off) {
      EntryName(d, off, ent);
    }
  }

  lemma EntryName(d: seq<byte>, off: nat, ent: seq<byte>)
    requires off + HEADER <= |d| && off + HEADER + ENameLen(d, off) <= |d| && ent == d[off..Min(off + ENTRY_SIZE, |d|)]
    ensures HEADER + ENameLen(d, off) <= |ent| && ent[HEADER..HEADER + ENameLen(d, off)] == EName(d, off)
  {
    SliceIs(d, off + HEADER, ENameLen(d, off));
    SubSlice(d, off, Min(off + ENTRY_SIZE, |d|), HEADER, HEADER + ENameLen(d, off));
  }

  /** The comparisons of find_dir_entry() with an unused record and with the wanted name. */
  predicate EntryNamed(ent: seq<byte>, name: seq<byte>)
    requires HEADER <= |ent| && HEADER + ENameLen(ent, 0) <= |ent|
  {
    EIno(ent, 0) != 0 && ENameLen(ent, 0) == |name| && ent[HEADER..HEADER + |name|] == name
  }

  /** One turn of the search in find_dir_entry(). */
  lemma SearchTurn(d: seq<byte>, l: Limits, off: nat, ent: seq<byte>, name: seq<byte>)
    requires 0 < l.blockSize && off <= |d| && ent == d[off..Min(off + ENTRY_SIZE, |d|)]
    ensures |ent| == 0 ==> Lookup(Parse(d, l, off), name) == Miss
    ensures |ent| != 0 && !EntryOk(ent, off, |d|, l) ==> Lookup(Parse(d, l, off), name) == Bad
    ensures |ent| != 0 && EntryOk(ent, off, |d|, l) ==>
              && HEADER + ENameLen(ent, 0) <= |ent| && off + ERec(ent, 0) <= |d|
              && Lookup(Parse(d, l, off), name) ==
                 if EntryNamed(ent, name) then Hit(EIno(ent, 0), off) else Lookup(Parse(d, l, off + ERec(ent, 0)), name)
  {
    LookupStep(d, l, off, name);
    if |ent| != 0 {
      EntryRead(d, l, off, ent);
    }
  }

  /** find_dir_entry(): the first live record with that name. */
  method FindDirEntry(fs: Ext2, n: nat, name: seq<byte>) returns (r: Found)
    requires DirFile(fs.View(), n) && 0 < fs.geo.blockSize
    ensures r == if 0 < |name| <= NAME_MAX then Lookup(Parse(DirBytes(fs.View(), n), Lim(fs.View()), 0), name) else Miss
  {
    hide FileOk, NoHoles, Parse, Lookup, ValidAt, EntryOk, Content, Rem, EName;
    if |name| == 0 || |name| > NAME_MAX {
      return Miss;
    }
    ghost var d := DirBytes(fs.View(), n);
    var l := Limits(fs.geo.blockSize, fs.geo.inodesCount);
    var size := DirSize(fs, n);
    var off := 0;
    while true
      invariant off <= |d| && Lookup(Parse(d, l, off), name) == Lookup(Parse(d, l, 0), name)
      decreases |d| - off
    {
      var ent := ReadEntry(fs, n, off);
      SearchTurn(d, l, off, ent, name);
      if |ent| == 0 {
        return Miss;
      }
      if !EntryOk(ent, off, size, l) {
        return Bad;
      }
      EntryRead(d, l, off, ent);
      LaterValid(d, l, off);
      if EntryNamed(ent, name) {
        return Hit(EIno(ent, 0), off);
      }
      off := off + ERec(ent, 0);
    }
  }

  /** file_read() of one struct dir_entry. */
  method ReadEntry(fs: Ext2, n: nat, off: nat) returns (ent: seq<byte>)
    requires DirFile(fs.View(), n) && off <= |DirBytes(fs.View(), n)|
    ensures ent == DirBytes(fs.View(), n)[off..Min(off + ENTRY_SIZE, |DirBytes(fs.View(), n)|)]
  {
    BlockSizePositive(fs.View(), n);
    ent := fs.FileRead(n, off, ENTRY_SIZE);
  }

  method DirSize(fs: Ext2, n: nat) returns (size: nat)
    requires DirFile(fs.View(), n)
    ensures size == |DirBytes(fs.View(), n)|
  {
    size := fs.inodes[n - 1].size;
  }

  /** The last record is at `lo`, and the struct holds what its read and the earlier ones left. */
  predicate LastRead(d: seq<byte>, l: Limits, lo: nat, entry: seq<byte>)
    requires 0 < l.blockSize
  {
    LastAt(d, l, lo) && entry == ReadInto(d, lo, Scanned(d, l, 0, lo, Zeros(ENTRY_SIZE)))
  }

  /** The scan has read the records up to `off`, the last one at `lo`. */
  predicate ReadUpTo(d: seq<byte>, l: Limits, lo: nat, off: nat, entry: seq<byte>)
    requires 0 < l.blockSize
  {
    && off <= |d| && Reach(d, l, 0, off) && |entry| == ENTRY_SIZE
    && (off == 0 ==> lo == 0 && entry == Zeros(ENTRY_SIZE))
    && (off > 0 ==>
          && Reach(d, l, 0, lo) && ValidAt(d, l, lo) && lo + ERec(d, lo) == off
          && entry == ReadInto(d, lo, Scanned(d, l, 0, lo, Zeros(ENTRY_SIZE))))
  }

  /** One turn of the scan. */
  lemma ScanTurn(d: seq<byte>, l: Limits, lo: nat, off: nat, entry: seq<byte>, ent: seq<byte>)
    requires 0 < l.blockSize && ReadUpTo(d, l, lo, off, entry) && ent == d[off..Min(off + ENTRY_SIZE, |d|)]
    ensures off == |d| ==> Parse(d, l, 0).ok && (off > 0 ==> lo < |d| && LastRead(d, l, lo, entry))
    ensures off < |d| && !ValidAt(d, l, off) ==> !Parse(d, l, 0).ok
    ensures off < |d| && ValidAt(d, l, off) ==> ReadUpTo(d, l, off, off + ERec(d, off), ent + entry[|ent|..])
    ensures off < |d| && ValidAt(d, l, off) ==> off < off + ERec(d, off) <= |d|
  {
    hide Zeros, Rem, Scanned, Upto, EIno, EName, MinLen;
    ParseSplit(d, l, 0, off);
    if off < |d| && ValidAt(d, l, off) {
      ScanNext(d, l, lo, off, entry, ent);
    }
  }

  lemma ScanNext(d: seq<byte>, l: Limits, lo: nat, off: nat, entry: seq<byte>, ent: seq<byte>)
    requires 0 < l.blockSize && ReadUpTo(d, l, lo, off, entry) && ent == d[off..Min(off + ENTRY_SIZE, |d|)]
    requires off < |d| && ValidAt(d, l, off)
    ensures ReadUpTo(d, l, off, off + ERec(d, off), ent + entry[|ent|..])
  {
    hide Zeros, Rem, Scanned, Parse, EIno, EName, MinLen;
    ScannedLast(d, l, lo, off, entry);
    ReachExtend(d, l, 0, off);
    hide Reach;
    assert ent + entry[|ent|..] == ReadInto(d, off, entry);
  }

  lemma ScannedLast(d: seq<byte>, l: Limits, lo: nat, off: nat, entry: seq<byte>)
    requires 0 < l.blockSize && ReadUpTo(d, l, lo, off, entry)
    ensures entry == Scanned(d, l, 0, off, Zeros(ENTRY_SIZE))
  {
    if off > 0 {
      ScannedStep(d, l, 0, lo, Zeros(ENTRY_SIZE), off);
    }
  }

  lemma NothingRead(d: seq<byte>, l: Limits)
    requires 0 < l.blockSize
    ensures ReadUpTo(d, l, 0, 0, Zeros(ENTRY_SIZE))
  {
    hide Zeros;
  }

  /** The scan of ext2_new_dir_entry() for the last record, and the struct it leaves. */
  method ScanLast(fs: Ext2, n: nat) returns (ok: bool, lo: nat, entry: seq<byte>)
    requires DirFile(fs.View(), n) && 0 < fs.geo.blockSize
    ensures ok == Parse(DirBytes(fs.View(), n), Lim(fs.View()), 0).ok
    ensures ok && |DirBytes(fs.View(), n)| > 0 ==> LastRead(DirBytes(fs.View(), n), Lim(fs.View()), lo, entry)
    ensures |DirBytes(fs.View(), n)| == 0 ==> lo == 0
    ensures |entry| == ENTRY_SIZE && (ok && |DirBytes(fs.View(), n)| > 0 ==> lo < |DirBytes(fs.View(), n)|)
  {
    hide FileOk, NoHoles, Parse, LastRead, ValidAt, EntryOk, ReadUpTo, Zeros, ERec, ENameLen, EIno, Content, Rem;
    ghost var d := DirBytes(fs.View(), n);
    var l := Limits(fs.geo.blockSize, fs.geo.inodesCount);
    var size := DirSize(fs, n);
    var off := 0;
    lo, entry := 0, Zeros(ENTRY_SIZE);
    NothingRead(d, l);
    while true
      invariant off <= |d| && |entry| == ENTRY_SIZE && ReadUpTo(d, l, lo, off, entry) && (|d| == 0 ==> lo == 0)
      decreases |d| - off
    {
      var ent := ReadEntry(fs, n, off);
      ScanTurn(d, l, lo, off, entry, ent);
      if |ent| == 0 {
        return true, lo, entry;
      }
      EntryRead(d, l, off, ent);
      if !EntryOk(ent, off, size, l) {
        return false, lo, entry;
      }
      entry := ent + entry[|ent|..];
      lo, off := off, off + ERec(ent, 0);
    }
  }

  /** `w` is `v` after directory `n` was given the bytes `d`. */
  predicate Edited(v: Vol, w: Vol, n: nat, d: seq<byte>) {
    Touched(v, w, n) && DirFile(w, n) && DirBytes(w, n) == d
  }

  lemma EditedTrans(v: Vol, w: Vol, x: Vol, n: nat, d: seq<byte>, e: seq<byte>)
    requires Edited(v, w, n, d) && Edited(w, x, n, e)
    ensures Edited(v, x, n, e)
  {
    TouchedTrans(v, w, x, n);
  }

  lemma EditedNothing(v: Vol, n: nat)
    requires DirFile(v, n)
    ensures Edited(v, v, n, DirBytes(v, n))
  {
    assert v.inodes == v.inodes[n - 1 := v.Ino(n)];
  }

  /** A write inside one block of a directory either takes effect or changes nothing. */
  lemma EditedBy(v: Vol, w: Vol, n: nat, off: nat, stop: nat, buf: seq<byte>)
    requires DirFile(v, n) && Written(v, w, n, off, stop, buf) && off <= v.Ino(n).size
    ensures Edited(v, w, n, Overwrite(DirBytes(v, n), off, buf[..stop - off]))
  {
    WrittenContent(v, w, n, off, stop, buf);
    WrittenTouched(v, w, n, off, stop, buf);
  }

  /** A stretch that starts below the last direct block and stays in its block ends in the supported area. */
  lemma BlockInArea(off: nat, len: nat, size: nat)
    requires 0 < size && off < NR_DIRECT * size && Rem(off, size) + len <= size
    ensures off + len <= NR_DIRECT * size
  {
    QuotInArea(off, size);
    QuotRem(off, size);
    TimesMonotone(Quot(off, size) + 1, NR_DIRECT, size);
    TimesIsMul(NR_DIRECT, size);
  }

  /** The file has no block for offset `off`, and there is none for it. */
  predicate NoBlockFor(v: Vol, n: nat, off: nat)
    requires FileOk(v, n) && 0 < v.geo.blockSize
  {
    PointersInRange(v, n);
    off < Area(v) && v.freeBlocks == {} &&
    (QuotInArea(off, v.geo.blockSize); v.Ino(n).blocks[Quot(off, v.geo.blockSize)] == 0)
  }

  /** file_write() to a directory, inside one block. */
  method DirWrite(fs: Ext2, n: nat, buf: seq<byte>, off: nat) returns (ret: Ret)
    requires fs.Wired() && DirFile(fs.View(), n) && 0 < fs.geo.blockSize
    requires off <= fs.inodes[n - 1].size && Rem(off, fs.geo.blockSize) + |buf| <= fs.geo.blockSize
    requires off + |buf| < UINT64
    modifies fs`inodes, fs`disk, fs.blockMaps
    ensures fs.Wired()
    ensures Edited(old(fs.View()), fs.View(), n,
                   if ret.Ok? then Overwrite(old(DirBytes(fs.View(), n)), off, buf) else old(DirBytes(fs.View(), n)))
    ensures ret.Err? ==> ret.e in {EFBIG, ENOSPC}
    ensures ret == Err(EFBIG) <==> Area(old(fs.View())) <= off
    ensures off < Area(old(fs.View())) && off + |buf| <= old(fs.inodes[n - 1].size) ==> ret.Ok?
    ensures off + |buf| <= old(fs.inodes[n - 1].size) ==> fs.View().freeBlocks == old(fs.View()).freeBlocks
    ensures off < Area(old(fs.View())) && (buf == [] || 0 < Rem(off, fs.geo.blockSize)) ==> ret.Ok?
    ensures ret == Err(ENOSPC) <==> buf != [] && NoBlockFor(old(fs.View()), n, off)
  {
    hide Ext2.Wired;
    ghost var v, stop := fs.View(), 0;
    BlockSizePositive(v, n);
    hide FileOk, NoHoles, Written, Edited, Overwrite, WriteRet, Needed, Rem;
    ret, stop := fs.FileWrite(n, buf, off);
    DirWritten(v, fs.View(), n, off, stop, buf, ret);
  }

  /** What file_write() inside one block means for a directory. */
  lemma DirWritten(v: Vol, w: Vol, n: nat, off: nat, stop: nat, buf: seq<byte>, ret: Ret)
    requires DirFile(v, n) && 0 < v.geo.blockSize && ret == WriteRet(v, n, |buf|, off)
    requires off <= v.Ino(n).size && Rem(off, v.geo.blockSize) + |buf| <= v.geo.blockSize
    requires ret == Err(EBADF) || ret == Err(EFBIG) ==> w == v
    requires ret.Ok? || ret == Err(ENOSPC) ==>
               && Written(v, w, n, off, stop, buf) && off <= stop <= Area(v)
               && |w.freeBlocks| + Needed(v, n, off, stop - off) == |v.freeBlocks|
    requires ret.Ok? ==> stop == off + ret.val
    requires ret == Err(ENOSPC) ==>
               stop < off + |buf| && (stop == off || Quot(off, v.geo.blockSize) < Quot(stop, v.geo.blockSize))
    ensures Edited(v, w, n, if ret.Ok? then Overwrite(DirBytes(v, n), off, buf) else DirBytes(v, n))
    ensures ret.Err? ==> ret.e in {EFBIG, ENOSPC}
    ensures ret == Err(EFBIG) <==> Area(v) <= off
    ensures off < Area(v) && off + |buf| <= v.Ino(n).size ==> ret.Ok?
    ensures off + |buf| <= v.Ino(n).size ==> w.freeBlocks == v.freeBlocks
    ensures off < Area(v) && (buf == [] || 0 < Rem(off, v.geo.blockSize)) ==> ret.Ok?
    ensures ret == Err(ENOSPC) <==> buf != [] && NoBlockFor(v, n, off)
  {
    EditedNothing(v, n);
    if off < NR_DIRECT * v.geo.blockSize {
      BlockInArea(off, |buf|, v.geo.blockSize);
      WriteOutcome(v, n, off, buf, ret);
      if ret.Err? {
        StopAtStart(off, stop, |buf|, v.geo.blockSize);
      }
      EditedBy(v, w, n, off, stop, buf);
      if off + |buf| <= v.Ino(n).size {
        NothingTaken(v, w, n, off, stop);
      }
      assert buf[..|buf|] == buf;
    }
  }

  lemma NothingTaken(v: Vol, w: Vol, n: nat, off: nat, stop: nat)
    requires DirFile(v, n) && off <= stop <= v.Ino(n).size && w.freeBlocks <= v.freeBlocks
    requires |w.freeBlocks| + Needed(v, n, off, stop - off) == |v.freeBlocks|
    ensures w.freeBlocks == v.freeBlocks
  {
    NothingNeeded(v, n, off, stop - off);
    SameCard(w.freeBlocks, v.freeBlocks);
  }

  lemma SameCard(s: set<nat>, t: set<nat>)
    requires s <= t && |s| == |t|
    ensures s == t
  {
    assert t == s + (t - s);
  }

  lemma StopAtStart(off: nat, stop: nat, len: nat, size: nat)
    requires 0 < size && Rem(off, size) + len <= size && off <= stop < off + len
    requires stop == off || Quot(off, size) < Quot(stop, size)
    ensures stop == off
  {
    StretchInBlock(off, len, size, stop);
  }

  /** A write inside one block fails only when that block is a hole and no block is free. */
  lemma WriteOutcome(v: Vol, n: nat, off: nat, buf: seq<byte>, ret: Ret)
    requires DirFile(v, n) && off < Area(v) && off + |buf| <= Area(v) && ret == WriteRet(v, n, |buf|, off)
    requires 0 < v.geo.blockSize && Rem(off, v.geo.blockSize) + |buf| <= v.geo.blockSize
    ensures ret == Ok(|buf|) || ret == Err(ENOSPC)
    ensures off + |buf| <= v.Ino(n).size || buf == [] ==> ret.Ok?
    ensures 0 < Rem(off, v.geo.blockSize) && off <= v.Ino(n).size ==> ret.Ok?
    ensures ret == Err(ENOSPC) <==> buf != [] && NoBlockFor(v, n, off)
  {
    hide Quot, Rem, Times;
    if off + |buf| <= v.Ino(n).size {
      NothingNeeded(v, n, off, |buf|);
    }
    if |buf| > 0 {
      PointersInRange(v, n);
      StretchInBlock(off, |buf|, v.geo.blockSize, off + |buf| - 1);
      QuotInArea(off, v.geo.blockSize);
      var q := Quot(off, v.geo.blockSize);
      assert Holes(v.Ino(n).blocks, q, q + 1) == if v.Ino(n).blocks[q] == 0 then 1 else 0;
      if 0 < Rem(off, v.geo.blockSize) && off <= v.Ino(n).size {
        QuotRem(off, v.geo.blockSize);
        QuotRemUnique(q, v.geo.blockSize, Rem(off, v.geo.blockSize) - 1);
        assert v.Ino(n).blocks[Quot(off - 1, v.geo.blockSize)] != 0;
      }
    }
  }

  /** The first `n` bytes of the struct dir_entry `ent` with a new record length, and what follows it in memory. */
  function StructBytes(ent: seq<byte>, ino: nat, rec: nat, slack: seq<byte>): seq<byte>
    requires HEADER <= |ent| && ino < 0x1_0000_0000 && rec < 0x1_0000 && HEADER <= rec <= |slack|
  {
    Header(ino, rec, ent[6], ent[7]) + (ent[HEADER..] + slack)[..rec - HEADER]
  }

  lemma StructIsLast(d: seq<byte>, lo: nat, ent: seq<byte>, ino: nat, rec: nat, slack: seq<byte>)
    requires lo + HEADER <= |d| && ent == d[lo..Min(lo + ENTRY_SIZE, |d|)]
    requires ino < 0x1_0000_0000 && rec < 0x1_0000 && HEADER <= rec <= |slack|
    ensures HEADER <= |ent| && StructBytes(ent, ino, rec, slack) == LastBytes(d, lo, ino, rec, rec, slack)
    ensures EIno(ent, 0) == EIno(d, lo) && ERec(ent, 0) == ERec(d, lo) && ENameLen(ent, 0) == ENameLen(d, lo)
  {
    assert ent[HEADER..] == d[lo + HEADER..Min(lo + ENTRY_SIZE, |d|)];
  }

  lemma TrimFits(d: seq<byte>, l: Limits, lo: nat, n: nat)
    requires GoodLimits(l) && LastAt(d, l, lo) && Rem(|d|, l.blockSize) == 0 && n <= 264
    ensures lo < |d| && HEADER <= MinLen(ENameLen(d, lo)) <= ERec(d, lo) == l.blockSize - Rem(lo, l.blockSize)
    ensures Rem(lo, l.blockSize) + MinLen(ENameLen(d, lo)) <= l.blockSize
    ensures !FitsAt(l, lo + MinLen(ENameLen(d, lo)), n) ==> 0 < lo
  {
    LastFillsBlock(d, l, lo);
    MinLenRange(ENameLen(d, lo));
    RemNext(lo, MinLen(ENameLen(d, lo)), l.blockSize);
  }

  /** Trim the last record to its minimal length. */
  method TrimLast(fs: Ext2, n: nat, lo: nat, ent: seq<byte>, slack: seq<byte>)
    requires fs.Wired() && DirFile(fs.View(), n) && GoodLimits(Lim(fs.View())) && |slack| == 0x1_0000
    requires LastAt(DirBytes(fs.View(), n), Lim(fs.View()), lo) && Rem(|DirBytes(fs.View(), n)|, fs.geo.blockSize) == 0
    requires ent == DirBytes(fs.View(), n)[lo..Min(lo + ENTRY_SIZE, |DirBytes(fs.View(), n)|)]
    modifies fs`inodes, fs`disk, fs.blockMaps
    ensures fs.Wired() && fs.View().freeBlocks == old(fs.View()).freeBlocks
    ensures Edited(old(fs.View()), fs.View(), n, Trimmed(old(DirBytes(fs.View(), n)), lo, slack))
  {
    hide Ext2.Wired;
    ghost var d := DirBytes(fs.View(), n);
    TrimFits(d, Lim(fs.View()), lo, 0);
    MinLenRange(ENameLen(d, lo));
    StructIsLast(d, lo, ent, EIno(d, lo), MinLen(ENameLen(d, lo)), slack);
    var rec := MinLen(ENameLen(ent, 0));
    var ret := DirWrite(fs, n, StructBytes(ent, EIno(ent, 0), rec, slack), lo);
  }

  /** Write the last record at `at` once more, stretched to the end of the block. */
  method StretchLast(fs: Ext2, n: nat, lo: nat, at: nat, ent: seq<byte>, slack: seq<byte>, ghost d: seq<byte>)
    requires fs.Wired() && DirFile(fs.View(), n) && GoodLimits(Lim(fs.View())) && |slack| == 0x1_0000
    requires lo + HEADER <= |d| && EIno(d, lo) <= fs.geo.inodesCount && ent == d[lo..Min(lo + ENTRY_SIZE, |d|)]
    requires at <= |DirBytes(fs.View(), n)| && Rem(at, fs.geo.blockSize) + HEADER <= fs.geo.blockSize
    requires at + (fs.geo.blockSize - Rem(at, fs.geo.blockSize)) <= |DirBytes(fs.View(), n)|
    modifies fs`inodes, fs`disk, fs.blockMaps
    ensures fs.Wired() && fs.View().freeBlocks == old(fs.View()).freeBlocks
    ensures Edited(old(fs.View()), fs.View(), n,
                   Stretched(old(DirBytes(fs.View(), n)), d, old(Lim(fs.View())), lo, at, slack))
  {
    hide Ext2.Wired;
    var rec := fs.geo.blockSize - Rem(at, fs.geo.blockSize);
    StructIsLast(d, lo, ent, EIno(d, lo), rec, slack);
    var ret := DirWrite(fs, n, StructBytes(ent, EIno(ent, 0), rec, slack), at);
  }

  /** The source steps back from the end of the directory, so there the arithmetic stays positive. */
  lemma StretchFits(d: seq<byte>, l: Limits, lo: nat, n: nat)
    requires GoodLimits(l) && LastAt(d, l, lo) && Rem(|d|, l.blockSize) == 0 && n <= 264 && !FitsAt(l, lo, n)
    ensures ERec(d, lo) < lo && Rem(lo - ERec(d, lo), l.blockSize) + HEADER <= l.blockSize
    ensures lo - ERec(d, lo) + (l.blockSize - Rem(lo - ERec(d, lo), l.blockSize)) == |d|
  {
    StepBack(d, l, lo, n);
  }

  lemma UnusedCases(d: seq<byte>, l: Limits, lo: nat, n: nat, slack: seq<byte>, at: int)
    requires GoodLimits(l) && LastAt(d, l, lo) && Rem(|d|, l.blockSize) == 0 && n <= 264 && |slack| == 0x1_0000
    requires EIno(d, lo) == 0 && at == lo - ERec(d, lo)
    ensures FitsAt(l, lo, n) ==> Prepared(d, l, lo, n, slack) == d && NewOffset(d, l, lo, n) == lo
    ensures !FitsAt(l, lo, n) ==>
              0 <= at <= lo && Rem(at, l.blockSize) + HEADER <= l.blockSize && NewOffset(d, l, lo, n) == |d|
    ensures !FitsAt(l, lo, n) ==> Prepared(d, l, lo, n, slack) == Stretched(d, d, l, lo, at, slack)
    ensures !FitsAt(l, lo, n) ==> at + (l.blockSize - Rem(at, l.blockSize)) == |d|
  {
    if !FitsAt(l, lo, n) {
      StretchFits(d, l, lo, n);
    }
  }

  /** Make room where the last record is unused: in place, or in a new block. */
  method PrepareUnused(fs: Ext2, n: nat, lo: nat, len: nat, ent: seq<byte>, slack: seq<byte>) returns (off: nat)
    requires fs.Wired() && DirFile(fs.View(), n) && GoodLimits(Lim(fs.View())) && |slack| == 0x1_0000 && len <= 264
    requires LastAt(DirBytes(fs.View(), n), Lim(fs.View()), lo) && Rem(|DirBytes(fs.View(), n)|, fs.geo.blockSize) == 0
    requires EIno(DirBytes(fs.View(), n), lo) == 0
    requires ent == DirBytes(fs.View(), n)[lo..Min(lo + ENTRY_SIZE, |DirBytes(fs.View(), n)|)]
    modifies fs`inodes, fs`disk, fs.blockMaps
    ensures fs.Wired() && fs.View().freeBlocks == old(fs.View()).freeBlocks
    ensures Edited(old(fs.View()), fs.View(), n,
                   Prepared(old(DirBytes(fs.View(), n)), old(Lim(fs.View())), lo, len, slack))
    ensures off == NewOffset(old(DirBytes(fs.View(), n)), old(Lim(fs.View())), lo, len)
  {
    hide Ext2.Wired, FileOk, NoHoles, Touched, Prepared, Stretched, NewOffset, Reach, Content, Rem, EIno;
    ghost var d := DirBytes(fs.View(), n);
    var l := Limits(fs.geo.blockSize, fs.geo.inodesCount);
    StructIsLast(d, lo, ent, 0, HEADER, slack);
    UnusedCases(d, l, lo, len, slack, lo - ERec(ent, 0));
    if FitsAt(l, lo, len) {
      EditedNothing(fs.View(), n);
      return lo;
    }
    off := lo - ERec(ent, 0);
    StretchLast(fs, n, lo, off, ent, slack, d);
    off := off + (l.blockSize - Rem(off, l.blockSize));
  }

  /** Make room behind a last record in use: trim it, and stretch it again if the new record needs a new block. */
  method PrepareUsed(fs: Ext2, n: nat, lo: nat, len: nat, ent: seq<byte>, slack: seq<byte>) returns (off: nat)
    requires fs.Wired() && DirFile(fs.View(), n) && GoodLimits(Lim(fs.View())) && |slack| == 0x1_0000 && len <= 264
    requires LastAt(DirBytes(fs.View(), n), Lim(fs.View()), lo) && Rem(|DirBytes(fs.View(), n)|, fs.geo.blockSize) == 0
    requires EIno(DirBytes(fs.View(), n), lo) != 0
    requires ent == DirBytes(fs.View(), n)[lo..Min(lo + ENTRY_SIZE, |DirBytes(fs.View(), n)|)]
    modifies fs`inodes, fs`disk, fs.blockMaps
    ensures fs.Wired() && fs.View().freeBlocks == old(fs.View()).freeBlocks
    ensures Edited(old(fs.View()), fs.View(), n,
                   Prepared(old(DirBytes(fs.View(), n)), old(Lim(fs.View())), lo, len, slack))
    ensures off == NewOffset(old(DirBytes(fs.View(), n)), old(Lim(fs.View())), lo, len)
  {
    hide Ext2.Wired, FileOk, NoHoles, Touched;
    ghost var v := fs.View();
    ghost var d := DirBytes(v, n);
    var l := Limits(fs.geo.blockSize, fs.geo.inodesCount);
    StructIsLast(d, lo, ent, 0, HEADER, slack);
    TrimFits(d, l, lo, len);
    ghost var trimmed := Trimmed(d, lo, slack);
    TrimLast(fs, n, lo, ent, slack);
    ghost var w := fs.View();
    off := lo + MinLen(ENameLen(ent, 0));
    if !FitsAt(l, off, len) {
      off := lo;
      StretchLast(fs, n, lo, off, ent, slack, d);
      EditedTrans(v, w, fs.View(), n, trimmed, Stretched(trimmed, d, l, lo, lo, slack));
      off := off + (l.blockSize - Rem(off, l.blockSize));
    }
  }

  /** The part of ext2_new_dir_entry() that makes room behind the last record. */
  method PrepareLast(fs: Ext2, n: nat, lo: nat, len: nat, slack: seq<byte>) returns (off: nat)
    requires fs.Wired() && DirFile(fs.View(), n) && GoodLimits(Lim(fs.View())) && |slack| == 0x1_0000 && len <= 264
    requires LastAt(DirBytes(fs.View(), n), Lim(fs.View()), lo) && Rem(|DirBytes(fs.View(), n)|, fs.geo.blockSize) == 0
    modifies fs`inodes, fs`disk, fs.blockMaps
    ensures fs.Wired() && fs.View().freeBlocks == old(fs.View()).freeBlocks
    ensures Edited(old(fs.View()), fs.View(), n,
                   Prepared(old(DirBytes(fs.View(), n)), old(Lim(fs.View())), lo, len, slack))
    ensures off == NewOffset(old(DirBytes(fs.View(), n)), old(Lim(fs.View())), lo, len)
  {
    hide Ext2.Wired;
    var ent := ReadEntry(fs, n, lo);
    StructIsLast(DirBytes(fs.View(), n), lo, ent, 0, HEADER, slack);
    if EIno(ent, 0) == 0 {
      off := PrepareUnused(fs, n, lo, len, ent, slack);
    } else {
      off := PrepareUsed(fs, n, lo, len, ent, slack);
    }
  }
}
