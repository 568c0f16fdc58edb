/** ext2_new_dir_entry() of ext2/ext2.c. */
module Ext2NewEntry {
  import opened Options
  import opened Arith
  import opened Bitmap
  import opened Ext2Vol
  import opened Ext2File
  import opened Ext2Dir
  import opened Ext2DirWrite
  import opened Ext2Core
  import opened Ext2DirOps

  /** The rest of the block behind offset `p`. */
  function RestOf(l: Limits, p: nat): (r: nat)
    requires 0 < l.blockSize
    ensures 0 < r <= l.blockSize
  {
    l.blockSize - Rem(p, l.blockSize)
  }

  /** A record for a name of `len` bytes may start at `p`, over or behind the bytes `c`. */
  predicate Room(c: seq<byte>, l: Limits, p: nat, len: nat)
    requires 0 < l.blockSize
  {
    && FitsAt(l, p, MinLen(len)) && Rem(p, 4) == 0 && Rem(RestOf(l, p), 4) == 0
    && (|c| == p || |c| == p + RestOf(l, p))
  }

  /** The bytes behind the name in the new record: a zero, then what memory held. */
  function Pad(len: nat, mem: seq<byte>): (r: seq<byte>)
    requires 4 <= |mem|
    ensures HEADER + len + |r| == MinLen(len)
  {
    ([0] + mem)[..MinLen(len) - HEADER - len]
  }

  /** Did the new record reach the directory? At the very end of the supported area the second write, of no
      bytes, fails although the record is complete. */
  predicate Arrived(ret: Ret, p: nat, area: nat) {
    ret.Ok? || (ret == Err(EFBIG) && p < area)
  }

  /** The second write needs no block, and fails only where it has nothing to write. */
  lemma ZeroesFit(l: Limits, p: nat, len: nat)
    requires GoodLimits(l) && 0 < len && FitsAt(l, p, len) && p < NR_DIRECT * l.blockSize
    ensures Rem(p + len, l.blockSize) + (RestOf(l, p) - len) <= l.blockSize
    ensures Zeros(RestOf(l, p) - len) == [] || 0 < Rem(p + len, l.blockSize)
    ensures NR_DIRECT * l.blockSize <= p + len ==> RestOf(l, p) == len
  {
    RemNext(p, len, l.blockSize);
    BlockInArea(p, RestOf(l, p), l.blockSize);
  }

  lemma OverwriteNothing(c: seq<byte>, p: nat)
    requires p <= |c|
    ensures Overwrite(c, p, Zeros(0)) == c
  {
  }

  /** Fill the rest of the new record's block with zeroes. */
  method PutZeroes(fs: Ext2, n: nat, p: nat, len: nat, ghost c: seq<byte>, ghost z: seq<byte>, ghost e: seq<byte>)
    returns (ret: Ret)
    requires fs.Wired() && DirFile(fs.View(), n) && GoodLimits(Lim(fs.View()))
    requires 0 < len && FitsAt(Lim(fs.View()), p, len) && p < Area(fs.View()) && p + len <= |c|
    requires c == DirBytes(fs.View(), n) && z == Zeros(RestOf(Lim(fs.View()), p) - len) && e == Overwrite(c, p + len, z)
    modifies fs`inodes, fs`disk, fs.blockMaps
    ensures fs.Wired() && Edited(old(fs.View()), fs.View(), n, e)
    ensures if Area(old(fs.View())) <= p + len then ret == Err(EFBIG) else ret.Ok?
  {
    hide Ext2.Wired, FileOk, NoHoles, Touched, Overwrite, Zeros;
    var l := Limits(fs.geo.blockSize, fs.geo.inodesCount);
    ZeroesFit(l, p, len);
    OverwriteNothing(c, p + len);
    ret := DirWrite(fs, n, Zeros(RestOf(l, p) - len), p + len);
  }

  /** What the two writes return. Not arriving means a new block: beyond the supported area, or none free. */
  predicate PutRet(ret: Ret, v: Vol, n: nat, p: nat, size: nat, len: nat) {
    && FileOk(v, n) && 0 < v.geo.blockSize
    && (ret.Err? ==> ret.e in {EFBIG, ENOSPC})
    && (!Arrived(ret, p, Area(v)) ==> p == size)
    && (ret.Ok? ==> p + len < Area(v))
    && (ret == Err(EFBIG) ==> Area(v) <= p + len)
    && (Area(v) <= p ==> ret == Err(EFBIG))
    && (ret == Err(ENOSPC) <==> NoBlockFor(v, n, p))
  }

  /** Write the new record itself. */
  method PutEntry(fs: Ext2, n: nat, p: nat, t: seq<byte>, ghost c: seq<byte>, ghost c1: seq<byte>) returns (ret: Ret)
    requires fs.Wired() && DirFile(fs.View(), n) && GoodLimits(Lim(fs.View())) && |t| <= 264
    requires c == DirBytes(fs.View(), n) && p <= |c| && (p < |c| ==> p + |t| <= |c|) && FitsAt(Lim(fs.View()), p, |t|)
    requires c1 == Overwrite(c, p, t) && t != []
    modifies fs`inodes, fs`disk, fs.blockMaps
    ensures fs.Wired() && (ret == Err(ENOSPC) <==> NoBlockFor(old(fs.View()), n, p))
    ensures ret.Ok? ==> p < Area(old(fs.View())) && Edited(old(fs.View()), fs.View(), n, c1)
    ensures ret.Err? ==> Edited(old(fs.View()), fs.View(), n, c) && !Arrived(ret, p, Area(old(fs.View())))
    ensures ret.Err? ==> PutRet(ret, old(fs.View()), n, p, |c|, |t|)
  {
    hide Ext2.Wired;
    ret := DirWrite(fs, n, t, p);
  }

  /** A directory's bytes with `t` at `p` and zeroes behind it. */
  function Filled(c: seq<byte>, l: Limits, p: nat, t: seq<byte>): seq<byte>
    requires 0 < l.blockSize && p <= |c| && FitsAt(l, p, |t|)
  {
    Overwrite(Overwrite(c, p, t), p + |t|, Zeros(RestOf(l, p) - |t|))
  }

  /** A directory's bytes with the whole new record: header, name, padding and zeroes to the end of its block. */
  function WithRecord(c: seq<byte>, l: Limits, p: nat, ino: nat, name: seq<byte>, kind: byte, mem: seq<byte>): seq<byte>
    requires GoodLimits(l) && p <= |c| && FitsAt(l, p, MinLen(|name|)) && |name| < 255 && ino <= l.inodes && 4 <= |mem|
  {
    Filled(c, l, p, NewBytes(ino, RestOf(l, p), name, kind, Pad(|name|, mem)))
  }

  /** The two writes of ext2_new_dir_entry() that put the new record in place. */
  method PutRecord(fs: Ext2, n: nat, p: nat, t: seq<byte>, ghost c: seq<byte>, ghost e: seq<byte>) returns (ret: Ret)
    requires fs.Wired() && DirFile(fs.View(), n) && GoodLimits(Lim(fs.View()))
    requires c == DirBytes(fs.View(), n) && p <= |c| && (p < |c| ==> p + |t| <= |c|)
    requires 0 < |t| <= 264 && FitsAt(Lim(fs.View()), p, |t|) && e == Filled(c, Lim(fs.View()), p, t)
    modifies fs`inodes, fs`disk, fs.blockMaps
    ensures fs.Wired()
    ensures Arrived(ret, p, Area(old(fs.View()))) ==> Edited(old(fs.View()), fs.View(), n, e)
    ensures !Arrived(ret, p, Area(old(fs.View()))) ==> Edited(old(fs.View()), fs.View(), n, c)
    ensures PutRet(ret, old(fs.View()), n, p, |c|, |t|)
  {
    hide Ext2.Wired, Touched, FileOk, NoHoles, Overwrite, Zeros;
    ghost var v := fs.View();
    ghost var c1 := Overwrite(c, p, t);
    ret := PutEntry(fs, n, p, t, c, c1);
    if ret.Ok? {
      ghost var w := fs.View();
      ret := PutZeroes(fs, n, p, |t|, c1, Zeros(RestOf(Lim(v), p) - |t|), e);
      EditedTrans(v, w, fs.View(), n, c1, e);
    }
  }

  /** Making room takes no block, so the answer can be told beforehand. */
  lemma SameRoom(v: Vol, w: Vol, n: nat, c: seq<byte>, ret: Ret, p: nat, size: nat, len: nat)
    requires Edited(v, w, n, c) && w.freeBlocks == v.freeBlocks && PutRet(ret, w, n, p, size, len)
    ensures PutRet(ret, v, n, p, size, len)
  {
    SamePointers(v, w, n);
    hide FileOk, NoHoles, Content;
  }

  /** Both writes of a new record. */
  lemma FilledHas(c: seq<byte>, l: Limits, p: nat, ino: nat, name: seq<byte>, kind: byte, mem: seq<byte>, t: seq<byte>,
                  e: seq<byte>)
    requires GoodLimits(l) && p <= |c| && ino <= l.inodes && 0 < |name| < 255 && 4 <= |mem| && Room(c, l, p, |name|)
    requires t == NewBytes(ino, RestOf(l, p), name, kind, Pad(|name|, mem)) && e == Filled(c, l, p, t)
    ensures HasRecord(c, e, l, p, ino, RestOf(l, p), name)
    ensures p + 8 <= |e| && e[p + 7] == kind && forall k :: p + MinLen(|name|) <= k < |e| ==> e[k] == 0
  {
    hide Overwrite, NewBytes, Pad, Zeros, HasRecord, Rem, MinLen;
    MinLenRange(|name|);
    NewRecord(c, l, p, ino, RestOf(l, p), name, kind, Pad(|name|, mem), MinLen(|name|), t, Overwrite(c, p, t), e);
  }

  /** `lo` is where the last record starts, if there is one. */
  predicate LastOk(d: seq<byte>, l: Limits, lo: nat)
    requires 0 < l.blockSize
  {
    if |d| == 0 then lo == 0 else LastAt(d, l, lo)
  }

  /** Where the new record of `len` bytes goes. */
  function PlaceOf(d: seq<byte>, l: Limits, lo: nat, len: nat): nat
    requires 0 < l.blockSize && LastOk(d, l, lo)
  {
    if |d| == 0 then 0 else NewOffset(d, l, lo, len)
  }

  /** The condition under which ext2_new_dir_entry() keeps the directory intact. */
  predicate SlotFine(d: seq<byte>, l: Limits, lo: nat, len: nat)
    requires 0 < l.blockSize && LastOk(d, l, lo)
  {
    |d| == 0 || SlotOk(d, l, lo, len)
  }

  /** The directory's bytes before the new record is written. */
  function RoomMade(d: seq<byte>, l: Limits, lo: nat, len: nat, slack: seq<byte>): seq<byte>
    requires GoodLimits(l) && LastOk(d, l, lo) && Rem(|d|, l.blockSize) == 0 && len <= 264 && |slack| == 0x1_0000
  {
    if |d| == 0 then d else Prepared(d, l, lo, len, slack)
  }

  /** Making room keeps the size, and leaves room for the new record. */
  lemma RoomFacts(d: seq<byte>, l: Limits, lo: nat, len: nat, slack: seq<byte>, c: seq<byte>, p: nat)
    requires GoodLimits(l) && LastOk(d, l, lo) && Rem(|d|, l.blockSize) == 0 && len <= 264 && |slack| == 0x1_0000
    requires c == RoomMade(d, l, lo, len, slack) && p == PlaceOf(d, l, lo, len)
    ensures |c| == |d| && p <= |d| && FitsAt(l, p, len) && Rem(p, 4) == 0 && Rem(RestOf(l, p), 4) == 0
    ensures p + RestOf(l, p) == if p < |d| then |d| else |d| + l.blockSize
  {
    if |d| == 0 {
      QuotIsDiv(l.blockSize, 4);
    } else {
      NewOffsetFacts(d, l, lo, len, p);
      PreparedLength(d, l, lo, len, slack);
    }
  }

  lemma PreparedLength(d: seq<byte>, l: Limits, lo: nat, n: nat, slack: seq<byte>)
    requires GoodLimits(l) && LastAt(d, l, lo) && Rem(|d|, l.blockSize) == 0 && n <= 264 && |slack| == 0x1_0000
    ensures |Prepared(d, l, lo, n, slack)| == |d|
  {
    TrimFits(d, l, lo, n);
    if EIno(d, lo) == 0 {
      UnusedCases(d, l, lo, n, slack, lo - ERec(d, lo));
    }
  }

  /** `e` is `d` with one more name: still exactly tiled, one more link, and no other lookup has changed. */
  ghost predicate Added(d: seq<byte>, e: seq<byte>, l: Limits, p: nat, ino: nat, name: seq<byte>)
    requires 0 < l.blockSize
  {
    && Tiled(e, l)
    && Links(Parse(e, l, 0).ents) == Links(Parse(d, l, 0).ents) + multiset{ino}
    && forall x :: Lookup(Parse(e, l, 0), x) == if x == name then Hit(ino, p) else Lookup(Parse(d, l, 0), x)
  }

  lemma RecordAdds(d: seq<byte>, l: Limits, lo: nat, ino: nat, name: seq<byte>, slack: seq<byte>, c: seq<byte>, p: nat,
                   e: seq<byte>)
    requires GoodLimits(l) && LastOk(d, l, lo) && Rem(|d|, l.blockSize) == 0 && |slack| == 0x1_0000
    requires 0 < |name| < 255 && MinLen(|name|) <= 264 && 0 < ino && Lookup(Parse(d, l, 0), name) == Miss
    requires SlotFine(d, l, lo, MinLen(|name|))
    requires c == RoomMade(d, l, lo, MinLen(|name|), slack) && p == PlaceOf(d, l, lo, MinLen(|name|))
    requires HasRecord(c, e, l, p, ino, RestOf(l, p), name)
    ensures Added(d, e, l, p, ino, name)
  {
    hide Prepared, Parse, Lookup, Links, Placed, Ready, Reach, MinLen, Rem, EName, EIno, NewOffset;
    RoomFacts(d, l, lo, MinLen(|name|), slack, c, p);
    if |d| != 0 {
      PreparedReady(d, l, lo, MinLen(|name|), slack, c, p);
      ReadyPlaced(d, c, e, l, lo, p, ino, RestOf(l, p), name);
    }
    PlacedAdds(d, e, l, lo, p, ino, name);
    RemNext(|d|, if p < |d| then 0 else l.blockSize, l.blockSize);
  }

  lemma PlacedAdds(d: seq<byte>, e: seq<byte>, l: Limits, lo: nat, p: nat, ino: nat, name: seq<byte>)
    requires 0 < l.blockSize && Placed(d, e, l, lo, p, ino, name) && Lookup(Parse(d, l, 0), name) == Miss
    ensures Parse(e, l, 0).ok && Links(Parse(e, l, 0).ents) == Links(Parse(d, l, 0).ents) + multiset{ino}
    ensures forall x :: Lookup(Parse(e, l, 0), x) == if x == name then Hit(ino, p) else Lookup(Parse(d, l, 0), x)
  {
    PlacedLookup(d, e, l, lo, p, ino, name, name);
    forall x
      ensures Lookup(Parse(e, l, 0), x) == if x == name then Hit(ino, p) else Lookup(Parse(d, l, 0), x)
    {
      PlacedLookup(d, e, l, lo, p, ino, name, x);
    }
  }

  /** Before the new record arrives in a new block, the directory lists what it did. */
  lemma RoomParse(d: seq<byte>, l: Limits, lo: nat, len: nat, slack: seq<byte>, c: seq<byte>, p: nat)
    requires GoodLimits(l) && LastOk(d, l, lo) && Rem(|d|, l.blockSize) == 0 && len <= 264 && |slack| == 0x1_0000
    requires SlotFine(d, l, lo, len) && c == RoomMade(d, l, lo, len, slack) && p == PlaceOf(d, l, lo, len) == |d|
    ensures Parse(c, l, 0) == Parse(d, l, 0)
  {
    if |d| != 0 {
      PreparedReady(d, l, lo, len, slack, c, p);
      ReadySameLast(d, c, l, lo, p);
      SameLastParse(d, c, l, lo);
    }
  }

  /** `w` is `v` after a name that was missing has been added to directory `n`, or not. */
  ghost predicate Outcome(v: Vol, w: Vol, n: nat, lo: nat, ino: nat, name: seq<byte>, ret: Ret) {
    && DirFile(v, n) && GoodLimits(Lim(v)) && LastOk(DirBytes(v, n), Lim(v), lo)
    && Touched(v, w, n) && DirFile(w, n)
    && var d, e, l, len := DirBytes(v, n), DirBytes(w, n), Lim(v), MinLen(|name|);
    var p := PlaceOf(d, l, lo, len);
    && PutRet(ret, v, n, p, |d|, len)
    && (SlotFine(d, l, lo, len) ==>
          if Arrived(ret, p, Area(v)) then Added(d, e, l, p, ino, name)
          else |e| == |d| && Parse(e, l, 0) == Parse(d, l, 0))
  }

  /** What memory holds behind the bytes of the last record when the source writes it back. */
  function SlackOf(d: seq<byte>, l: Limits, lo: nat, behind: seq<byte>): (r: seq<byte>)
    requires 0 < l.blockSize && LastOk(d, l, lo) && |behind| == 0x1_0000
    ensures |r| == 0x1_0000
  {
    if |d| == 0 then behind else Leftover(d, l, lo, behind)
  }

  /** The bytes of the directory, whatever its last record is: prepared, and with the record if it arrived. */
  predicate Puts(v: Vol, w: Vol, n: nat, lo: nat, ino: nat, name: seq<byte>, kind: byte, ret: Ret, slack: seq<byte>,
                 mem: seq<byte>)
  {
    && DirFile(v, n) && DirFile(w, n) && GoodLimits(Lim(v)) && |slack| == 0x1_0000 && MinLen(|name|) <= 264
    && LastOk(DirBytes(v, n), Lim(v), lo) && Rem(|DirBytes(v, n)|, v.geo.blockSize) == 0
    && var d, e, l, len := DirBytes(v, n), DirBytes(w, n), Lim(v), MinLen(|name|);
    var c, p := RoomMade(d, l, lo, len, slack), PlaceOf(d, l, lo, len);
    if Arrived(ret, p, Area(v)) then
      && p <= |c| && FitsAt(l, p, len) && |name| < 255 && ino <= l.inodes && 4 <= |mem|
      && e == WithRecord(c, l, p, ino, name, kind, mem) && HasRecord(c, e, l, p, ino, RestOf(l, p), name)
      && p + 8 <= |e| && e[p + 7] == kind && forall k :: p + len <= k < |e| ==> e[k] == 0
    else e == c
  }

  lemma OutcomeIs(v: Vol, w: Vol, n: nat, d: seq<byte>, l: Limits, lo: nat, ino: nat, name: seq<byte>, kind: byte,
                  ret: Ret, len: nat, slack: seq<byte>, mem: seq<byte>, c: seq<byte>, p: nat, t: seq<byte>,
                  e: seq<byte>)
    requires DirFile(v, n) && d == DirBytes(v, n) && l == Lim(v)
    requires GoodLimits(l) && LastOk(d, l, lo) && Rem(|d|, l.blockSize) == 0 && |slack| == 0x1_0000 && 4 <= |mem|
    requires 0 < |name| < 255 && len == MinLen(|name|) <= 264 && 0 < ino <= l.inodes &&
             Lookup(Parse(d, l, 0), name) == Miss
    requires c == RoomMade(d, l, lo, len, slack) && p == PlaceOf(d, l, lo, len) && p <= |c| && FitsAt(l, p, len)
    requires t == NewBytes(ino, RestOf(l, p), name, kind, Pad(|name|, mem)) && e == Filled(c, l, p, t)
    requires PutRet(ret, v, n, p, |d|, len) && Edited(v, w, n, if Arrived(ret, p, Area(v)) then e else c)
    ensures Outcome(v, w, n, lo, ino, name, ret) && Puts(v, w, n, lo, ino, name, kind, ret, slack, mem)
  {
    hide RoomMade, Filled, NewBytes, HasRecord, Added, Parse, Lookup, PlaceOf, LastAt, Content, FileOk, NoHoles,
      Touched, Rem, MinLen, Pad;
    RoomFacts(d, l, lo, len, slack, c, p);
    if Arrived(ret, p, Area(v)) {
      FilledHas(c, l, p, ino, name, kind, mem, t, e);
    }
    if SlotFine(d, l, lo, len) {
      if Arrived(ret, p, Area(v)) {
        RecordAdds(d, l, lo, ino, name, slack, c, p, e);
      } else if p == |d| {
        RoomParse(d, l, lo, len, slack, c, p);
      }
    }
  }

  /** EXT2_INO_DIR_INDEX_FL, and the number of its bit. */
  const DIR_INDEX_FL := 0x1000
  const DIR_INDEX_BIT := 12

  /** The operators ! and & of the source. */
  function LogicalNot(x: nat): nat { if x == 0 then 1 else 0 }

  function And(a: nat, b: nat): nat {
    if a == 0 || b == 0 then 0 else 2 * And(a / 2, b / 2) + (a % 2) * (b % 2)
  }

  /** What the source makes of the flags of a directory: it writes ! where it means ~. */
  function ClearedFlags(flags: nat): nat { And(flags, LogicalNot(DIR_INDEX_FL)) }

  /** What it is meant to make of them: the index flag is cleared and every other flag kept. */
  ghost predicate IndexCleared(flags: nat, r: nat) {
    forall k: nat :: NatBit(r, k) == (k != DIR_INDEX_BIT && NatBit(flags, k))
  }

  lemma {:induction false} NoBits(k: nat)
    ensures !NatBit(0, k)
  {
    if k > 0 {
      NoBits(k - 1);
    }
  }

  /** No flag but the index flag is set. */
  ghost predicate OnlyIndex(flags: nat) {
    forall k: nat :: NatBit(flags, k) ==> k == DIR_INDEX_BIT
  }

  /** The flags come out as meant if and only if no flag but the index flag was set. */
  lemma FlagsExactly(flags: nat)
    ensures ClearedFlags(flags) == 0
    ensures IndexCleared(flags, ClearedFlags(flags)) <==> OnlyIndex(flags)
  {
    forall k: nat
      ensures !NatBit(0, k)
    {
      NoBits(k);
    }
    if IndexCleared(flags, 0) {
      forall k: nat | NatBit(flags, k)
        ensures k == DIR_INDEX_BIT
      {
        assert !NatBit(0, k);
      }
    }
    if OnlyIndex(flags) {
      forall k: nat
        ensures NatBit(0, k) == (k != DIR_INDEX_BIT && NatBit(flags, k))
      {
        assert !NatBit(0, k);
      }
    }
  }

  /** EXT2_INO_IMMUTABLE_FL is lost. */
  lemma FlagLost()
    ensures !IndexCleared(0x10, ClearedFlags(0x10))
  {
    FlagsExactly(0x10);
    assert NatBit(4, 2) && NatBit(8, 3);
    assert 16 / 2 == 8 && NatBit(0x10, 4) && !OnlyIndex(0x10);
  }

  lemma FlagsOnly(v: Vol, w: Vol, n: nat, flags: nat)
    requires DirFile(v, n) && w == v.(inodes := v.inodes[n - 1 := v.Ino(n).(flags := flags)])
    ensures Edited(v, w, n, DirBytes(v, n))
  {
    assert w.inodes == v.inodes[n - 1 := w.Ino(n)];
  }

  /** The source clears every flag where it means to clear the index flag. */
  method ClearFlags(fs: Ext2, n: nat)
    requires fs.Wired() && DirFile(fs.View(), n)
    modifies fs`inodes
    ensures fs.Wired() && fs.View().freeBlocks == old(fs.View()).freeBlocks
    ensures Edited(old(fs.View()), fs.View(), n, old(DirBytes(fs.View(), n))) && fs.View().Ino(n).flags == 0
  {
    var flags := ClearedFlags(fs.inodes[n - 1].flags);
    FlagsExactly(fs.inodes[n - 1].flags);
    fs.inodes := fs.inodes[n - 1 := fs.inodes[n - 1].(flags := flags)];
    FlagsOnly(old(fs.View()), fs.View(), n, flags);
  }

  /** Make room for a record of `len` bytes behind the last record. */
  method MakeRoom(fs: Ext2, n: nat, lo: nat, len: nat, slack: seq<byte>, ghost d: seq<byte>, ghost c: seq<byte>)
    returns (off: nat)
    requires fs.Wired() && DirFile(fs.View(), n) && GoodLimits(Lim(fs.View())) && |slack| == 0x1_0000 && len <= 264
    requires d == DirBytes(fs.View(), n) && LastOk(d, Lim(fs.View()), lo) && Rem(|d|, fs.geo.blockSize) == 0
    requires c == RoomMade(d, Lim(fs.View()), lo, len, slack)
    modifies fs`inodes, fs`disk, fs.blockMaps
    ensures fs.Wired() && fs.View().freeBlocks == old(fs.View()).freeBlocks
    ensures Edited(old(fs.View()), fs.View(), n, c)
    ensures off == PlaceOf(d, old(Lim(fs.View())), lo, len)
  {
    hide Ext2.Wired, FileOk, NoHoles, Touched;
    ghost var v := fs.View();
    ClearFlags(fs, n);
    ghost var w := fs.View();
    var size := DirSize(fs, n);
    if size == 0 {
      return 0;
    }
    off := PrepareLast(fs, n, lo, len, slack);
    EditedTrans(v, w, fs.View(), n, d, c);
  }

  /** Make room and write the new record. */
  method AddRecord(fs: Ext2, n: nat, lo: nat, ino: nat, name: seq<byte>, kind: byte, slack: seq<byte>, mem: seq<byte>,
                   ghost d: seq<byte>) returns (ret: Ret)
    requires fs.Wired() && DirFile(fs.View(), n) && GoodLimits(Lim(fs.View())) && |slack| == 0x1_0000 && 4 <= |mem|
    requires d == DirBytes(fs.View(), n) && LastOk(d, Lim(fs.View()), lo) && Rem(|d|, fs.geo.blockSize) == 0
    requires 0 < |name| < 255 && 0 < ino <= fs.geo.inodesCount && Lookup(Parse(d, Lim(fs.View()), 0), name) == Miss
    modifies fs`inodes, fs`disk, fs.blockMaps
    ensures fs.Wired() && Outcome(old(fs.View()), fs.View(), n, lo, ino, name, ret)
    ensures Puts(old(fs.View()), fs.View(), n, lo, ino, name, kind, ret, slack, mem)
  {
    hide Ext2.Wired, FileOk, NoHoles, Touched, Overwrite, Zeros, Parse, LastAt, Prepared;
    ghost var v := fs.View();
    var l := Limits(fs.geo.blockSize, fs.geo.inodesCount);
    var len := MinLen(|name|);
    MinLenRange(|name|);
    ghost var c := RoomMade(d, l, lo, len, slack);
    RoomFacts(d, l, lo, len, slack, c, PlaceOf(d, l, lo, len));
    var p := MakeRoom(fs, n, lo, len, slack, d, c);
    ghost var w := fs.View();
    var t := NewBytes(ino, RestOf(l, p), name, kind, Pad(|name|, mem));
    ghost var e := Filled(c, l, p, t);
    ret := PutRecord(fs, n, p, t, c, e);
    SameRoom(v, w, n, c, ret, p, |d|, len);
    EditedTrans(v, w, fs.View(), n, c, if Arrived(ret, p, Area(v)) then e else c);
    OutcomeIs(v, fs.View(), n, d, l, lo, ino, name, kind, ret, len, slack, mem, c, p, t, e);
  }

  /** Errors that are found before anything is written. */
  function NameErr(d: seq<byte>, l: Limits, name: seq<byte>): Option<Errno>
    requires 0 < l.blockSize
  {
    if |name| > 254 then Some(ENAMETOOLONG)
    else if |name| == 0 then Some(ENOENT)
    else match Lookup(Parse(d, l, 0), name) {
           case Hit(_, _) => Some(EEXIST)
           case Bad => Some(EIO)
           case Miss => None
         }
  }

  function AddLink(w: Vol, ino: nat): Vol
    requires w.IsInum(ino) && |w.inodes| == w.geo.inodesCount
  {
    w.(inodes := w.inodes[ino - 1 := w.Ino(ino).(links := w.Ino(ino).links + 1)])
  }

  lemma {:induction false} MissOk(dir: Listing, name: seq<byte>)
    requires Lookup(dir, name) == Miss
    ensures dir.ok
    decreases |dir.ents|
  {
    if dir.ents != [] {
      MissOk(Listing(dir.ents[1..], dir.ok), name);
    }
  }

  lemma SlackIs(d: seq<byte>, l: Limits, lo: nat, entry: seq<byte>, behind: seq<byte>, slack: seq<byte>)
    requires 0 < l.blockSize && |behind| == 0x1_0000 && (if |d| == 0 then lo == 0 else LastRead(d, l, lo, entry))
    requires |d| > 0 ==> |entry| == ENTRY_SIZE && lo < |d|
    requires slack == if |d| == 0 then behind else (entry[Min(ENTRY_SIZE, |d| - lo)..] + behind)[..0x1_0000]
    ensures LastOk(d, l, lo) && slack == SlackOf(d, l, lo, behind)
  {
    if |d| > 0 {
      var was := Scanned(d, l, 0, lo, Zeros(ENTRY_SIZE));
      assert entry[Min(ENTRY_SIZE, |d| - lo)..] == was[Min(ENTRY_SIZE, |d| - lo)..];
    }
  }

  /** Find the last record, and what memory holds behind its bytes. */
  method FindLast(fs: Ext2, n: nat, behind: seq<byte>) returns (ok: bool, lo: nat, slack: seq<byte>)
    requires DirFile(fs.View(), n) && 0 < fs.geo.blockSize && |behind| == 0x1_0000
    ensures ok == Parse(DirBytes(fs.View(), n), Lim(fs.View()), 0).ok
    ensures ok ==> LastOk(DirBytes(fs.View(), n), Lim(fs.View()), lo)
    ensures ok ==> slack == SlackOf(DirBytes(fs.View(), n), Lim(fs.View()), lo, behind)
  {
    hide FileOk, NoHoles, Parse, LastAt, LastRead, Content, SlackOf;
    var entry;
    ok, lo, entry := ScanLast(fs, n);
    var size := DirSize(fs, n);
    slack := behind;
    if ok {
      if size > 0 {
        slack := (entry[Min(ENTRY_SIZE, size - lo)..] + behind)[..0x1_0000];
      }
      SlackIs(DirBytes(fs.View(), n), Lim(fs.View()), lo, entry, behind, slack);
    }
  }

  /** Everything that adding a name that was missing promises about the volume. */
  ghost predicate Attempted(v: Vol, w: Vol, n: nat, lo: nat, ino: nat, name: seq<byte>, kind: byte, ret: Ret,
                            behind: seq<byte>, mem: seq<byte>)
  {
    && Outcome(v, w, n, lo, ino, name, ret) && |behind| == 0x1_0000
    && Puts(v, w, n, lo, ino, name, kind, ret, SlackOf(DirBytes(v, n), Lim(v), lo, behind), mem)
  }

  /** ext2_new_dir_entry() for a name that was missing, up to the link count. */
  method AppendName(fs: Ext2, n: nat, ino: nat, name: seq<byte>, kind: byte, behind: seq<byte>, mem: seq<byte>)
    returns (ret: Ret, ghost lo: nat)
    requires fs.Wired() && DirFile(fs.View(), n) && GoodLimits(Lim(fs.View())) && |behind| == 0x1_0000 && 4 <= |mem|
    requires Rem(|DirBytes(fs.View(), n)|, fs.geo.blockSize) == 0 && fs.View().IsInum(ino) && 0 < |name| < 255
    requires Lookup(Parse(DirBytes(fs.View(), n), Lim(fs.View()), 0), name) == Miss
    modifies fs`inodes, fs`disk, fs.blockMaps
    ensures fs.Wired() && Attempted(old(fs.View()), fs.View(), n, lo, ino, name, kind, ret, behind, mem)
  {
    hide Ext2.Wired, FileOk, NoHoles, Touched, Parse, LastAt, Prepared, ValidAt, SlackOf, Outcome, Puts, Lookup, Rem;
    ghost var d := DirBytes(fs.View(), n);
    var ok, last, slack := FindLast(fs, n, behind);
    MissOk(Parse(d, Lim(fs.View()), 0), name);
    ret := AddRecord(fs, n, last, ino, name, kind, slack, mem, d);
    lo := last;
  }

  /** ext2_new_dir_entry() */
  method NewDirEntry(fs: Ext2, n: nat, ino: nat, name: seq<byte>, kind: byte, behind: seq<byte>, mem: seq<byte>)
    returns (ret: Ret, ghost lo: nat, ghost w: Vol)
    requires fs.Wired() && DirFile(fs.View(), n) && GoodLimits(Lim(fs.View())) && |behind| == 0x1_0000 && 4 <= |mem|
    requires Rem(|DirBytes(fs.View(), n)|, fs.geo.blockSize) == 0 && fs.View().IsInum(ino)
    modifies fs`inodes, fs`disk, fs.blockMaps
    ensures fs.Wired()
    ensures var err := old(NameErr(DirBytes(fs.View(), n), Lim(fs.View()), name));
            if err.Some? then ret == Err(err.value) && fs.View() == old(fs.View())
            else Attempted(old(fs.View()), w, n, lo, ino, name, kind, ret, behind, mem) &&
                 fs.View() == if ret.Ok? then AddLink(w, ino) else w
  {
    hide Ext2.Wired, FileOk, NoHoles, Touched, Parse, LastAt, Prepared, ValidAt, Puts, SlackOf;
    lo, w := 0, fs.View();
    if |name| > 254 {
      return Err(ENAMETOOLONG), lo, w;
    }
    if |name| == 0 {
      return Err(ENOENT), lo, w;
    }
    var found := FindDirEntry(fs, n, name);
    match found {
      case Hit(_, _) => return Err(EEXIST), lo, w;
      case Bad => return Err(EIO), lo, w;
      case Miss =>
    }
    ret, lo := AppendName(fs, n, ino, name, kind, behind, mem);
    w := fs.View();
    BlockSizePositive(w, n);
    if ret.Ok? {
      CountLink(fs, ino);
    }
  }

  /** inode->links_count++ */
  method CountLink(fs: Ext2, ino: nat)
    requires fs.Wired() && 1 <= ino <= fs.geo.inodesCount == |fs.inodes|
    modifies fs`inodes
    ensures fs.Wired() && fs.View() == AddLink(old(fs.View()), ino)
  {
    fs.inodes := fs.inodes[ino - 1 := fs.inodes[ino - 1].(links := fs.inodes[ino - 1].links + 1)];
  }
}
