/** Concrete directories that ext2_new_dir_entry() of ext2/ext2.c damages. */
module Ext2Samples {
  import opened Arith
  import opened Bitmap
  import opened Ext2Dir
  import opened Ext2DirWrite
  import opened Ext2NewEntry
  import opened Ext2SmallSlot

  const SAMPLE_LIMITS := Limits(1024, 16)

  predicate RecordAt(d: seq<byte>, l: Limits, o: nat, ino: nat, rec: nat, nameLen: nat)
    requires 0 < l.blockSize
  {
    ValidAt(d, l, o) && EIno(d, o) == ino && ERec(d, o) == rec && ENameLen(d, o) == nameLen
  }

  /** The bytes of a record header. */
  lemma HeaderRecord(d: seq<byte>, l: Limits, o: nat, ino: byte, rec: nat, nameLen: byte)
    requires o + rec <= |d| && o % 1024 + rec <= 1024 && o % 4 == 0 && rec % 4 == 0 && 12 <= rec
    requires l.blockSize == 1024 && ino <= l.inodes && MinLen(nameLen) <= rec
    requires d[o] == ino && d[o + 1] == 0 && d[o + 2] == 0 && d[o + 3] == 0
    requires d[o + 4] == rec % 256 && d[o + 5] == rec / 256 && d[o + 6] == nameLen
    ensures RecordAt(d, l, o, ino, rec, nameLen)
  {
    QuotIsDiv(o, 4);
    QuotIsDiv(rec, 4);
    QuotIsDiv(o, 1024);
  }

  lemma SampleLengths()
    ensures MinLen(0) == 8 && MinLen(1) == 12 && MinLen(2) == 12 && MinLen(5) == 16
  {
    assert Up4(8) == 4 + Up4(4) && Up4(10) == 4 + Up4(6) && Up4(6) == 4 + Up4(2) && Up4(9) == 4 + Up4(5) &&
           Up4(5) == 4 + Up4(1) && Up4(13) == 4 + Up4(9);
  }

  /** One block with the records "a", "b" and an unused one of twelve bytes. */
  function Swallows(): seq<byte> { seq(1024, i requires 0 <= i < 1024 => SwallowsByte(i)) }

  function SwallowsByte(i: nat): byte {
    if i == 0 then 2 else if i == 4 then 232 else if i == 5 then 3 else if i == 6 then 1 else if i == 8 then 97
    else if i == 1000 then 5 else if i == 1004 then 12 else if i == 1006 then 1 else if i == 1008 then 98
    else if i == 1016 then 12 else 0
  }

  lemma SwallowsRecords(d: seq<byte>)
    requires d == Swallows()
    ensures RecordAt(d, SAMPLE_LIMITS, 0, 2, 1000, 1) && RecordAt(d, SAMPLE_LIMITS, 1000, 5, 12, 1)
    ensures RecordAt(d, SAMPLE_LIMITS, 1012, 0, 12, 0)
  {
    SampleLengths();
    hide MinLen, RecordAt;
    HeaderRecord(d, SAMPLE_LIMITS, 0, 2, 1000, 1);
    HeaderRecord(d, SAMPLE_LIMITS, 1000, 5, 12, 1);
    HeaderRecord(d, SAMPLE_LIMITS, 1012, 0, 12, 0);
  }

  lemma ThreeRecords(d: seq<byte>, l: Limits, a: nat, b: nat, n: nat, name: seq<byte>)
    requires GoodLimits(l) && RecordAt(d, l, 0, 2, a, 1) && RecordAt(d, l, a, 5, 12, 1) && RecordAt(d, l, b, 0, 12, 0)
    requires a + 12 == b && b + 12 == |d| && Rem(|d|, l.blockSize) == 0 && |name| == 5 && n <= 264 && !FitsAt(l, b, n)
    ensures TooSmall(d, l, b, n) && Lookup(Parse(d, l, 0), name) == Miss
    ensures Reach(d, l, 0, a) && Reach(d, l, a, b) && Links(Upto(d, l, a, b)) == multiset{5}
  {
    hide ValidAt, MinLen, EIno, ERec, ENameLen, Rem, Lookup, Parse, Links;
    assert Reach(d, l, b, b) && Reach(d, l, a, b) && Reach(d, l, a, a);
    UptoStep(d, l, a, b, b);
    assert Upto(d, l, a, b) == [EntAt(d, l, a)];
    ConcatFacts([], [EntAt(d, l, a)], name);
    LookupStep(d, l, 0, name);
    LookupStep(d, l, a, name);
    LookupStep(d, l, b, name);
    LookupStep(d, l, |d|, name);
  }

  /** There a new name of five bytes takes the place of "b", which is lost. */
  lemma SampleDamaged(d: seq<byte>, l: Limits, ino: nat, name: seq<byte>, slack: seq<byte>, c: seq<byte>, e: seq<byte>)
    requires d == Swallows() && l == SAMPLE_LIMITS && LastAt(d, l, 1012) && 0 < ino && |name| == 5 &&
             |slack| == 0x1_0000
    requires c == RoomMade(d, l, 1012, MinLen(5), slack) && HasRecord(c, e, l, |d|, ino, l.blockSize, name)
    ensures TooSmall(d, l, 1012, MinLen(5)) && !Added(d, e, l, |d|, ino, name)
  {
    SampleLengths();
    SwallowsRecords(d);
    assert |d| == 1024 && ERec(d, 1012) == 12;
    hide Added, RoomMade, HasRecord, Swallows, RecordAt, MinLen, LastAt, TooSmall;
    ThreeRecords(d, l, 1000, 1012, MinLen(|name|), name);
    BoundaryExact(d, l, 1000, 1012, ino, name, slack, c, e);
  }

  /** One block with the record "a" and, behind its padding, an unused one of twelve bytes. */
  function Splits(): seq<byte> { seq(1024, i requires 0 <= i < 1024 => SplitsByte(i)) }

  function SplitsByte(i: nat): byte {
    if i == 0 then 2 else if i == 4 then 244 else if i == 5 then 3 else if i == 6 then 1 else if i == 8 then 97
    else if i == 1016 then 12 else 0
  }

  lemma SplitsRecords(d: seq<byte>)
    requires d == Splits()
    ensures RecordAt(d, SAMPLE_LIMITS, 0, 2, 1012, 1) && RecordAt(d, SAMPLE_LIMITS, 1012, 0, 12, 0) && ERec(d, 12) == 0
  {
    SampleLengths();
    hide MinLen, RecordAt;
    HeaderRecord(d, SAMPLE_LIMITS, 0, 2, 1012, 1);
    HeaderRecord(d, SAMPLE_LIMITS, 1012, 0, 12, 0);
  }

  lemma TwoRecords(d: seq<byte>, l: Limits, b: nat, n: nat, name: seq<byte>)
    requires GoodLimits(l) && RecordAt(d, l, 0, 2, b, 1) && RecordAt(d, l, b, 0, 12, 0) && 0 < b
    requires b + 12 == |d| && Rem(|d|, l.blockSize) == 0 && |name| == 5 && n <= 264 && !FitsAt(l, b, n)
    ensures TooSmall(d, l, b, n) && Lookup(Parse(d, l, 0), name) == Miss
    ensures Lookup(Parse(d, l, 0), EName(d, 0)) == Hit(2, 0)
  {
    hide ValidAt, MinLen, EIno, ERec, ENameLen, Rem;
    assert Reach(d, l, b, b) && Reach(d, l, 0, b);
    LookupStep(d, l, 0, name);
    LookupStep(d, l, 0, EName(d, 0));
    LookupStep(d, l, b, name);
    LookupStep(d, l, |d|, name);
  }

  /** There the step back ends in the padding of "a", and a new name of five bytes leaves bytes that are no records. */
  lemma SampleSplit(d: seq<byte>, l: Limits, ino: nat, name: seq<byte>, behind: seq<byte>, slack: seq<byte>,
                    c: seq<byte>, e: seq<byte>)
    requires d == Splits() && l == SAMPLE_LIMITS && LastAt(d, l, 1012) && 0 < ino && |name| == 5
    requires |behind| == 0x1_0000 && slack == Leftover(d, l, 1012, behind)
    requires c == RoomMade(d, l, 1012, MinLen(5), slack) && HasRecord(c, e, l, |d|, ino, l.blockSize, name)
    ensures TooSmall(d, l, 1012, MinLen(5)) && !Added(d, e, l, |d|, ino, name)
  {
    SampleLengths();
    SplitsRecords(d);
    assert |d| == 1024 && ERec(d, 1012) == 12 && ERec(d, 0) == 1012 && EIno(d, 0) == 2 && ValidAt(d, l, 0);
    hide Added, RoomMade, HasRecord, Splits, RecordAt, MinLen, LastAt, TooSmall, Leftover, EName, ValidAt;
    TwoRecords(d, l, 1012, MinLen(|name|), name);
    if Added(d, e, l, |d|, ino, name) {
      SplitNeedsLength(d, l, 0, 1000, 1012, 1012, ino, name, behind, slack, c, e, 12);
    }
  }

  /** One block whose only record is in use and has no name. */
  function Nameless(): seq<byte> {
    seq(1024, i requires 0 <= i < 1024 => if i == 0 then 5 else if i == 5 then 4 else 0)
  }

  /** There the record is cut to eight bytes, and any new name leaves a directory that is no longer tiled. */
  lemma SampleNameless(d: seq<byte>, l: Limits, n: nat, slack: seq<byte>, c: seq<byte>, e: seq<byte>)
    requires d == Nameless() && l == SAMPLE_LIMITS && LastAt(d, l, 0) && n <= 264 && |slack| == 0x1_0000
    requires c == RoomMade(d, l, 0, n, slack) && Same(c, e, 0, HEADER)
    ensures PlaceOf(d, l, 0, n) == HEADER && Parse(d, l, 0).ok && !Parse(e, l, 0).ok
  {
    SampleLengths();
    hide MinLen;
    HeaderRecord(d, l, 0, 5, 1024, 0);
    AtLast(d, l, 0);
    assert |d| == 1024 && EIno(d, 0) == 5 && ENameLen(d, 0) == 0;
    hide Nameless, RecordAt, RoomMade, PlaceOf, Parse;
    NamelessLast(d, l, 0, n, slack, c, e);
  }
}
