/** Directories that ext2_new_dir_entry() of ext2/ext2.c damages: a nameless last record in use, and an unused last
    record that is too small for the new one. */
module Ext2SmallSlot {
  import opened Arith
  import opened Bitmap
  import opened Ext2Core
  import opened Ext2Vol
  import opened Ext2File
  import opened Ext2Dir
  import opened Ext2DirWrite
  import opened Ext2DirOps
  import opened Ext2NewEntry
  import opened Ext2Live

  /** A directory that shares its records with `d` up to `b` and has a bad record there is no longer tiled. */
  lemma BadRecord(d: seq<byte>, e: seq<byte>, l: Limits, b: nat)
    requires 0 < l.blockSize && Reach(d, l, 0, b) && Same(d, e, 0, b) && b < |e| && !ValidAt(e, l, b)
    ensures !Parse(e, l, 0).ok
  {
    SamePrefix(d, e, l, 0, b);
    ParseSplit(e, l, 0, b);
  }

  /** A last record in use without a name is trimmed to eight bytes, which no record may have: if the new record
      goes behind it, the directory is no longer tiled. */
  lemma NamelessLast(d: seq<byte>, l: Limits, lo: nat, n: nat, slack: seq<byte>, c: seq<byte>, e: seq<byte>)
    requires GoodLimits(l) && LastAt(d, l, lo) && Rem(|d|, l.blockSize) == 0 && n <= 264 && |slack| == 0x1_0000
    requires EIno(d, lo) != 0 && ENameLen(d, lo) == 0 && FitsAt(l, lo + HEADER, n)
    requires c == RoomMade(d, l, lo, n, slack) && Same(c, e, 0, lo + HEADER)
    ensures PlaceOf(d, l, lo, n) == lo + HEADER && !Parse(e, l, 0).ok
  {
    MinLenRange(ENameLen(d, lo));
    TrimFits(d, l, lo, n);
    var t := LastBytes(d, lo, EIno(d, lo), HEADER, HEADER, slack);
    assert c == Overwrite(d, lo, t);
    OverwriteBytes(d, lo, t);
    SubSlice(c, lo, lo + |t|, 0, HEADER);
    HeaderAt(c, lo, EIno(d, lo), HEADER, d[lo + 6], d[lo + 7]);
    BadRecord(d, e, l, lo);
  }

  /** The last record, at `lo`, is unused and has no room for `n` bytes. */
  predicate TooSmall(d: seq<byte>, l: Limits, lo: nat, n: nat)
    requires 0 < l.blockSize
  {
    Rem(|d|, l.blockSize) == 0 && LastAt(d, l, lo) && EIno(d, lo) == 0 && n <= 264 && !FitsAt(l, lo, n)
  }

  /** Offset `at` lies in the record at `s`. */
  predicate Holds(d: seq<byte>, l: Limits, s: nat, at: nat)
    requires 0 < l.blockSize
  {
    Reach(d, l, 0, s) && ValidAt(d, l, s) && s <= at < s + ERec(d, s)
  }

  /** Every offset before a record boundary lies in some record. */
  lemma {:induction false} Holder(d: seq<byte>, l: Limits, o: nat, lo: nat, at: nat) returns (s: nat)
    requires 0 < l.blockSize && Reach(d, l, 0, o) && Reach(d, l, o, lo) && o <= at < lo
    ensures Holds(d, l, s, at) && s < lo
    decreases lo - o
  {
    ReachEntry(d, l, o, lo);
    if at < o + ERec(d, o) {
      s := o;
    } else {
      ReachExtend(d, l, 0, o);
      s := Holder(d, l, o + ERec(d, o), lo, at);
    }
  }

  lemma {:induction false} ReachRest(d: seq<byte>, l: Limits, o: nat, s: nat, lo: nat)
    requires 0 < l.blockSize && Reach(d, l, o, s) && Reach(d, l, o, lo) && s <= lo
    ensures Reach(d, l, s, lo)
    decreases s - o
  {
    if o < s {
      ReachEntry(d, l, o, s);
      ReachEntry(d, l, o, lo);
      ReachRest(d, l, o + ERec(d, o), s, lo);
    }
  }

  /** The bytes of the last record, written at `at`. */
  lemma MovedFields(d: seq<byte>, lo: nat, at: nat, rec: nat, slack: seq<byte>, c: seq<byte>)
    requires lo + HEADER <= |d| && HEADER <= rec <= |slack| && rec < 0x1_0000 && at + rec == |d|
    requires c == Overwrite(d, at, LastBytes(d, lo, 0, rec, rec, slack))
    ensures |c| == |d| && Same(d, c, 0, at)
    ensures EIno(c, at) == 0 && ERec(c, at) == rec && ENameLen(c, at) == ENameLen(d, lo)
  {
    var t := LastBytes(d, lo, 0, rec, rec, slack);
    assert t[..HEADER] == Header(0, rec, d[lo + 6], d[lo + 7]);
    hide LastBytes, Overwrite, Header;
    OverwriteBytes(d, at, t);
    SubSlice(c, at, at + |t|, 0, HEADER);
    HeaderAt(c, at, 0, rec, d[lo + 6], d[lo + 7]);
  }

  /** The source steps back once more by the length of the record, and writes it from there to the end of the block. */
  lemma SlotAt(d: seq<byte>, l: Limits, at: nat, lo: nat, n: nat, slack: seq<byte>, c: seq<byte>, rec: nat)
    requires GoodLimits(l) && TooSmall(d, l, lo, n) && |slack| == 0x1_0000 && rec == 2 * ERec(d, lo)
    requires at + ERec(d, lo) == lo && c == RoomMade(d, l, lo, n, slack)
    ensures rec <= 528 && at + rec == |d| && Rem(at, l.blockSize) + rec == l.blockSize && PlaceOf(d, l, lo, n) == |d|
    ensures c == Overwrite(d, at, LastBytes(d, lo, 0, rec, rec, slack))
  {
    hide Reach, Overwrite, LastBytes, Rem;
    StepBack(d, l, lo, n);
    UnusedCases(d, l, lo, n, slack, at);
  }

  /** Where the bytes behind the moved header come from: the unused record, then what memory held. */
  lemma MovedBytes(d: seq<byte>, lo: nat, at: nat, rec: nat, slack: seq<byte>, c: seq<byte>, x: nat)
    requires lo + HEADER <= |d| <= lo + ENTRY_SIZE && at + (|d| - lo) == lo && rec == |d| - at <= |slack| &&
             rec < 0x1_0000
    requires c == Overwrite(d, at, LastBytes(d, lo, 0, rec, rec, slack))
    ensures |c| == |d|
    ensures at <= x < at + 4 ==> c[x] == 0
    ensures at + HEADER <= x < lo ==> c[x] == d[x + (|d| - lo)]
    ensures lo <= x < |d| ==> c[x] == slack[x - lo]
  {
    var t := LastBytes(d, lo, 0, rec, rec, slack);
    OverwriteAt(d, at, t);
    if at <= x < |d| {
      assert c[x] == t[x - at];
    }
  }

  /** A record in a new block behind the directory: what comes before it reads as it did. */
  lemma {:induction false} AppendedParse(c: seq<byte>, e: seq<byte>, l: Limits, ino: nat, name: seq<byte>, o: nat)
    requires 0 < l.blockSize && HasRecord(c, e, l, |c|, ino, l.blockSize, name) && Rem(|c|, l.blockSize) == 0 &&
             o <= |c|
    ensures Parse(e, l, o).ok == Parse(c, l, o).ok
    ensures Parse(c, l, o).ok ==> Parse(e, l, o).ents == Parse(c, l, o).ents + [Ent(|c|, ino, name)]
    decreases |c| - o
  {
    hide Rem, EName, MinLen;
    if o == |c| {
      AtLast(e, l, o);
    } else {
      AppendedValid(c, e, l, ino, name, o);
      if ValidAt(c, l, o) {
        SameEntry(c, e, l, o);
        var next, x, y := o + ERec(c, o), EntAt(c, l, o), Ent(|c|, ino, name);
        AppendedParse(c, e, l, ino, name, next);
        assert [x] + (Parse(c, l, next).ents + [y]) == ([x] + Parse(c, l, next).ents) + [y];
      }
    }
  }

  lemma AppendedValid(c: seq<byte>, e: seq<byte>, l: Limits, ino: nat, name: seq<byte>, o: nat)
    requires 0 < l.blockSize && HasRecord(c, e, l, |c|, ino, l.blockSize, name) && Rem(|c|, l.blockSize) == 0 && o < |c|
    ensures ValidAt(e, l, o) == ValidAt(c, l, o)
  {
    hide Quot, EName, MinLen;
    QuotRem(o, l.blockSize);
    QuotRem(|c|, l.blockSize);
    if Quot(|c|, l.blockSize) <= Quot(o, l.blockSize) {
      TimesMonotone(Quot(|c|, l.blockSize), Quot(o, l.blockSize), l.blockSize);
    }
    TimesMonotone(Quot(o, l.blockSize) + 1, Quot(|c|, l.blockSize), l.blockSize);
  }

  /** ext2_new_dir_entry() on a directory whose last record is unused and too small: `c` is what the source leaves
      before it writes the new record, `e` what it leaves then. */
  ghost predicate Moved(d: seq<byte>, l: Limits, at: nat, lo: nat, ino: nat, name: seq<byte>, slack: seq<byte>,
                        c: seq<byte>, e: seq<byte>)
  {
    && GoodLimits(l) && 0 < |name| < 255 && 0 < ino && Lookup(Parse(d, l, 0), name) == Miss && |slack| == 0x1_0000
    && TooSmall(d, l, lo, MinLen(|name|)) && at + ERec(d, lo) == lo
    && c == RoomMade(d, l, lo, MinLen(|name|), slack) && HasRecord(c, e, l, |d|, ino, l.blockSize, name)
  }

  lemma MovedSmall(d: seq<byte>, l: Limits, lo: nat, n: nat)
    requires GoodLimits(l) && TooSmall(d, l, lo, n)
    ensures lo + HEADER <= |d| == lo + ERec(d, lo) && ERec(d, lo) < 264 && HEADER <= ERec(d, lo) &&
            Rem(ERec(d, lo), 4) == 0
  {
    hide Rem, Reach, EIno, EName, MinLen;
    StepBack(d, l, lo, n);
  }

  lemma MovedFacts(d: seq<byte>, l: Limits, at: nat, lo: nat, ino: nat, name: seq<byte>, slack: seq<byte>, c: seq<byte>,
                   e: seq<byte>, rec: nat)
    requires Moved(d, l, at, lo, ino, name, slack, c, e) && rec == 2 * ERec(d, lo)
    ensures |c| == |d| == at + rec && |d| <= lo + ENTRY_SIZE && rec <= 528 && Rem(at, l.blockSize) + rec == l.blockSize
    ensures Same(d, c, 0, at) && Same(c, e, 0, |d|) && Rem(rec, 4) == 0 && Rem(|e|, l.blockSize) == 0
    ensures EIno(c, at) == 0 && ERec(c, at) == rec && ENameLen(c, at) == ENameLen(d, lo)
    ensures c == Overwrite(d, at, LastBytes(d, lo, 0, rec, rec, slack)) && PlaceOf(d, l, lo, MinLen(|name|)) == |d|
  {
    hide LastBytes, Overwrite, RoomMade, Rem, Reach, Parse, Lookup, PlaceOf, EIno, ERec, EName, ENameLen, MinLen,
      LastAt, FitsAt;
    MovedSmall(d, l, lo, MinLen(|name|));
    var r := ERec(d, lo);
    SlotAt(d, l, at, lo, MinLen(|name|), slack, c, rec);
    MovedFields(d, lo, at, rec, slack, c);
    RemSum(r, r);
    RemNext(|d|, l.blockSize, l.blockSize);
  }

  /** Adding a record in a new block behind `c`, in terms of the live records of `c`. */
  lemma AddedLive(d: seq<byte>, c: seq<byte>, e: seq<byte>, l: Limits, ino: nat, name: seq<byte>)
    requires 0 < l.blockSize && 0 < ino && |c| == |d| && Rem(|c|, l.blockSize) == 0 && Rem(|e|, l.blockSize) == 0
    requires HasRecord(c, e, l, |d|, ino, l.blockSize, name) && Lookup(Parse(d, l, 0), name) == Miss
    ensures Added(d, e, l, |d|, ino, name) ==>
              Parse(c, l, 0).ok && Links(Parse(c, l, 0).ents) == Links(Parse(d, l, 0).ents)
    ensures SameLive(d, c, l) ==> Added(d, e, l, |d|, ino, name)
    ensures Named(Parse(d, l, 0).ents) && Added(d, e, l, |d|, ino, name) ==> SameLive(d, c, l)
  {
    MissOk(Parse(d, l, 0), name);
    AppendedParse(c, e, l, ino, name, 0);
    ParseOrdered(d, l, 0);
    ParseOrdered(c, l, 0);
    hide Parse, Lookup, Links, Live, Rem, Named, Ordered, HasRecord;
    var a, b, y := Parse(d, l, 0).ents, Parse(c, l, 0).ents, Ent(|d|, ino, name);
    assert Parse(d, l, 0) == Listing(a, true);
    if Parse(c, l, 0).ok {
      assert Parse(e, l, 0) == Listing(b + [y], true);
      assert Added(d, e, l, |d|, ino, name) == Gains(a, b, y);
      if Gains(a, b, y) {
        GainsLinks(a, b, y);
      }
      if Named(a) {
        GainsExactly(a, b, y);
      }
      if Live(b) == Live(a) {
        LiveGains(a, b, y);
      }
    }
  }

  /** Two directories are tiled and have the same live records at the same places. */
  predicate SameLive(d: seq<byte>, c: seq<byte>, l: Limits)
    requires 0 < l.blockSize
  {
    Parse(c, l, 0).ok && Live(Parse(c, l, 0).ents) == Live(Parse(d, l, 0).ents)
  }

  lemma BoundaryTails(before: seq<Ent>, xs: seq<Ent>, y: Ent, z: Ent)
    requires y.ino == 0 && z.ino == 0
    ensures Live(before + [z]) == Live(before + (xs + [y])) <==> Links(xs) == multiset{}
    ensures Links(before + [z]) == Links(before + (xs + [y])) ==> Links(xs) == multiset{}
  {
    hide Live, Links;
    LiveConcat(before, [z]);
    LiveConcat(before, xs + [y]);
    LiveConcat(xs, [y]);
    LiveOne(y);
    LiveOne(z);
    LiveLinks(before + [z]);
    LiveLinks(before + (xs + [y]));
    LiveLinks(xs);
  }

  /** The second step back ends on a record boundary: the directory stays intact if and only if all the records that are
      swallowed were unused. */
  lemma BoundaryExact(d: seq<byte>, l: Limits, at: nat, lo: nat, ino: nat, name: seq<byte>, slack: seq<byte>,
                      c: seq<byte>, e: seq<byte>)
    requires Moved(d, l, at, lo, ino, name, slack, c, e) && Reach(d, l, 0, at)
    ensures Reach(d, l, at, lo) && (Added(d, e, l, |d|, ino, name) <==> Links(Upto(d, l, at, lo)) == multiset{})
  {
    MovedFacts(d, l, at, lo, ino, name, slack, c, e, 2 * ERec(d, lo));
    hide Overwrite, LastBytes, RoomMade, Rem, Added, Lookup, Links, Live;
    AddedLive(d, c, e, l, ino, name);
    ReachRest(d, l, 0, at, lo);
    ReachEntry(d, l, at, lo);
    var before := SameUpTo(d, c, l, at);
    AtLast(c, l, at);
    AtLast(d, l, lo);
    ParseSplit(d, l, at, lo);
    BoundaryTails(before, Upto(d, l, at, lo), EntAt(d, l, lo), EntAt(c, l, at));
  }

  /** It ends behind the inode number of a record: that record is left with length 0. */
  lemma SplitHeader(d: seq<byte>, l: Limits, s: nat, at: nat, lo: nat, ino: nat, name: seq<byte>, slack: seq<byte>,
                    c: seq<byte>, e: seq<byte>)
    requires Moved(d, l, at, lo, ino, name, slack, c, e) && Holds(d, l, s, at) && at == s + 4
    ensures !Parse(e, l, 0).ok
  {
    MovedFacts(d, l, at, lo, ino, name, slack, c, e, 2 * ERec(d, lo));
    hide Rem, Reach, RoomMade, LastBytes, Overwrite;
    MovedBytes(d, lo, at, 2 * ERec(d, lo), slack, c, at);
    MovedBytes(d, lo, at, 2 * ERec(d, lo), slack, c, at + 1);
    assert ERec(e, s) == 0;
    BadRecord(d, e, l, s);
  }

  /** It ends behind the header of a record: the header survives, and leads to the boundary behind it. */
  lemma SplitReach(d: seq<byte>, c: seq<byte>, l: Limits, s: nat, at: nat, next: nat)
    requires 0 < l.blockSize && Holds(d, l, s, at) && s + HEADER <= at && |c| == |d| && Same(d, c, 0, at)
    requires next == s + ERec(d, s)
    ensures ValidAt(c, l, s) && EIno(c, s) == EIno(d, s) && ERec(c, s) == ERec(d, s) && ENameLen(c, s) == ENameLen(d, s)
    ensures Reach(c, l, 0, s) && Reach(c, l, 0, next)
  {
    hide Rem, Reach, EName, MinLen, Upto;
    SameShorter(d, c, s, at);
    SamePrefix(d, c, l, 0, s);
    ReachExtend(c, l, 0, s);
  }

  lemma SameShorter(d: seq<byte>, c: seq<byte>, s: nat, at: nat)
    requires Same(d, c, 0, at) && s <= at
    ensures Same(d, c, 0, s)
  {
  }

  /** Both listings around the split record. */
  lemma SplitParse(d: seq<byte>, c: seq<byte>, l: Limits, s: nat, at: nat, next: nat, lo: nat)
    returns (before: seq<Ent>)
    requires 0 < l.blockSize && Holds(d, l, s, at) && s + HEADER <= at < lo && |c| == |d| && Same(d, c, 0, at)
    requires next == s + ERec(d, s) && LastAt(d, l, lo)
    ensures ValidAt(c, l, s) && next <= lo && Reach(d, l, next, lo)
    ensures Parse(d, l, 0) == Listing(before + ([EntAt(d, l, s)] + (Upto(d, l, next, lo) + [EntAt(d, l, lo)])), true)
    ensures Parse(c, l, 0) == Listing(before + ([EntAt(c, l, s)] + Parse(c, l, next).ents), Parse(c, l, next).ok)
  {
    hide Rem, EIno, EName, ENameLen, MinLen, Lookup, Links;
    SplitReach(d, c, l, s, at, next);
    ReachRest(d, l, 0, s, lo);
    ReachEntry(d, l, s, lo);
    SameShorter(d, c, s, at);
    hide Reach, ValidAt, Same, Parse, Upto;
    before := SameUpTo(d, c, l, s);
    ParseStep(d, l, s);
    ParseStep(c, l, s);
    ParseSplit(d, l, next, lo);
    AtLast(d, l, lo);
  }

  /** The split record keeps its meaning: it is unused, or its name has not changed. */
  predicate NameKept(d: seq<byte>, c: seq<byte>, l: Limits, s: nat)
    requires 0 < l.blockSize && ValidAt(d, l, s) && ValidAt(c, l, s)
  {
    EIno(d, s) == 0 || EName(c, s) == EName(d, s)
  }

  /** Two listings that differ in the name of one record and in what follows. */
  lemma SplitTails(before: seq<Ent>, x: Ent, x': Ent, xs: seq<Ent>, y: Ent, zs: seq<Ent>)
    requires y.ino == 0 && x'.ino == x.ino && x'.at == x.at
    ensures Live(before + ([x'] + zs)) == Live(before + ([x] + (xs + [y]))) <==>
            (x.ino == 0 || x'.name == x.name) && Live(zs) == Live(xs)
    ensures Links(before + ([x'] + zs)) == Links(before + ([x] + (xs + [y]))) ==> Links(zs) == Links(xs)
  {
    hide Live, Links;
    TailsLive(before, x', zs);
    TailsLive(before, x, xs + [y]);
    LiveConcat(xs, [y]);
    LiveOne(y);
    assert Live(xs) + [] == Live(xs) && [] + Live(xs) == Live(xs) && [] + Live(zs) == Live(zs);
    TailsLinks(before, x', zs);
    TailsLinks(before, x, xs + [y]);
    LinksConcat(xs, [y]);
    ConcatFacts(xs, [y], []);
    PrefixCancel(Live(before), Live([x']) + Live(zs), Live([x]) + Live(xs));
    HeadCancel(x', Live(zs), x, Live(xs));
    LiveOne(x);
    LiveOne(x');
    if Links(before + ([x'] + zs)) == Links(before + ([x] + (xs + [y]))) {
      LinksCancel(Links(before) + (if x.ino == 0 then multiset{} else multiset{x.ino}), Links(zs), Links(xs));
    }
  }

  lemma PrefixCancel(p: seq<Ent>, a: seq<Ent>, b: seq<Ent>)
    ensures p + a == p + b <==> a == b
  {
    assert a == (p + a)[|p|..] && b == (p + b)[|p|..];
  }

  lemma HeadCancel(x: Ent, a: seq<Ent>, y: Ent, b: seq<Ent>)
    ensures [x] + a == [y] + b <==> x == y && a == b
  {
    assert ([x] + a)[0] == x && ([y] + b)[0] == y && a == ([x] + a)[1..] && b == ([y] + b)[1..];
  }

  lemma LinksCancel(a: multiset<nat>, b: multiset<nat>, c: multiset<nat>)
    requires a + b == a + c
    ensures b == c
  {
    forall i: nat ensures b[i] == c[i] {
      assert (a + b)[i] == (a + c)[i];
    }
  }

  lemma TailsLive(before: seq<Ent>, x: Ent, xs: seq<Ent>)
    ensures Live(before + ([x] + xs)) == Live(before) + (Live([x]) + Live(xs))
  {
    LiveConcat(before, [x] + xs);
    LiveConcat([x], xs);
  }

  lemma TailsLinks(before: seq<Ent>, x: Ent, xs: seq<Ent>)
    ensures Links(before + ([x] + xs)) ==
            (Links(before) + (if x.ino == 0 then multiset{} else multiset{x.ino})) + Links(xs)
  {
    hide Links;
    LinksConcat(before, [x] + xs);
    LinksConcat([x], xs);
    ConcatFacts([], [x], []);
  }

  /** It ends behind the header of a record, before the boundary `next`: the directory keeps its live records if and
      only if the split record keeps its meaning and the bytes from `next` on are records with the live ones that were
      there. */
  lemma SplitExact(d: seq<byte>, l: Limits, s: nat, at: nat, next: nat, lo: nat, ino: nat, name: seq<byte>,
                   slack: seq<byte>, c: seq<byte>, e: seq<byte>)
    requires Moved(d, l, at, lo, ino, name, slack, c, e) && Holds(d, l, s, at) && s + HEADER <= at &&
             next == s + ERec(d, s)
    ensures ValidAt(c, l, s) && next <= lo && Reach(d, l, next, lo) && Parse(c, l, 0).ok == Parse(c, l, next).ok
    ensures SameLive(d, c, l) <==>
            NameKept(d, c, l, s) && Parse(c, l, next).ok && Live(Parse(c, l, next).ents) == Live(Upto(d, l, next, lo))
    ensures Links(Parse(c, l, 0).ents) == Links(Parse(d, l, 0).ents) ==>
              Links(Parse(c, l, next).ents) == Links(Upto(d, l, next, lo))
  {
    MovedFacts(d, l, at, lo, ino, name, slack, c, e, 2 * ERec(d, lo));
    hide Overwrite, LastBytes, RoomMade, Rem, Lookup, Links, Live, Parse, Reach, Upto, HasRecord;
    SplitReach(d, c, l, s, at, next);
    var before := SplitParse(d, c, l, s, at, next, lo);
    SplitTails(before, EntAt(d, l, s), EntAt(c, l, s), Upto(d, l, next, lo), EntAt(d, l, lo), Parse(c, l, next).ents);
  }

  /** It ends inside the name of a record: the moved inode number is written over the name. */
  lemma NameLost(d: seq<byte>, l: Limits, s: nat, at: nat, lo: nat, ino: nat, name: seq<byte>, slack: seq<byte>,
                 c: seq<byte>, e: seq<byte>)
    requires Moved(d, l, at, lo, ino, name, slack, c, e) && Holds(d, l, s, at) && EIno(d, s) != 0
    requires s + HEADER <= at < s + HEADER + ENameLen(d, s) && d[at] != 0
    ensures ValidAt(c, l, s) && !NameKept(d, c, l, s)
  {
    MovedFacts(d, l, at, lo, ino, name, slack, c, e, 2 * ERec(d, lo));
    hide RoomMade, Rem, Parse, Lookup, Overwrite, LastBytes, Reach, MinLen, EName, EIno;
    MovedBytes(d, lo, at, 2 * ERec(d, lo), slack, c, at);
    SplitReach(d, c, l, s, at, s + ERec(d, s));
    NameDiffers(d, c, s, at);
  }

  lemma NameDiffers(d: seq<byte>, c: seq<byte>, s: nat, at: nat)
    requires |c| == |d| && s + HEADER <= |d| && ENameLen(c, s) == ENameLen(d, s) && s + HEADER + ENameLen(d, s) <= |d|
    requires s + HEADER <= at < s + HEADER + ENameLen(d, s) && c[at] != d[at]
    ensures EName(c, s) != EName(d, s)
  {
    SliceIs(d, s + HEADER, ENameLen(d, s));
    SliceIs(c, s + HEADER, ENameLen(c, s));
    assert EName(d, s)[at - s - HEADER] == d[at] && EName(c, s)[at - s - HEADER] == c[at];
  }

  /** The record length that is found at the boundary behind a split record: stale bytes of the unused record, or what
      memory held. */
  lemma StaleLength(d: seq<byte>, l: Limits, s: nat, at: nat, next: nat, lo: nat, ino: nat, name: seq<byte>,
                    slack: seq<byte>, c: seq<byte>, e: seq<byte>, r: nat)
    requires Moved(d, l, at, lo, ino, name, slack, c, e) && Holds(d, l, s, at) && next == s + ERec(d, s) &&
             r == ERec(d, lo)
    ensures at + 4 <= next <= lo && lo + r == |d| && 12 <= r && next + HEADER <= |c| &&
            (next < lo ==> next + HEADER <= lo)
    ensures ERec(c, next) == if next < lo then ERec(d, next + r) else Le16(slack, 4)
  {
    hide RoomMade, Rem, Parse, Lookup, Overwrite, LastBytes, Reach, MinLen, EName, EIno;
    MovedFacts(d, l, at, lo, ino, name, slack, c, e, 2 * r);
    NextFits(d, l, s, at, next, lo);
    hide ValidAt;
    MovedBytes(d, lo, at, 2 * r, slack, c, next + 4);
    MovedBytes(d, lo, at, 2 * r, slack, c, next + 5);
  }

  lemma NextFits(d: seq<byte>, l: Limits, s: nat, at: nat, next: nat, lo: nat)
    requires 0 < l.blockSize && LastAt(d, l, lo) && at + ERec(d, lo) == lo && Holds(d, l, s, at) &&
             next == s + ERec(d, s)
    ensures at + 4 <= next <= lo && 12 <= ERec(d, lo) && (next < lo ==> next + HEADER <= lo)
  {
    ReachRest(d, l, 0, s, lo);
    ReachEntry(d, l, s, lo);
    if next < lo {
      ReachEntry(d, l, next, lo);
    }
    NextAligned(d, l, s, at, next, lo);
  }

  lemma NextAligned(d: seq<byte>, l: Limits, s: nat, at: nat, next: nat, lo: nat)
    requires 0 < l.blockSize && ValidAt(d, l, s) && ValidAt(d, l, lo) && at + ERec(d, lo) == lo
    requires s <= at < next == s + ERec(d, s)
    ensures at + 4 <= next && at % 4 == 0 && s % 4 == 0
  {
    hide Rem, EIno, EName, MinLen;
    RemDifference(lo, ERec(d, lo));
    RemSum(s, ERec(d, s));
    hide ERec, ValidAt;
    QuotIsDiv(at, 4);
    QuotIsDiv(s, 4);
    QuotIsDiv(next, 4);
  }

  /** What the struct holds behind the bytes of the last record: those of the record before it. */
  lemma LeftoverAt(d: seq<byte>, l: Limits, s: nat, lo: nat, behind: seq<byte>, i: nat, r: nat)
    requires 0 < l.blockSize && |behind| == 0x1_0000 && LastAt(d, l, lo) && r == ERec(d, lo)
    requires Reach(d, l, 0, s) && ValidAt(d, l, s) && s + ERec(d, s) == lo && r + i < ENTRY_SIZE && s + r + i < |d|
    ensures Leftover(d, l, lo, behind)[i] == d[s + (r + i)]
  {
    hide Scanned, Zeros, Reach, Rem, EIno, EName, MinLen;
    ScannedStep(d, l, 0, s, Zeros(ENTRY_SIZE), lo);
    hide ValidAt;
    var first := Scanned(d, l, 0, s, Zeros(ENTRY_SIZE));
    ReadBefore(d, s, first, r, behind, i);
  }

  lemma ReadBefore(d: seq<byte>, s: nat, first: seq<byte>, r: nat, behind: seq<byte>, i: nat)
    requires |first| == ENTRY_SIZE && r + i < ENTRY_SIZE && s + (r + i) < |d| && |behind| == 0x1_0000
    ensures (ReadInto(d, s, first)[r..] + behind)[..0x1_0000][i] == d[s + (r + i)]
  {
    var was := ReadInto(d, s, first);
    assert was[r..][i] == was[r + i];
  }

  /** The condition under which the directory survives. On a boundary: what is swallowed was unused. Elsewhere: the
      split record keeps its meaning, and the bytes behind it are records with the live ones that were there. */
  predicate SlotKeeps(d: seq<byte>, c: seq<byte>, l: Limits, s: nat, at: nat, next: nat, lo: nat)
    requires 0 < l.blockSize && ValidAt(d, l, s) && Reach(d, l, s, lo) && Reach(d, l, next, lo)
  {
    if at == s then Links(Upto(d, l, s, lo)) == multiset{}
    else
      && s + HEADER <= at && ValidAt(c, l, s) && NameKept(d, c, l, s)
      && Parse(c, l, next).ok && Live(Parse(c, l, next).ents) == Live(Upto(d, l, next, lo))
  }

  /** The name of the live record at `s` has a byte at `at`, and it is not 0. */
  predicate InName(d: seq<byte>, s: nat, at: nat) {
    s + HEADER <= at < |d| && at < s + HEADER + ENameLen(d, s) && d[at] != 0 && EIno(d, s) != 0
  }

  lemma FourApart(s: nat, at: nat)
    requires s % 4 == 0 && at % 4 == 0
    ensures s < at < s + HEADER ==> at == s + 4
  {
  }

  lemma SlotPlaces(d: seq<byte>, l: Limits, s: nat, at: nat, next: nat, lo: nat)
    requires 0 < l.blockSize && LastAt(d, l, lo) && at + ERec(d, lo) == lo && Holds(d, l, s, at) &&
             next == s + ERec(d, s)
    ensures Reach(d, l, s, lo) && Reach(d, l, next, lo) && (s < at < s + HEADER ==> at == s + 4)
  {
    hide Rem, EIno, EName, ENameLen, MinLen, Reach, ValidAt;
    NextFits(d, l, s, at, next, lo);
    NextAligned(d, l, s, at, next, lo);
    ReachRest(d, l, 0, s, lo);
    ReachEntry(d, l, s, lo);
    hide ERec;
    FourApart(s, at);
  }

  /** An unused last record that is too small is written over the directory from `at` on, which lies in the record at
      `s`. When the directory survives that, for every directory and every content of memory. */
  lemma SmallSlotExact(d: seq<byte>, l: Limits, s: nat, at: nat, next: nat, lo: nat, ino: nat, name: seq<byte>,
                       slack: seq<byte>, c: seq<byte>, e: seq<byte>)
    requires Moved(d, l, at, lo, ino, name, slack, c, e) && Holds(d, l, s, at) && next == s + ERec(d, s)
    ensures Reach(d, l, s, lo) && Reach(d, l, next, lo)
    ensures SlotKeeps(d, c, l, s, at, next, lo) ==> Added(d, e, l, |d|, ino, name)
    ensures s == at || Named(Parse(d, l, 0).ents) ==>
              (Added(d, e, l, |d|, ino, name) <==> SlotKeeps(d, c, l, s, at, next, lo))
    ensures Named(Parse(d, l, 0).ents) && InName(d, s, at) ==> !Added(d, e, l, |d|, ino, name)
    ensures s < at && Added(d, e, l, |d|, ino, name) ==>
              && s + HEADER <= at && Parse(c, l, next).ok
              && Links(Parse(c, l, next).ents) == Links(Upto(d, l, next, lo))
  {
    SlotPlaces(d, l, s, at, next, lo);
    MovedFacts(d, l, at, lo, ino, name, slack, c, e, 2 * ERec(d, lo));
    hide RoomMade, Rem, Added, Reach, Parse, Links, Upto, Lookup, EName, EIno, ENameLen, MinLen, HasRecord, Live, Named;
    if s == at {
      BoundaryExact(d, l, at, lo, ino, name, slack, c, e);
    } else if at < s + HEADER {
      SplitHeader(d, l, s, at, lo, ino, name, slack, c, e);
      NotTiled(d, e, l, |d|, ino, name);
    } else {
      AddedLive(d, c, e, l, ino, name);
      SplitExact(d, l, s, at, next, lo, ino, name, slack, c, e);
      if InName(d, s, at) {
        NameLost(d, l, s, at, lo, ino, name, slack, c, e);
      }
    }
  }

  lemma NotTiled(d: seq<byte>, e: seq<byte>, l: Limits, p: nat, ino: nat, name: seq<byte>)
    requires 0 < l.blockSize && !Parse(e, l, 0).ok
    ensures !Added(d, e, l, p, ino, name)
  {
  }

  /** If the step back ends inside a record, the directory survives only if a record length of at least twelve happens
      to stand at the right place: in the stale bytes of the unused record, or, if that follows the split record at
      once, in the split record itself. */
  lemma SplitNeedsLength(d: seq<byte>, l: Limits, s: nat, at: nat, next: nat, lo: nat, ino: nat, name: seq<byte>,
                         behind: seq<byte>, slack: seq<byte>, c: seq<byte>, e: seq<byte>, r: nat)
    requires Moved(d, l, at, lo, ino, name, slack, c, e) && Holds(d, l, s, at) && s < at && r == ERec(d, lo)
    requires |behind| == 0x1_0000 && slack == Leftover(d, l, lo, behind) && Added(d, e, l, |d|, ino, name)
    requires next == s + ERec(d, s)
    ensures next < lo ==> next + r + HEADER <= |d| && 12 <= ERec(d, next + r)
    ensures next == lo && r <= 256 ==> s + r + HEADER <= |d| && 12 <= ERec(d, s + r)
  {
    hide RoomMade, Rem, Added, Reach, Links, Upto, Lookup, EName, EIno, MinLen, HasRecord, Leftover;
    StaleLength(d, l, s, at, next, lo, ino, name, slack, c, e, r);
    SmallSlotExact(d, l, s, at, next, lo, ino, name, slack, c, e);
    OkValid(c, l, next);
    if next == lo && r <= 256 {
      LeftoverAt(d, l, s, lo, behind, 4, r);
      LeftoverAt(d, l, s, lo, behind, 5, r);
    }
  }

  lemma OkValid(c: seq<byte>, l: Limits, o: nat)
    requires 0 < l.blockSize && Parse(c, l, o).ok && o + HEADER <= |c|
    ensures 12 <= ERec(c, o)
  {
  }

  /** A call whose new record arrives in a new block behind such a directory leaves exactly these bytes. */
  lemma FromCall(v: Vol, w: Vol, n: nat, lo: nat, ino: nat, name: seq<byte>, kind: byte, ret: Ret,
                 behind: seq<byte>, mem: seq<byte>)
    returns (at: nat, slack: seq<byte>, c: seq<byte>)
    requires Attempted(v, w, n, lo, ino, name, kind, ret, behind, mem) && 0 < |name| < 255 && 0 < ino &&
             DirBytes(v, n) != []
    requires Lookup(Parse(DirBytes(v, n), Lim(v), 0), name) == Miss && Arrived(ret, |DirBytes(v, n)|, Area(v))
    requires TooSmall(DirBytes(v, n), Lim(v), lo, MinLen(|name|))
    ensures slack == Leftover(DirBytes(v, n), Lim(v), lo, behind)
    ensures Moved(DirBytes(v, n), Lim(v), at, lo, ino, name, slack, c, DirBytes(w, n))
  {
    var d, l, len := DirBytes(v, n), Lim(v), MinLen(|name|);
    slack := Leftover(d, l, lo, behind);
    c := RoomMade(d, l, lo, len, slack);
    StepBack(d, l, lo, len);
    at := lo - ERec(d, lo);
    SlotAt(d, l, at, lo, len, slack, c, 2 * ERec(d, lo));
  }

  /** The record goes into a new block behind the directory, or behind a nameless record of eight bytes. */
  lemma UnfinePlaces(d: seq<byte>, l: Limits, lo: nat, n: nat, slack: seq<byte>, c: seq<byte>, p: nat)
    requires GoodLimits(l) && LastOk(d, l, lo) && Rem(|d|, l.blockSize) == 0 && n <= 264 && |slack| == 0x1_0000
    requires c == RoomMade(d, l, lo, n, slack) && p == PlaceOf(d, l, lo, n) && !SlotFine(d, l, lo, n)
    ensures |c| == |d| && LastAt(d, l, lo) && lo + HEADER <= |d|
    ensures if EIno(d, lo) == 0 then TooSmall(d, l, lo, n) && p == |d| && RestOf(l, p) == l.blockSize
            else ENameLen(d, lo) == 0 && FitsAt(l, lo + HEADER, n) && p == lo + HEADER
  {
    hide Rem, Reach, Prepared, EIno;
    RoomFacts(d, l, lo, n, slack, c, p);
    MinLenRange(0);
  }

  /** Where the second step back ends: at `at`, in the record at `s`. */
  predicate Lands(d: seq<byte>, l: Limits, lo: nat, s: nat, at: nat)
    requires 0 < l.blockSize && LastAt(d, l, lo)
  {
    && at + ERec(d, lo) == lo && Holds(d, l, s, at) && Reach(d, l, s, lo) && Reach(d, l, s + ERec(d, s), lo)
  }

  lemma LandsSomewhere(d: seq<byte>, l: Limits, lo: nat, n: nat) returns (s: nat, at: nat)
    requires GoodLimits(l) && TooSmall(d, l, lo, n)
    ensures Lands(d, l, lo, s, at)
  {
    StepBack(d, l, lo, n);
    at := lo - ERec(d, lo);
    s := Holder(d, l, 0, lo, at);
    SlotPlaces(d, l, s, at, s + ERec(d, s), lo);
  }

  /** ext2_new_dir_entry() on every directory without duplicate names: the new name is added and nothing else changes if
      and only if the last record allows it, or is unused and too small and the second step back, which ends at `at` in
      the record at `s`, leaves the live records. */
  lemma NewEntryExact(d: seq<byte>, l: Limits, lo: nat, ino: nat, name: seq<byte>, slack: seq<byte>, c: seq<byte>,
                      p: nat, e: seq<byte>) returns (s: nat, at: nat)
    requires GoodLimits(l) && LastOk(d, l, lo) && Rem(|d|, l.blockSize) == 0 && |slack| == 0x1_0000
    requires 0 < |name| < 255 && MinLen(|name|) <= 264 && 0 < ino && Lookup(Parse(d, l, 0), name) == Miss
    requires c == RoomMade(d, l, lo, MinLen(|name|), slack) && p == PlaceOf(d, l, lo, MinLen(|name|))
    requires HasRecord(c, e, l, p, ino, RestOf(l, p), name) && Named(Parse(d, l, 0).ents)
    ensures TooSmall(d, l, lo, MinLen(|name|)) ==> Lands(d, l, lo, s, at)
    ensures Added(d, e, l, p, ino, name) <==>
            || SlotFine(d, l, lo, MinLen(|name|))
            || (TooSmall(d, l, lo, MinLen(|name|)) && SlotKeeps(d, c, l, s, at, s + ERec(d, s), lo))
  {
    hide RoomMade, PlaceOf, RestOf, Added, Parse, Lookup, MinLen, Named, Rem, Live, Reach, SlotFine, LastAt, ValidAt,
      EIno, FitsAt, TooSmall, SlotKeeps;
    s, at := 0, 0;
    if SlotFine(d, l, lo, MinLen(|name|)) {
      RecordAdds(d, l, lo, ino, name, slack, c, p, e);
      FineNotSmall(d, l, lo, MinLen(|name|));
    } else {
      UnfinePlaces(d, l, lo, MinLen(|name|), slack, c, p);
      if EIno(d, lo) == 0 {
        s, at := LandsSomewhere(d, l, lo, MinLen(|name|));
        SmallSlotExact(d, l, s, at, s + ERec(d, s), lo, ino, name, slack, c, e);
      } else {
        NamelessLast(d, l, lo, MinLen(|name|), slack, c, e);
        NotTiled(d, e, l, p, ino, name);
        UsedNotSmall(d, l, lo, MinLen(|name|));
      }
    }
  }

  lemma FineNotSmall(d: seq<byte>, l: Limits, lo: nat, n: nat)
    requires 0 < l.blockSize && LastOk(d, l, lo) && SlotFine(d, l, lo, n)
    ensures !TooSmall(d, l, lo, n)
  {
  }

  lemma UsedNotSmall(d: seq<byte>, l: Limits, lo: nat, n: nat)
    requires 0 < l.blockSize && LastAt(d, l, lo) && EIno(d, lo) != 0
    ensures !TooSmall(d, l, lo, n)
  {
  }

  /** If the new record does not arrive, such a directory without duplicate names keeps its meaning if and only if the
      second step back leaves the live records. */
  lemma FailedExact(v: Vol, w: Vol, n: nat, lo: nat, ino: nat, name: seq<byte>, kind: byte, ret: Ret,
                    behind: seq<byte>, mem: seq<byte>)
    requires Attempted(v, w, n, lo, ino, name, kind, ret, behind, mem) && DirBytes(v, n) != []
    requires Named(Parse(DirBytes(v, n), Lim(v), 0).ents) && Parse(DirBytes(v, n), Lim(v), 0).ok
    requires !Arrived(ret, PlaceOf(DirBytes(v, n), Lim(v), lo, MinLen(|name|)), Area(v))
    ensures var d, e := Parse(DirBytes(v, n), Lim(v), 0), Parse(DirBytes(w, n), Lim(v), 0);
            e.ok && Means(d.ents, e.ents) <==> SameLive(DirBytes(v, n), DirBytes(w, n), Lim(v))
    ensures DirBytes(w, n) == RoomMade(DirBytes(v, n), Lim(v), lo, MinLen(|name|),
                                       SlackOf(DirBytes(v, n), Lim(v), lo, behind))
  {
    hide RoomMade, Parse, Named, Means, Live, Outcome, Content, LastAt;
    ParseOrdered(DirBytes(v, n), Lim(v), 0);
    ParseOrdered(DirBytes(w, n), Lim(v), 0);
    MeansExactly(Parse(DirBytes(v, n), Lim(v), 0).ents, Parse(DirBytes(w, n), Lim(v), 0).ents);
  }
}
