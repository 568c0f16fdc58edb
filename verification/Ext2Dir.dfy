/** Directories of ext2/ext2.c: blocks tiled by variable-length records, as functions of the directory's bytes. */
module Ext2Dir {
  import opened Arith
  import opened Bitmap
  import opened Ext2Tree

  const HEADER := 8
  const NAME_MAX := 255
  const ENTRY_SIZE := 263

  function Le16(s: seq<byte>, at: nat): nat
    requires at + 2 <= |s|
  {
    s[at] as int + 256 * (s[at + 1] as int)
  }

  /** round_up(n, 4) */
  function Up4(n: nat): (r: nat)
    ensures n <= r < n + 4
  {
    if n == 0 then 0 else if n <= 4 then 4 else 4 + Up4(n - 4)
  }

  lemma {:induction false} Up4Aligned(n: nat)
    ensures Rem(Up4(n), 4) == 0
  {
    if 4 < n {
      Up4Aligned(n - 4);
    }
  }

  /** dir_entry_min_len(): header and name, rounded up to four bytes. */
  function MinLen(nameLen: nat): (r: nat) {
    Up4(HEADER + nameLen)
  }

  /** The limits that dir_entry_valid() checks against. */
  datatype Limits = Limits(blockSize: nat, inodes: nat)

  /** `n` bytes from offset `o`: d[o..o + n] (SliceIs). */
  function Slice(d: seq<byte>, o: nat, n: nat): (r: seq<byte>)
    requires o + n <= |d|
    ensures |r| == n
  {
    if n == 0 then [] else Slice(d, o, n - 1) + [d[o + n - 1]]
  }

  lemma {:induction false} SliceIs(d: seq<byte>, o: nat, n: nat)
    requires o + n <= |d|
    ensures Slice(d, o, n) == d[o..o + n]
  {
    if n > 0 {
      SliceIs(d, o, n - 1);
    }
  }

  lemma SubSlice(d: seq<byte>, o: nat, hi: nat, a: nat, b: nat)
    requires o <= hi <= |d| && a <= b <= hi - o
    ensures d[o..hi][a..b] == d[o + a..o + b]
  {
    var x, y := d[o..hi][a..b], d[o + a..o + b];
    assert forall k :: 0 <= k < b - a ==> x[k] == d[o..hi][a + k] == d[o + (a + k)] == y[k];
  }

  lemma {:induction false} SameSlice(d: seq<byte>, e: seq<byte>, o: nat, n: nat)
    requires o + n <= |d| && o + n <= |e| && forall k :: o <= k < o + n ==> d[k] == e[k]
    ensures Slice(d, o, n) == Slice(e, o, n)
  {
    if n > 0 {
      SameSlice(d, e, o, n - 1);
    }
  }

  function EIno(d: seq<byte>, o: nat): nat
    requires o + HEADER <= |d|
  {
    Le32(d, o)
  }

  function ERec(d: seq<byte>, o: nat): nat
    requires o + HEADER <= |d|
  {
    Le16(d, o + 4)
  }

  function ENameLen(d: seq<byte>, o: nat): nat
    requires o + HEADER <= |d|
  {
    d[o + 6]
  }

  function EName(d: seq<byte>, o: nat): seq<byte>
    requires o + HEADER <= |d| && o + HEADER + ENameLen(d, o) <= |d|
  {
    Slice(d, o + HEADER, ENameLen(d, o))
  }

  /** dir_entry_valid() */
  predicate ValidAt(d: seq<byte>, l: Limits, o: nat)
    requires 0 < l.blockSize
  {
    && o + HEADER <= |d|
    && Rem(o, 4) == 0 && Rem(ERec(d, o), 4) == 0
    && 12 <= ERec(d, o) && MinLen(ENameLen(d, o)) <= ERec(d, o)
    && ERec(d, o) + Rem(o, l.blockSize) <= l.blockSize
    && o + ERec(d, o) <= |d|
    && EIno(d, o) <= l.inodes
  }

  /** The layout of struct dir_entry, byte by byte, and what dir_entry_valid() demands of it. */
  lemma RecordLayout(d: seq<byte>, l: Limits, o: nat)
    requires 0 < l.blockSize && o + 8 <= |d|
    ensures var rec, len := d[o + 4] as nat + 0x100 * (d[o + 5] as nat), d[o + 6] as nat;
            var ino := d[o] as nat + 0x100 * (d[o + 1] as nat) + 0x10000 * (d[o + 2] as nat) +
                       0x1000000 * (d[o + 3] as nat);
            && (ValidAt(d, l, o) <==>
                && o % 4 == 0 && rec % 4 == 0 && 12 <= rec && 8 + len <= rec && o + rec <= |d|
                && o % l.blockSize + rec <= l.blockSize && ino <= l.inodes)
            && (ValidAt(d, l, o) ==> EntAt(d, l, o) == Ent(o, ino, d[o + 8..o + 8 + len]))
  {
    QuotIsDiv(o, 4);
    QuotIsDiv(ERec(d, o), 4);
    QuotIsDiv(o, l.blockSize);
    if Rem(ERec(d, o), 4) == 0 {
      NameFits(ENameLen(d, o), ERec(d, o));
    }
    if ValidAt(d, l, o) {
      SliceIs(d, o + HEADER, ENameLen(d, o));
    }
    hide Up4, Rem, Slice;
  }

  /** A name fits a record of a multiple of four bytes exactly if its rounded length does. */
  lemma NameFits(len: nat, rec: nat)
    requires Rem(rec, 4) == 0
    ensures MinLen(len) <= rec <==> 8 + len <= rec
  {
    Up4Aligned(8 + len);
    QuotIsDiv(rec, 4);
    QuotIsDiv(Up4(8 + len), 4);
  }

  /** A record: where it starts, its inode number (0 when unused) and its name. */
  datatype Ent = Ent(at: nat, ino: nat, name: seq<byte>)

  /** The records of a directory from some offset on; `ok` when they end exactly at the end of the directory. */
  datatype Listing = Listing(ents: seq<Ent>, ok: bool)

  function EntAt(d: seq<byte>, l: Limits, o: nat): Ent
    requires 0 < l.blockSize && ValidAt(d, l, o)
  {
    Ent(o, EIno(d, o), EName(d, o))
  }

  /** Walk the records from offset `o`, as every loop over a directory does. */
  function Parse(d: seq<byte>, l: Limits, o: nat): Listing
    requires 0 < l.blockSize
    decreases |d| - o
  {
    if |d| <= o then Listing([], o == |d|)
    else if !ValidAt(d, l, o) then Listing([], false)
    else
      var rest := Parse(d, l, o + ERec(d, o));
      Listing([EntAt(d, l, o)] + rest.ents, rest.ok)
  }

  lemma ParseStep(d: seq<byte>, l: Limits, o: nat)
    requires 0 < l.blockSize && ValidAt(d, l, o)
    ensures var rest := Parse(d, l, o + ERec(d, o));
            Parse(d, l, o) == Listing([EntAt(d, l, o)] + rest.ents, rest.ok)
  {
  }

  datatype Found = Hit(ino: nat, at: nat) | Miss | Bad

  /** find_dir_entry(): the first live record with the name; Bad when the walk meets a bad record first. */
  function Lookup(dir: Listing, name: seq<byte>): Found
    decreases |dir.ents|
  {
    if dir.ents == [] then if dir.ok then Miss else Bad
    else if dir.ents[0].ino != 0 && dir.ents[0].name == name then Hit(dir.ents[0].ino, dir.ents[0].at)
    else Lookup(Listing(dir.ents[1..], dir.ok), name)
  }

  /** find_dir_entry() on a directory in order never meets a bad record. */
  lemma {:induction false} OkNotBad(dir: Listing, name: seq<byte>)
    requires dir.ok
    ensures Lookup(dir, name) != Bad
    decreases |dir.ents|
  {
    if dir.ents != [] {
      OkNotBad(Listing(dir.ents[1..], dir.ok), name);
    }
  }

  /** The inode numbers of the live records. */
  function Links(ents: seq<Ent>): multiset<nat> {
    if ents == [] then multiset{}
    else (if ents[0].ino == 0 then multiset{} else multiset{ents[0].ino}) + Links(ents[1..])
  }

  lemma {:induction false} LinksConcat(a: seq<Ent>, b: seq<Ent>)
    ensures Links(a + b) == Links(a) + Links(b)
  {
    if a == [] {
      assert a + b == b;
    } else {
      assert (a + b)[1..] == a[1..] + b;
      LinksConcat(a[1..], b);
    }
  }

  /** A hit among the first records, or else the answer of the remaining ones. */
  lemma {:induction false} LookupConcat(a: seq<Ent>, b: seq<Ent>, ok: bool, name: seq<byte>)
    ensures Lookup(Listing(a + b, ok), name) ==
            if Lookup(Listing(a, true), name) == Miss then Lookup(Listing(b, ok), name)
            else Lookup(Listing(a, true), name)
  {
    if a == [] {
      assert a + b == b;
    } else {
      assert (a + b)[1..] == a[1..] + b;
      LookupConcat(a[1..], b, ok, name);
    }
  }

  /** Valid records lead from offset `o` exactly to offset `b`. */
  predicate Reach(d: seq<byte>, l: Limits, o: nat, b: nat)
    requires 0 < l.blockSize
    decreases b - o
  {
    o == b || (o < b && ValidAt(d, l, o) && Reach(d, l, o + ERec(d, o), b))
  }

  function Upto(d: seq<byte>, l: Limits, o: nat, b: nat): seq<Ent>
    requires 0 < l.blockSize && Reach(d, l, o, b)
    decreases b - o
  {
    if o == b then [] else [EntAt(d, l, o)] + Upto(d, l, o + ERec(d, o), b)
  }

  lemma UptoStep(d: seq<byte>, l: Limits, o: nat, b: nat, next: nat)
    requires 0 < l.blockSize && o < b && ValidAt(d, l, o) && next == o + ERec(d, o) && Reach(d, l, next, b)
    ensures Reach(d, l, o, b) && Upto(d, l, o, b) == [EntAt(d, l, o)] + Upto(d, l, next, b)
  {
  }

  /** Two directories hold the same bytes from `lo` up to `hi`. */
  predicate Same(d: seq<byte>, e: seq<byte>, lo: nat, hi: nat) {
    hi <= |d| && hi <= |e| && forall k :: lo <= k < hi ==> d[k] == e[k]
  }

  /** A record whose bytes agree reads the same in both directories. */
  lemma SameEntry(d: seq<byte>, e: seq<byte>, l: Limits, o: nat)
    requires 0 < l.blockSize && ValidAt(d, l, o) && Same(d, e, o, o + ERec(d, o))
    ensures ValidAt(e, l, o) && ERec(e, o) == ERec(d, o) && EntAt(e, l, o) == EntAt(d, l, o)
  {
    SameSlice(d, e, o + HEADER, ENameLen(d, o));
  }

  lemma ReachEntry(d: seq<byte>, l: Limits, o: nat, b: nat)
    requires 0 < l.blockSize && Reach(d, l, o, b) && o < b
    ensures ValidAt(d, l, o) && o + ERec(d, o) <= b && Reach(d, l, o + ERec(d, o), b)
  {
  }

  /** The records before a boundary, then the rest. */
  lemma {:induction false} ParseSplit(d: seq<byte>, l: Limits, o: nat, b: nat)
    requires 0 < l.blockSize && Reach(d, l, o, b) && b <= |d|
    ensures Parse(d, l, o) == Listing(Upto(d, l, o, b) + Parse(d, l, b).ents, Parse(d, l, b).ok)
    decreases b - o
  {
    if o == b {
      assert [] + Parse(d, l, b).ents == Parse(d, l, b).ents;
    } else {
      var next := o + ERec(d, o);
      ReachEntry(d, l, o, b);
      ParseSplit(d, l, next, b);
      assert [EntAt(d, l, o)] + (Upto(d, l, next, b) + Parse(d, l, b).ents)
          == ([EntAt(d, l, o)] + Upto(d, l, next, b)) + Parse(d, l, b).ents;
    }
  }

  /** Up to a boundary, equal bytes hold equal records. */
  lemma {:induction false} SamePrefix(d: seq<byte>, e: seq<byte>, l: Limits, o: nat, b: nat)
    requires 0 < l.blockSize && Same(d, e, o, b) && Reach(d, l, o, b)
    ensures Reach(e, l, o, b) && Upto(e, l, o, b) == Upto(d, l, o, b)
    decreases b - o
  {
    if o < b {
      ReachEntry(d, l, o, b);
      SameEntry(d, e, l, o);
      var next := o + ERec(d, o);
      SamePrefix(d, e, l, next, b);
      UptoStep(d, l, o, b, next);
      UptoStep(e, l, o, b, next);
    }
  }

  /** Two directories with a common prefix: the same records first, then their own. */
  lemma SameUpTo(d: seq<byte>, e: seq<byte>, l: Limits, b: nat) returns (before: seq<Ent>)
    requires 0 < l.blockSize && Same(d, e, 0, b) && Reach(d, l, 0, b)
    ensures Parse(d, l, 0) == Listing(before + Parse(d, l, b).ents, Parse(d, l, b).ok)
    ensures Parse(e, l, 0) == Listing(before + Parse(e, l, b).ents, Parse(e, l, b).ok)
  {
    SamePrefix(d, e, l, 0, b);
    ParseSplit(d, l, 0, b);
    ParseSplit(e, l, 0, b);
    before := Upto(d, l, 0, b);
  }

  lemma SameValid(d: seq<byte>, e: seq<byte>, l: Limits, o: nat)
    requires 0 < l.blockSize && |e| == |d| && Same(d, e, o, |d|)
    ensures ValidAt(e, l, o) == ValidAt(d, l, o)
    ensures ValidAt(d, l, o) ==> ERec(e, o) == ERec(d, o) && EntAt(e, l, o) == EntAt(d, l, o)
  {
    if ValidAt(d, l, o) {
      SameEntry(d, e, l, o);
    }
  }

  /** From a common suffix on, the records agree. */
  lemma ParseEnd(d: seq<byte>, l: Limits, o: nat)
    requires 0 < l.blockSize && (|d| <= o || !ValidAt(d, l, o))
    ensures Parse(d, l, o) == Listing([], o == |d|)
  {
  }

  lemma LaterValid(d: seq<byte>, l: Limits, o: nat)
    requires 0 < l.blockSize && ValidAt(d, l, o)
    ensures o + HEADER <= |d| && o < o + ERec(d, o) <= |d|
  {
  }

  lemma {:induction false} SameSuffix(d: seq<byte>, e: seq<byte>, l: Limits, o: nat)
    requires 0 < l.blockSize && |e| == |d| && Same(d, e, o, |d|)
    ensures Parse(e, l, o) == Parse(d, l, o)
    decreases |d| - o
  {
    hide ValidAt, EName, EIno, Parse;
    SameValid(d, e, l, o);
    if o < |d| && ValidAt(d, l, o) {
      LaterValid(d, l, o);
      SameSuffix(d, e, l, o + ERec(d, o));
      ParseStep(d, l, o);
      ParseStep(e, l, o);
    } else {
      ParseEnd(d, l, o);
      ParseEnd(e, l, o);
    }
  }

  /** The last record of the directory starts at `lo`. */
  predicate LastAt(d: seq<byte>, l: Limits, lo: nat)
    requires 0 < l.blockSize
  {
    Reach(d, l, 0, lo) && ValidAt(d, l, lo) && lo + ERec(d, lo) == |d|
  }

  lemma AtLast(d: seq<byte>, l: Limits, o: nat)
    requires 0 < l.blockSize && ValidAt(d, l, o) && o + ERec(d, o) == |d|
    ensures Parse(d, l, o) == Listing([EntAt(d, l, o)], true)
  {
    assert Parse(d, l, |d|) == Listing([], true);
  }

  /** `e` has the same last record as `d` up to its padding. */
  predicate SameLast(d: seq<byte>, e: seq<byte>, l: Limits, lo: nat)
    requires 0 < l.blockSize
  {
    && LastAt(d, l, lo) && |e| == |d| && Same(d, e, 0, lo)
    && ValidAt(e, l, lo) && ERec(e, lo) == ERec(d, lo) && EntAt(e, l, lo) == EntAt(d, l, lo)
  }

  /** Rewriting the last record with other padding changes no record. */
  lemma SameLastParse(d: seq<byte>, e: seq<byte>, l: Limits, lo: nat)
    requires 0 < l.blockSize && SameLast(d, e, l, lo)
    ensures Parse(e, l, 0) == Parse(d, l, 0)
  {
    var before := SameUpTo(d, e, l, lo);
    AtLast(d, l, lo);
    AtLast(e, l, lo);
  }

  /** `e` is `d` with one more live record, at `p`: in an empty directory, in place of an unused last record
      or behind the last record. It is the last record of `e`. */
  predicate Placed(d: seq<byte>, e: seq<byte>, l: Limits, lo: nat, p: nat, ino: nat, newName: seq<byte>)
    requires 0 < l.blockSize
  {
    && Same(d, e, 0, lo)
    && (|| (|d| == 0 && p == 0)
        || (LastAt(d, l, lo) && EIno(d, lo) == 0 && p == lo)
        || (&& LastAt(d, l, lo) && ValidAt(e, l, lo) && EntAt(e, l, lo) == EntAt(d, l, lo)
            && p == lo + ERec(e, lo)))
    && ValidAt(e, l, p) && EIno(e, p) == ino != 0 && EName(e, p) == newName && p + ERec(e, p) == |e|
  }

  /** The records of `e`: those of `d`, less an unused last one, and the new one. */
  lemma PlacedParse(d: seq<byte>, e: seq<byte>, l: Limits, lo: nat, p: nat, ino: nat, newName: seq<byte>)
    returns (before: seq<Ent>, last: seq<Ent>)
    requires 0 < l.blockSize && Placed(d, e, l, lo, p, ino, newName)
    ensures Parse(d, l, 0) == Listing(before + last, true)
    ensures Parse(e, l, 0) == Listing(before + (if p == lo then [] else last) + [Ent(p, ino, newName)], true)
    ensures |last| <= 1 && (p == lo && |last| == 1 ==> last[0].ino == 0)
  {
    hide Reach, Upto, Same, Rem, MinLen, ENameLen, EName;
    AtLast(e, l, p);
    if |d| == 0 {
      before, last := [], [];
    } else {
      before := SameUpTo(d, e, l, lo);
      AtLast(d, l, lo);
      last := [EntAt(d, l, lo)];
      if p != lo {
        assert Parse(e, l, lo).ents == [EntAt(e, l, lo)] + Parse(e, l, p).ents;
        assert before + (last + [Ent(p, ino, newName)]) == before + last + [Ent(p, ino, newName)];
      }
    }
  }

  /** A new record keeps the directory tiled, resolves to its inode and leaves every other lookup alone. */
  lemma PlacedLookup(d: seq<byte>, e: seq<byte>, l: Limits, lo: nat, p: nat, ino: nat, newName: seq<byte>,
                     name: seq<byte>)
    requires 0 < l.blockSize && Placed(d, e, l, lo, p, ino, newName)
    ensures Parse(e, l, 0).ok && Links(Parse(e, l, 0).ents) == Links(Parse(d, l, 0).ents) + multiset{ino}
    ensures Lookup(Parse(e, l, 0), name) ==
            if Lookup(Parse(d, l, 0), name) == Miss && name == newName then Hit(ino, p)
            else Lookup(Parse(d, l, 0), name)
  {
    var before, last := PlacedParse(d, e, l, lo, p, ino, newName);
    var kept, new_ := if p == lo then [] else last, [Ent(p, ino, newName)];
    ConcatFacts(before, last, name);
    ConcatFacts(before, kept, name);
    ConcatFacts(before + kept, new_, name);
    assert Links(new_) == multiset{ino};
  }

  lemma ConcatFacts(a: seq<Ent>, b: seq<Ent>, name: seq<byte>)
    ensures Links(a + b) == Links(a) + Links(b)
    ensures Lookup(Listing(a + b, true), name) ==
            if Lookup(Listing(a, true), name) == Miss then Lookup(Listing(b, true), name)
            else Lookup(Listing(a, true), name)
    ensures |b| == 1 ==> Links(b) == if b[0].ino == 0 then multiset{} else multiset{b[0].ino}
    ensures |b| == 1 ==> Lookup(Listing(b, true), name) ==
                         if b[0].ino != 0 && b[0].name == name then Hit(b[0].ino, b[0].at) else Miss
    ensures b == [] ==> a + b == a
  {
    LinksConcat(a, b);
    LookupConcat(a, b, true, name);
    assert |b| == 1 ==> Links(b[1..]) == multiset{};
  }

  /** `e` is `d` after file_delete() cleared the inode number of the record at `at`. */
  predicate Removed(d: seq<byte>, e: seq<byte>, l: Limits, at: nat)
    requires 0 < l.blockSize
  {
    && Reach(d, l, 0, at) && ValidAt(d, l, at) && EIno(d, at) != 0
    && |e| == |d| && Same(d, e, 0, at) && Same(d, e, at + ERec(d, at), |d|)
    && ValidAt(e, l, at) && ERec(e, at) == ERec(d, at) && EIno(e, at) == 0
  }

  lemma RemovedParse(d: seq<byte>, e: seq<byte>, l: Limits, at: nat)
    returns (before: seq<Ent>, after: seq<Ent>, ok: bool)
    requires 0 < l.blockSize && Removed(d, e, l, at)
    ensures Parse(d, l, 0) == Listing(before + ([EntAt(d, l, at)] + after), ok)
    ensures Parse(e, l, 0) == Listing(before + ([EntAt(e, l, at)] + after), ok)
  {
    hide Parse, Reach, Upto, Same, Rem, MinLen, EName, ENameLen, EIno;
    before := SameUpTo(d, e, l, at);
    SameSuffix(d, e, l, at + ERec(d, at));
    ParseStep(d, l, at);
    ParseStep(e, l, at);
    var rest := Parse(d, l, at + ERec(d, at));
    after, ok := rest.ents, rest.ok;
  }

  /** Deleting a record removes one link and changes no other name's lookup. */
  lemma RemovedLookup(d: seq<byte>, e: seq<byte>, l: Limits, at: nat, name: seq<byte>)
    requires 0 < l.blockSize && Removed(d, e, l, at)
    ensures Parse(e, l, 0).ok == Parse(d, l, 0).ok
    ensures Links(Parse(d, l, 0).ents) == Links(Parse(e, l, 0).ents) + multiset{EIno(d, at)}
    ensures name != EName(d, at) ==> Lookup(Parse(e, l, 0), name) == Lookup(Parse(d, l, 0), name)
  {
    var before, after, ok := RemovedParse(d, e, l, at);
    var x, y := [EntAt(d, l, at)], [EntAt(e, l, at)];
    LinksConcat(before, x + after);
    LinksConcat(before, y + after);
    LinksConcat(x, after);
    LinksConcat(y, after);
    LookupConcat(before, x + after, ok, name);
    LookupConcat(before, y + after, ok, name);
    LookupConcat(x, after, ok, name);
    LookupConcat(y, after, ok, name);
    ConcatFacts([], x, name);
    ConcatFacts([], y, name);
  }

  /** One turn of a search. */
  lemma LookupStep(d: seq<byte>, l: Limits, o: nat, name: seq<byte>)
    requires 0 < l.blockSize && o <= |d|
    ensures o == |d| ==> Lookup(Parse(d, l, o), name) == Miss
    ensures o < |d| && !ValidAt(d, l, o) ==> Lookup(Parse(d, l, o), name) == Bad
    ensures o < |d| && ValidAt(d, l, o) ==>
              Lookup(Parse(d, l, o), name) == if EIno(d, o) != 0 && EName(d, o) == name then Hit(EIno(d, o), o)
              else Lookup(Parse(d, l, o + ERec(d, o)), name)
  {
    if o < |d| && ValidAt(d, l, o) {
      var rest := Parse(d, l, o + ERec(d, o));
      assert ([EntAt(d, l, o)] + rest.ents)[1..] == rest.ents;
    }
  }

  lemma {:induction false} ReachExtend(d: seq<byte>, l: Limits, o: nat, b: nat)
    requires 0 < l.blockSize && Reach(d, l, o, b) && ValidAt(d, l, b)
    ensures Reach(d, l, o, b + ERec(d, b))
    decreases b - o
  {
    if o < b {
      ReachEntry(d, l, o, b);
      ReachExtend(d, l, o + ERec(d, o), b);
    }
  }
}
