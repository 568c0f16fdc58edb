/** The bytes that ext2_new_dir_entry() and file_delete() of ext2/ext2.c write into a directory. */
module Ext2DirWrite {
  import opened Arith
  import opened Bitmap
  import opened Ext2Tree
  import opened Ext2File
  import opened Ext2Dir

  function Put16(x: nat): (r: seq<byte>)
    requires x < 0x1_0000
    ensures |r| == 2 && Le16(r, 0) == x
  {
    [x % 256, x / 256]
  }

  function Put32(x: nat): (r: seq<byte>)
    requires x < 0x1_0000_0000
    ensures |r| == 4 && Le32(r, 0) == x
  {
    Put16(x % 0x1_0000) + Put16(x / 0x1_0000)
  }

  /** The first eight bytes of struct dir_entry. */
  function Header(ino: nat, rec: nat, nameLen: byte, kind: byte): (r: seq<byte>)
    requires ino < 0x1_0000_0000 && rec < 0x1_0000
    ensures |r| == HEADER
  {
    Put32(ino) + Put16(rec) + [nameLen, kind]
  }

  /** A directory that holds a header at `at` has those fields there. */
  lemma HeaderAt(d: seq<byte>, at: nat, ino: nat, rec: nat, nameLen: byte, kind: byte)
    requires ino < 0x1_0000_0000 && rec < 0x1_0000 && at + HEADER <= |d|
    requires d[at..at + HEADER] == Header(ino, rec, nameLen, kind)
    ensures EIno(d, at) == ino && ERec(d, at) == rec && ENameLen(d, at) == nameLen && d[at + 7] == kind
  {
    var h := Header(ino, rec, nameLen, kind);
    var w := d[at..at + HEADER];
    assert w[0] == d[at] && w[1] == d[at + 1] && w[2] == d[at + 2] && w[3] == d[at + 3];
    assert w[4] == d[at + 4] && w[5] == d[at + 5] && w[6] == d[at + 6] && w[7] == d[at + 7];
    assert h[0] == Put32(ino)[0] && h[1] == Put32(ino)[1] && h[2] == Put32(ino)[2] && h[3] == Put32(ino)[3];
    assert h[4] == Put16(rec)[0] && h[5] == Put16(rec)[1];
  }

  /** What a write leaves alone and what it puts in place. */
  lemma OverwriteBytes(d: seq<byte>, at: nat, t: seq<byte>)
    requires at <= |d|
    ensures |Overwrite(d, at, t)| == Max(|d|, at + |t|)
    ensures Same(d, Overwrite(d, at, t), 0, at)
    ensures at + |t| <= |d| ==> Same(d, Overwrite(d, at, t), at + |t|, |d|)
    ensures Overwrite(d, at, t)[at..at + |t|] == t
  {
    OverwriteAt(d, at, t);
  }

  /** The first `n` bytes of the struct dir_entry that was read from offset `lo`, with a new inode number and
      record length. Behind the struct, memory holds `slack`. */
  function LastBytes(d: seq<byte>, lo: nat, ino: nat, rec: nat, n: nat, slack: seq<byte>): (r: seq<byte>)
    requires lo + HEADER <= |d| && ino < 0x1_0000_0000 && rec < 0x1_0000 && HEADER <= n <= |slack|
    ensures |r| == n
  {
    Header(ino, rec, d[lo + 6], d[lo + 7]) + (d[lo + HEADER..Min(lo + ENTRY_SIZE, |d|)] + slack)[..n - HEADER]
  }

  /** A struct dir_entry after a read at offset `o`: what a short read does not fill stays. */
  function ReadInto(d: seq<byte>, o: nat, entry: seq<byte>): (r: seq<byte>)
    requires o <= |d| && |entry| == ENTRY_SIZE
    ensures |r| == ENTRY_SIZE
  {
    var end := Min(o + ENTRY_SIZE, |d|);
    d[o..end] + entry[end - o..]
  }

  /** The struct after the reads of all the records from `o` up to `b`. */
  function Scanned(d: seq<byte>, l: Limits, o: nat, b: nat, entry: seq<byte>): (r: seq<byte>)
    requires 0 < l.blockSize && Reach(d, l, o, b) && b <= |d| && |entry| == ENTRY_SIZE
    ensures |r| == ENTRY_SIZE
    decreases b - o
  {
    if o == b then entry else Scanned(d, l, o + ERec(d, o), b, ReadInto(d, o, entry))
  }

  lemma {:induction false} ScannedStep(d: seq<byte>, l: Limits, o: nat, b: nat, entry: seq<byte>, next: nat)
    requires 0 < l.blockSize && Reach(d, l, o, b) && ValidAt(d, l, b) && next == b + ERec(d, b) && |entry| == ENTRY_SIZE
    ensures Reach(d, l, o, next) && Scanned(d, l, o, next, entry) == ReadInto(d, b, Scanned(d, l, o, b, entry))
    decreases b - o
  {
    ReachExtend(d, l, o, b);
    if o < b {
      ReachEntry(d, l, o, b);
      ScannedStep(d, l, o + ERec(d, o), b, ReadInto(d, o, entry), next);
    }
  }

  /** What follows the bytes of the last record in memory: the rest of the struct, left over from earlier reads, then
      `behind`. */
  function Leftover(d: seq<byte>, l: Limits, lo: nat, behind: seq<byte>): (r: seq<byte>)
    requires 0 < l.blockSize && LastAt(d, l, lo) && |behind| == 0x1_0000
    ensures |r| == 0x1_0000
  {
    (Scanned(d, l, 0, lo, Zeros(ENTRY_SIZE))[Min(ENTRY_SIZE, |d| - lo)..] + behind)[..0x1_0000]
  }

  /** `e` is `d` with another inode number and record length in the record at `lo`. */
  predicate Rewritten(d: seq<byte>, e: seq<byte>, l: Limits, lo: nat, ino: nat, rec: nat)
    requires 0 < l.blockSize && ValidAt(d, l, lo)
  {
    && |e| == |d| && Same(d, e, 0, lo) && Same(d, e, lo + rec, |d|)
    && ValidAt(e, l, lo) && ERec(e, lo) == rec && EntAt(e, l, lo) == Ent(lo, ino, EName(d, lo))
  }

  /** Rewriting a record in place, with a record length that holds its name. */
  lemma RewriteRecord(d: seq<byte>, l: Limits, lo: nat, ino: nat, rec: nat, slack: seq<byte>, e: seq<byte>)
    requires 0 < l.blockSize && ValidAt(d, l, lo) && ino <= l.inodes < 0x1_0000_0000 && 12 <= rec <= ERec(d, lo)
    requires MinLen(ENameLen(d, lo)) <= rec && Rem(rec, 4) == 0 && rec <= |slack|
    requires e == Overwrite(d, lo, LastBytes(d, lo, ino, rec, rec, slack))
    ensures Rewritten(d, e, l, lo, ino, rec)
  {
    var t := LastBytes(d, lo, ino, rec, rec, slack);
    OverwriteBytes(d, lo, t);
    assert e[lo..lo + HEADER] == e[lo..lo + |t|][..HEADER];
    HeaderAt(e, lo, ino, rec, d[lo + 6], d[lo + 7]);
    SameNameBytes(d, lo, t, slack, rec);
    SameSlice(d, e, lo + HEADER, ENameLen(d, lo));
  }

  lemma SameNameBytes(d: seq<byte>, lo: nat, t: seq<byte>, slack: seq<byte>, rec: nat)
    requires lo + HEADER <= |d| && HEADER + ENameLen(d, lo) <= rec == |t| <= |slack| && lo + rec <= |d|
    requires t[HEADER..] == (d[lo + HEADER..Min(lo + ENTRY_SIZE, |d|)] + slack)[..rec - HEADER]
    ensures Same(d, Overwrite(d, lo, t), lo + HEADER, lo + HEADER + ENameLen(d, lo))
  {
    var e := Overwrite(d, lo, t);
    OverwriteAt(d, lo, t);
    forall k | lo + HEADER <= k < lo + HEADER + ENameLen(d, lo)
      ensures d[k] == e[k]
    {
      assert e[k] == t[k - lo] == t[HEADER..][k - lo - HEADER];
    }
  }

  /** The bytes of a new record; `pad` follows the name up to the four-byte boundary. */
  function NewBytes(ino: nat, rec: nat, name: seq<byte>, kind: byte, pad: seq<byte>): (r: seq<byte>)
    requires ino < 0x1_0000_0000 && rec < 0x1_0000 && |name| < 256 && HEADER + |name| + |pad| == MinLen(|name|)
    ensures |r| == MinLen(|name|)
  {
    Header(ino, rec, |name|, kind) + name + pad
  }

  function Zeros(n: nat): (r: seq<byte>)
    ensures |r| == n
  {
    if n == 0 then [] else Zeros(n - 1) + [0]
  }

  /** `e` is `c` with a record at `p` that reaches to the end. */
  predicate HasRecord(c: seq<byte>, e: seq<byte>, l: Limits, p: nat, ino: nat, rec: nat, name: seq<byte>)
    requires 0 < l.blockSize
  {
    && |e| == p + rec && Same(c, e, 0, p)
    && ValidAt(e, l, p) && ERec(e, p) == rec && EntAt(e, l, p) == Ent(p, ino, name)
  }

  /** The two writes of a new record, its bytes and zeroes to the end of the block. */
  lemma NewRecord(c: seq<byte>, l: Limits, p: nat, ino: nat, rec: nat, name: seq<byte>, kind: byte, pad: seq<byte>,
                  n: nat, t: seq<byte>, c1: seq<byte>, e: seq<byte>)
    requires 0 < l.blockSize && p <= |c| <= p + rec && ino <= l.inodes < 0x1_0000_0000 && rec < 0x1_0000
    requires |name| < 256 && HEADER + |name| + |pad| == MinLen(|name|) == n <= rec && 12 <= rec
    requires Rem(p, 4) == 0 && Rem(rec, 4) == 0 && rec + Rem(p, l.blockSize) <= l.blockSize
    requires t == NewBytes(ino, rec, name, kind, pad)
    requires c1 == Overwrite(c, p, t) && e == Overwrite(c1, p + n, Zeros(rec - n))
    ensures HasRecord(c, e, l, p, ino, rec, name)
    ensures p + 8 <= |e| && e[p + 7] == kind && forall k :: p + n <= k < |e| ==> e[k] == 0
  {
    hide Overwrite, Zeros, NewBytes, EIno, ERec, ENameLen, EName, Rem, MinLen;
    OverwriteBytes(c, p, t);
    OverwriteBytes(c1, p + n, Zeros(rec - n));
    SameRange(c1, e, p, n);
    NewFields(e, p, ino, rec, name, kind, pad);
    forall k | p + n <= k < |e|
      ensures e[k] == 0
    {
      AllZero(rec - n, k - (p + n));
      assert e[k] == e[p + n..p + n + |Zeros(rec - n)|][k - (p + n)];
    }
  }

  lemma {:induction false} AllZero(n: nat, k: nat)
    requires k < n
    ensures Zeros(n)[k] == 0
  {
    if k < n - 1 {
      AllZero(n - 1, k);
    }
  }

  lemma SameRange(d: seq<byte>, e: seq<byte>, at: nat, n: nat)
    requires Same(d, e, 0, at + n)
    ensures d[at..at + n] == e[at..at + n]
  {
  }

  lemma NewFields(e: seq<byte>, p: nat, ino: nat, rec: nat, name: seq<byte>, kind: byte, pad: seq<byte>)
    requires ino < 0x1_0000_0000 && rec < 0x1_0000 && |name| < 256 && HEADER + |name| + |pad| == MinLen(|name|)
    requires p + MinLen(|name|) <= |e| && e[p..p + MinLen(|name|)] == NewBytes(ino, rec, name, kind, pad)
    ensures EIno(e, p) == ino && ERec(e, p) == rec && ENameLen(e, p) == |name| && EName(e, p) == name &&
            e[p + 7] == kind
  {
    hide EIno, ERec, Header, MinLen;
    var n := MinLen(|name|);
    SubSlice(e, p, p + n, 0, HEADER);
    SubSlice(e, p, p + n, HEADER, HEADER + |name|);
    HeaderAt(e, p, ino, rec, |name|, kind);
    SliceIs(e, p + HEADER, |name|);
  }

  /** A directory as the volume keeps it: whole blocks, exactly tiled by valid records. */
  predicate Tiled(d: seq<byte>, l: Limits)
    requires 0 < l.blockSize
  {
    Rem(|d|, l.blockSize) == 0 && Parse(d, l, 0).ok
  }

  predicate GoodLimits(l: Limits) {
    (l.blockSize == 1024 || l.blockSize == 2048 || l.blockSize == 4096) && l.inodes < 0x1_0000_0000
  }

  lemma RemNext(o: nat, n: nat, size: nat)
    requires 0 < size && Rem(o, size) + n <= size
    ensures Rem(o + n, size) == if Rem(o, size) + n == size then 0 else Rem(o, size) + n
  {
    QuotRem(o, size);
    if Rem(o, size) + n == size {
      QuotRemUnique(Quot(o, size) + 1, size, 0);
    } else {
      QuotRemUnique(Quot(o, size), size, Rem(o, size) + n);
    }
  }

  lemma RemSum(a: nat, b: nat)
    requires Rem(a, 4) == 0 && Rem(b, 4) == 0
    ensures Rem(a + b, 4) == 0
  {
    QuotIsDiv(a, 4);
    QuotIsDiv(b, 4);
    QuotIsDiv(a + b, 4);
  }

  lemma RemDifference(a: nat, b: nat)
    requires b <= a && Rem(a, 4) == 0 && Rem(b, 4) == 0
    ensures Rem(a - b, 4) == 0
  {
    QuotIsDiv(a, 4);
    QuotIsDiv(b, 4);
    QuotIsDiv(a - b, 4);
  }

  lemma {:induction false} BlocksAligned(q: nat, size: nat)
    requires Rem(size, 4) == 0
    ensures Rem(Times(q, size), 4) == 0
  {
    if q > 0 {
      BlocksAligned(q - 1, size);
      RemSum(Times(q - 1, size), size);
    }
  }

  /** The rest of a block behind an aligned offset is aligned. */
  lemma RestAligned(o: nat, l: Limits)
    requires GoodLimits(l) && Rem(o, 4) == 0
    ensures Rem(l.blockSize - Rem(o, l.blockSize), 4) == 0
  {
    QuotIsDiv(l.blockSize, 4);
    QuotRem(o, l.blockSize);
    BlocksAligned(Quot(o, l.blockSize), l.blockSize);
    RemDifference(o, Times(Quot(o, l.blockSize), l.blockSize));
    RemDifference(l.blockSize, Rem(o, l.blockSize));
  }

  /** The last record reaches to the end of its block. */
  lemma LastFillsBlock(d: seq<byte>, l: Limits, lo: nat)
    requires 0 < l.blockSize && LastAt(d, l, lo) && Rem(|d|, l.blockSize) == 0
    ensures ERec(d, lo) == l.blockSize - Rem(lo, l.blockSize)
  {
    RemNext(lo, ERec(d, lo), l.blockSize);
  }

  /** Does a record of `n` bytes fit into the rest of the block? */
  predicate FitsAt(l: Limits, off: nat, n: nat)
    requires 0 < l.blockSize
  {
    n + Rem(off, l.blockSize) <= l.blockSize
  }

  lemma MinLenRange(nameLen: nat)
    requires nameLen <= NAME_MAX
    ensures HEADER <= MinLen(nameLen) <= 264 &&
            (if nameLen == 0 then MinLen(nameLen) == HEADER else 12 <= MinLen(nameLen))
    ensures Rem(MinLen(nameLen), 4) == 0
  {
    Up4Aligned(HEADER + nameLen);
    QuotIsDiv(MinLen(nameLen), 4);
  }

  /** The last record cut down to its minimal length. */
  function Trimmed(d: seq<byte>, lo: nat, slack: seq<byte>): seq<byte>
    requires lo + HEADER <= |d| && |slack| == 0x1_0000 && EIno(d, lo) < 0x1_0000_0000
  {
    MinLenRange(ENameLen(d, lo));
    var min := MinLen(ENameLen(d, lo));
    Overwrite(d, lo, LastBytes(d, lo, EIno(d, lo), min, min, slack))
  }

  /** The record that was read from `lo`, written at `at` and reaching to the end of the block there. */
  function Stretched(c: seq<byte>, d: seq<byte>, l: Limits, lo: nat, at: nat, slack: seq<byte>): seq<byte>
    requires lo + HEADER <= |d| && |slack| == 0x1_0000 && EIno(d, lo) < 0x1_0000_0000 && at <= |c|
    requires 0 < l.blockSize < 0x1_0000 && Rem(at, l.blockSize) + HEADER <= l.blockSize
  {
    var rec := l.blockSize - Rem(at, l.blockSize);
    Overwrite(c, at, LastBytes(d, lo, EIno(d, lo), rec, rec, slack))
  }

  lemma OverwriteTwice(d: seq<byte>, at: nat, a: seq<byte>, b: seq<byte>)
    requires |a| <= |b| && at + |b| <= |d|
    ensures Overwrite(Overwrite(d, at, a), at, b) == Overwrite(d, at, b)
  {
    OverwriteAt(d, at, a);
    OverwriteAt(Overwrite(d, at, a), at, b);
    OverwriteAt(d, at, b);
  }

  /** Trimming keeps every record. */
  lemma TrimmedKeeps(d: seq<byte>, l: Limits, lo: nat, slack: seq<byte>, c: seq<byte>)
    requires 0 < l.blockSize && ValidAt(d, l, lo) && l.inodes < 0x1_0000_0000 && |slack| == 0x1_0000
    requires 0 < ENameLen(d, lo) && c == Trimmed(d, lo, slack)
    ensures Rewritten(d, c, l, lo, EIno(d, lo), MinLen(ENameLen(d, lo)))
  {
    MinLenRange(ENameLen(d, lo));
    RewriteRecord(d, l, lo, EIno(d, lo), MinLen(ENameLen(d, lo)), slack, c);
  }

  /** Trimming and stretching again restores the record. */
  lemma StretchedKeeps(d: seq<byte>, l: Limits, lo: nat, slack: seq<byte>, c: seq<byte>)
    requires 0 < l.blockSize < 0x1_0000 && ValidAt(d, l, lo) && l.inodes < 0x1_0000_0000 && |slack| == 0x1_0000
    requires ERec(d, lo) == l.blockSize - Rem(lo, l.blockSize)
    requires c == Stretched(Trimmed(d, lo, slack), d, l, lo, lo, slack)
    ensures Rewritten(d, c, l, lo, EIno(d, lo), ERec(d, lo))
  {
    var min, rec := MinLen(ENameLen(d, lo)), l.blockSize - Rem(lo, l.blockSize);
    OverwriteTwice(d, lo, LastBytes(d, lo, EIno(d, lo), min, min, slack),
                   LastBytes(d, lo, EIno(d, lo), rec, rec, slack));
    RewriteRecord(d, l, lo, EIno(d, lo), rec, slack, c);
  }

  /** `c` is `d` with its last record prepared for a new one at `p`. */
  predicate Ready(d: seq<byte>, c: seq<byte>, l: Limits, lo: nat, p: nat)
    requires 0 < l.blockSize && ValidAt(d, l, lo)
  {
    if EIno(d, lo) == 0 then c == d && p == lo
    else lo <= p <= |c| && Rewritten(d, c, l, lo, EIno(d, lo), p - lo)
  }

  /** If the new record needs a new block, preparing changed no record at all. */
  lemma ReadySameLast(d: seq<byte>, c: seq<byte>, l: Limits, lo: nat, p: nat)
    requires 0 < l.blockSize && LastAt(d, l, lo) && Ready(d, c, l, lo, p) && p == |d|
    ensures SameLast(d, c, l, lo)
  {
  }

  /** A prepared directory with a record at the prepared offset has that record placed. */
  lemma ReadyPlaced(d: seq<byte>, c: seq<byte>, e: seq<byte>, l: Limits, lo: nat, p: nat, ino: nat, rec: nat,
                    name: seq<byte>)
    requires 0 < l.blockSize && LastAt(d, l, lo) && Ready(d, c, l, lo, p) && 0 < ino
    requires HasRecord(c, e, l, p, ino, rec, name)
    ensures Placed(d, e, l, lo, p, ino, name)
  {
    if EIno(d, lo) != 0 {
      SameEntry(c, e, l, lo);
    }
  }

  /** An aligned offset inside the last record, or at the end: the rest of its block is aligned and ends the
      directory. */
  lemma OffsetFacts(d: seq<byte>, l: Limits, lo: nat, p: nat)
    requires GoodLimits(l) && LastAt(d, l, lo) && Rem(|d|, l.blockSize) == 0 && lo <= p <= |d| && Rem(p - lo, 4) == 0
    ensures Rem(p, 4) == 0 && Rem(l.blockSize - Rem(p, l.blockSize), 4) == 0
    ensures p + (l.blockSize - Rem(p, l.blockSize)) == if p < |d| then |d| else |d| + l.blockSize
  {
    LastFillsBlock(d, l, lo);
    RemNext(lo, p - lo, l.blockSize);
    RemSum(lo, p - lo);
    RestAligned(p, l);
  }

  /** An unused last record that is too small starts far enough from the start of its block. */
  lemma StepBack(d: seq<byte>, l: Limits, lo: nat, n: nat)
    requires GoodLimits(l) && LastAt(d, l, lo) && Rem(|d|, l.blockSize) == 0 && n <= 264 && !FitsAt(l, lo, n)
    ensures ERec(d, lo) < n && ERec(d, lo) < lo
    ensures Rem(lo - ERec(d, lo), l.blockSize) == l.blockSize - 2 * ERec(d, lo)
  {
    LastFillsBlock(d, l, lo);
    QuotRem(lo, l.blockSize);
    QuotRemUnique(Quot(lo, l.blockSize), l.blockSize, Rem(lo, l.blockSize) - ERec(d, lo));
  }

  /** When does ext2_new_dir_entry() keep the directory intact? An unused last record must be large enough for the
      `n` bytes of the new one; a last record in use must have a name, unless it is stretched again. */
  predicate SlotOk(d: seq<byte>, l: Limits, lo: nat, n: nat)
    requires 0 < l.blockSize && lo + HEADER <= |d|
  {
    if EIno(d, lo) == 0 then FitsAt(l, lo, n) else 0 < ENameLen(d, lo) || !FitsAt(l, lo + HEADER, n)
  }

  /** Where the new record goes: over an unused last record, behind a trimmed one, or into a new block. */
  function NewOffset(d: seq<byte>, l: Limits, lo: nat, n: nat): nat
    requires 0 < l.blockSize && lo + HEADER <= |d|
  {
    var room := if EIno(d, lo) == 0 then lo else lo + MinLen(ENameLen(d, lo));
    if FitsAt(l, room, n) then room else |d|
  }

  /** Directory bytes before the new record is written. An unused last record that is too small is written once more,
      at its own length before its start. */
  function Prepared(d: seq<byte>, l: Limits, lo: nat, n: nat, slack: seq<byte>): seq<byte>
    requires GoodLimits(l) && LastAt(d, l, lo) && Rem(|d|, l.blockSize) == 0 && n <= 264 && |slack| == 0x1_0000
  {
    LastFillsBlock(d, l, lo);
    if EIno(d, lo) == 0 then
      if FitsAt(l, lo, n) then d
      else
        StepBack(d, l, lo, n);
        Stretched(d, d, l, lo, lo - ERec(d, lo), slack)
    else if FitsAt(l, lo + MinLen(ENameLen(d, lo)), n) then Trimmed(d, lo, slack)
    else Stretched(Trimmed(d, lo, slack), d, l, lo, lo, slack)
  }

  lemma PreparedReady(d: seq<byte>, l: Limits, lo: nat, n: nat, slack: seq<byte>, c: seq<byte>, p: nat)
    requires GoodLimits(l) && LastAt(d, l, lo) && Rem(|d|, l.blockSize) == 0 && n <= 264 && |slack| == 0x1_0000
    requires SlotOk(d, l, lo, n) && c == Prepared(d, l, lo, n, slack) && p == NewOffset(d, l, lo, n)
    ensures Ready(d, c, l, lo, p)
  {
    LastFillsBlock(d, l, lo);
    MinLenRange(ENameLen(d, lo));
    if EIno(d, lo) != 0 {
      if FitsAt(l, lo + MinLen(ENameLen(d, lo)), n) {
        ReadyTrimmed(d, l, lo, slack, c, p);
      } else {
        ReadyStretched(d, l, lo, slack, c, p);
      }
    }
  }

  lemma ReadyTrimmed(d: seq<byte>, l: Limits, lo: nat, slack: seq<byte>, c: seq<byte>, p: nat)
    requires 0 < l.blockSize && ValidAt(d, l, lo) && l.inodes < 0x1_0000_0000 && |slack| == 0x1_0000
    requires 0 < ENameLen(d, lo) && EIno(d, lo) != 0 && c == Trimmed(d, lo, slack) && p == lo + MinLen(ENameLen(d, lo))
    ensures Ready(d, c, l, lo, p)
  {
    TrimmedKeeps(d, l, lo, slack, c);
  }

  lemma ReadyStretched(d: seq<byte>, l: Limits, lo: nat, slack: seq<byte>, c: seq<byte>, p: nat)
    requires 0 < l.blockSize < 0x1_0000 && ValidAt(d, l, lo) && l.inodes < 0x1_0000_0000 && |slack| == 0x1_0000
    requires ERec(d, lo) == l.blockSize - Rem(lo, l.blockSize) && EIno(d, lo) != 0
    requires c == Stretched(Trimmed(d, lo, slack), d, l, lo, lo, slack) && p == |d| == lo + ERec(d, lo)
    ensures Ready(d, c, l, lo, p)
  {
    StretchedKeeps(d, l, lo, slack, c);
  }

  lemma NewOffsetFacts(d: seq<byte>, l: Limits, lo: nat, n: nat, p: nat)
    requires GoodLimits(l) && LastAt(d, l, lo) && Rem(|d|, l.blockSize) == 0 && n <= 264 && p == NewOffset(d, l, lo, n)
    ensures lo <= p <= |d| && FitsAt(l, p, n) && Rem(p, 4) == 0 && Rem(l.blockSize - Rem(p, l.blockSize), 4) == 0
    ensures p + (l.blockSize - Rem(p, l.blockSize)) == if p < |d| then |d| else |d| + l.blockSize
  {
    MinLenRange(ENameLen(d, lo));
    OffsetFacts(d, l, lo, p);
  }

  /** The new record goes where the last one ends, or starts if it is unused, if there are `n` bytes from there to the
      end of the directory; otherwise it starts a new block. */
  lemma PlaceExact(d: seq<byte>, l: Limits, lo: nat, n: nat, q: nat)
    requires GoodLimits(l) && LastAt(d, l, lo) && Rem(|d|, l.blockSize) == 0 && 0 < n <= 264
    requires q == if EIno(d, lo) == 0 then lo else lo + MinLen(ENameLen(d, lo))
    ensures lo <= q <= |d| && NewOffset(d, l, lo, n) == if n <= |d| - q then q else |d|
  {
    LastFillsBlock(d, l, lo);
    MinLenRange(ENameLen(d, lo));
    RemNext(lo, q - lo, l.blockSize);
    hide Rem, MinLen, Reach;
  }
}
