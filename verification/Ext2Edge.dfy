/** A concrete volume on which file_new() of ext2/ext2.c fails and leaves a name for a free inode behind. */
module Ext2Edge {
  import opened Arith
  import opened Bitmap
  import opened BitmapAlloc
  import opened Ext2Vol
  import opened Ext2File
  import opened Ext2Tree
  import opened Ext2Dir
  import opened Ext2Live
  import opened Ext2DirWrite
  import opened Ext2Core
  import opened Ext2DirOps
  import opened Ext2NewEntry
  import opened Ext2Links
  import opened Ext2LinkSteps
  import opened Ext2Ops
  import opened Ext2Runs
  import opened Ext2Path
  import opened Ext2Mount
  import opened Ext2Samples

  /** A directory of twelve blocks: "." and ".." in the first, and nothing else. Its last record is unused and has
      twelve bytes. */
  predicate EdgeDir(d: seq<byte>, l: Limits)
    requires 0 < l.blockSize
  {
    && |d| == 12288 && RecordAt(d, l, 0, 2, 12, 1) && RecordAt(d, l, 12, 2, 1012, 2)
    && d[8] == 46 && d[20] == 46 && d[21] == 46
    && (forall q :: 1 <= q < 11 ==> RecordAt(d, l, 1024 * q, 0, 1024, 0))
    && RecordAt(d, l, 11264, 0, 1012, 0) && RecordAt(d, l, 12276, 0, 12, 0)
  }

  lemma UnusedLinks(a: seq<Ent>, x: Ent, b: seq<Ent>)
    requires x.ino == 0
    ensures Links((a + [x]) + b) == Links(a) + Links(b) && Links(a + [x]) == Links(a)
  {
    ConcatFacts(a + [x], b, []);
    ConcatFacts(a, [x], []);
  }

  lemma UnusedAt(d: seq<byte>, l: Limits, o: nat, next: nat, lo: nat)
    requires 0 < l.blockSize && ValidAt(d, l, o) && EIno(d, o) == 0 && next == o + ERec(d, o) <= lo &&
             Reach(d, l, next, lo)
    requires Parse(d, l, next).ok && Links(Parse(d, l, next).ents) == multiset{}
    ensures Reach(d, l, o, lo) && Parse(d, l, o).ok && Links(Parse(d, l, o).ents) == multiset{}
  {
    ParseStep(d, l, o);
    UnusedLinks([], EntAt(d, l, o), Parse(d, l, next).ents);
    assert [] + [EntAt(d, l, o)] == [EntAt(d, l, o)];
  }

  lemma {:induction false} EdgeWalk(d: seq<byte>, l: Limits, q: nat)
    requires 0 < l.blockSize && EdgeDir(d, l) && 1 <= q <= 11
    ensures Reach(d, l, 1024 * q, 12276) && Parse(d, l, 1024 * q).ok && Links(Parse(d, l, 1024 * q).ents) == multiset{}
    decreases 11 - q
  {
    if q == 11 {
      hide Reach, ValidAt;
      AtLast(d, l, 12276);
      UnusedLinks([], EntAt(d, l, 12276), []);
      assert ([] + [EntAt(d, l, 12276)]) + [] == [EntAt(d, l, 12276)];
      assert Reach(d, l, 12276, 12276) by { HereReach(d, l, 12276); }
      UnusedAt(d, l, 11264, 12276, 12276);
    } else {
      EdgeWalk(d, l, q + 1);
      assert RecordAt(d, l, 1024 * q, 0, 1024, 0);
      UnusedAt(d, l, 1024 * q, 1024 * (q + 1), 12276);
    }
  }

  lemma HereReach(d: seq<byte>, l: Limits, o: nat)
    requires 0 < l.blockSize
    ensures Reach(d, l, o, o)
  {
  }

  /** What the directory lists. */
  lemma EdgeLists(d: seq<byte>, l: Limits)
    requires 0 < l.blockSize && EdgeDir(d, l)
    ensures Reach(d, l, 0, 12276) && Parse(d, l, 0).ok && Links(Parse(d, l, 0).ents) == multiset{2, 2}
    ensures Lookup(Parse(d, l, 0), DOT) == Hit(2, 0) && Lookup(Parse(d, l, 0), DOT_DOT) == Hit(2, 12)
    ensures forall name :: name != DOT && name != DOT_DOT ==> Lookup(Parse(d, l, 0), name) == Miss
  {
    EdgeWalk(d, l, 1);
    EdgeNames(d, l);
    assert RecordAt(d, l, 0, 2, 12, 1) && RecordAt(d, l, 12, 2, 1012, 2);
    hide EdgeDir, Rem, EName, Links, Lookup;
    var rest := Parse(d, l, 1024).ents;
    assert Reach(d, l, 12, 12276);
    assert Parse(d, l, 12) == Listing([EntAt(d, l, 12)] + rest, true);
    TwoListed(Parse(d, l, 0).ents, EntAt(d, l, 0), EntAt(d, l, 12), rest, []);
    forall name
      ensures Lookup(Parse(d, l, 0), name) ==
              if name == DOT then Hit(2, 0) else if name == DOT_DOT then Hit(2, 12) else Miss
    {
      TwoListed(Parse(d, l, 0).ents, EntAt(d, l, 0), EntAt(d, l, 12), rest, name);
    }
  }

  lemma EdgeNames(d: seq<byte>, l: Limits)
    requires 0 < l.blockSize && EdgeDir(d, l)
    ensures EntAt(d, l, 0) == Ent(0, 2, DOT) && EntAt(d, l, 12) == Ent(12, 2, DOT_DOT)
  {
    hide Rem;
    SliceIs(d, 8, 1);
    SliceIs(d, 20, 2);
    assert d[8..9] == DOT && d[20..22] == DOT_DOT;
  }

  lemma TwoListed(ents: seq<Ent>, x: Ent, y: Ent, rest: seq<Ent>, name: seq<byte>)
    requires ents == [x] + ([y] + rest) && x.ino != 0 && y.ino != 0 && Links(rest) == multiset{}
    ensures Links(ents) == multiset{x.ino, y.ino}
    ensures Lookup(Listing(ents, true), name) ==
            if name == x.name then Hit(x.ino, x.at) else if name == y.name then Hit(y.ino, y.at) else Miss
  {
    NoLinks(rest, name);
    ConcatFacts([], [x], name);
    ConcatFacts([], [y], name);
    ConcatFacts([x], [y] + rest, name);
    ConcatFacts([y], rest, name);
    assert [] + [x] == [x] && [] + [y] == [y];
  }

  /** A name of one byte fits exactly, up to the end of the supported area. */
  lemma EdgeFits(d: seq<byte>, l: Limits)
    requires l == SAMPLE_LIMITS && EdgeDir(d, l)
    ensures LastAt(d, l, 12276) && Rem(|d|, 1024) == 0 && EdgeFor(d, l, MinLen(1), 12288)
  {
    EdgeLists(d, l);
    SampleLengths();
    QuotIsDiv(12288, 1024);
    QuotIsDiv(12276, 1024);
    assert LastAt(d, l, 12276) && RecordAt(d, l, 12276, 0, 12, 0);
    hide Parse, Reach, ValidAt, Rem, MinLen, EdgeDir;
    forall lo | LastOk(d, l, lo)
      ensures SlotFine(d, l, lo, MinLen(1)) && PlaceOf(d, l, lo, MinLen(1)) + MinLen(1) == 12288
    {
      LastUnique(d, l, 0, lo, 12276);
    }
  }

  /** Block `q` of that directory. */
  function EdgeBlock(q: int): (r: Block)
    ensures |r| == 1024 && forall i :: 0 <= i < 1024 ==> r[i] == EdgeByte(q, i)
  {
    seq(1024, i requires 0 <= i < 1024 => EdgeByte(q, i))
  }

  function EdgeByte(q: int, i: nat): byte {
    if q == 0 then FirstByte(i)
    else if q == 11 then if i == 4 then 244 else if i == 5 then 3 else if i == 1016 then 12 else 0
    else if i == 5 then 4 else 0
  }

  function FirstByte(i: nat): byte {
    if i == 0 || i == 12 then 2 else if i == 4 then 12 else if i == 6 then 1 else if i == 8 then 46
    else if i == 16 then 244 else if i == 17 then 3 else if i == 18 then 2 else if i == 20 || i == 21 then 46 else 0
  }

  const EDGE_BLOCKS: seq<nat> := [7, 8, 9, 10, 11, 12, 13, 14, 15, 16, 17, 18, 0, 0, 0]

  function Span(lo: nat, hi: nat): (r: set<nat>)
    ensures (forall b :: b in r <==> lo <= b < hi) && |r| == if lo <= hi then hi - lo else 0
    decreases hi - lo
  {
    if hi <= lo then {} else {lo} + Span(lo + 1, hi)
  }

  function EdgeInode(i: nat): Inode {
    if i == 1 then Inode(Directory, 12288, 2, 24, 0, EDGE_BLOCKS) else FreshInode(NoFile)
  }

  const EDGE_GEO := Geometry(1024, 64, 1, 8192, 16, 16, 11, {1, 2, 3, 4, 5, 6})

  function EdgeTable(): seq<Inode> { seq(16, i requires 0 <= i < 16 => EdgeInode(i)) }

  function EdgeBlocks(): seq<Block> { seq(64, b requires 0 <= b < 64 => EdgeBlock(b - 7)) }

  /** 64 blocks of 1 KB in one group: superblock, descriptors, both bitmaps, an inode table of two blocks, and the
      twelve blocks of the root directory. 16 inodes, of which ten are reserved. All other blocks and inodes are
      free. */
  function EdgeVol(): Vol {
    Vol(EDGE_GEO, Span(19, 64), Span(11, 17), [1], EdgeTable(), EdgeBlocks())
  }

  const EDGE_GROUPS := [GroupDesc(3, 4, 5)]

  lemma EdgeDisk(v: Vol)
    requires v == EdgeVol()
    ensures |v.disk| == 64 && DiskShape(v.disk, 64, 1024) && forall b :: 0 <= b < 64 ==> v.disk[b] == EdgeBlock(b - 7)
  {
    hide EdgeBlock, Span;
  }

  lemma EdgeInodes(v: Vol)
    requires v == EdgeVol()
    ensures |v.inodes| == 16 && v.geo.inodesCount == 16 && forall i :: 0 <= i < 16 ==> |v.inodes[i].blocks| == NR_BLOCKS
    ensures v.Ino(2) == Inode(Directory, 12288, 2, 24, 0, EDGE_BLOCKS)
    ensures forall i :: 0 <= i < 16 && i != 1 ==> v.inodes[i] == FreshInode(NoFile)
  {
    hide EdgeBlock, Span;
    forall i | 0 <= i < 16
      ensures v.inodes[i] == EdgeInode(i)
    {
    }
  }

  lemma EdgeShape(v: Vol)
    requires v == EdgeVol()
    ensures v.Shape() && Lim(v) == SAMPLE_LIMITS && GoodLimits(Lim(v)) && Area(v) == 12288
  {
    hide EdgeBlock, Span;
    EdgeDisk(v);
    EdgeInodes(v);
  }

  lemma EdgeSound(v: Vol)
    requires v == EdgeVol() && v.Shape()
    ensures Sound(v)
  {
    hide EdgeBlock, Span;
    EdgeInodes(v);
    assert forall k: nat :: k < 16 ==> Quot(k, 16) == 0;
    assert DirsIn(v, 0) == {2};
  }

  lemma EdgeFile(v: Vol)
    requires v == EdgeVol() && v.Shape()
    ensures FileOk(v, 2)
  {
    hide EdgeBlock, Span;
    EdgeInodes(v);
    EdgePointers(v.Ino(2).blocks);
  }

  lemma EdgePointers(p: seq<nat>)
    requires p == EDGE_BLOCKS
    ensures |p| == NR_BLOCKS && forall q :: 0 <= q < NR_DIRECT ==> p[q] == q + 7
  {
  }

  /** `d` are the bytes of the root directory. */
  ghost predicate EdgeRead(v: Vol, d: seq<byte>, p: seq<nat>) {
    && v == EdgeVol() && FileOk(v, 2) && v.Ino(2).size == 12288 == Area(v) && d == Content(v, 2)
    && p == v.Ino(2).blocks && |p| == NR_BLOCKS && forall i :: 0 <= i < NR_DIRECT ==> p[i] == i + 7
  }

  /** Byte `r` of block `q` of the directory. */
  lemma EdgeByteAt(v: Vol, d: seq<byte>, p: seq<nat>, q: nat, r: nat)
    requires EdgeRead(v, d, p) && q < 12 && r < 1024
    ensures |d| == 12288 && 1024 * q + r < 12288 && d[1024 * q + r] == EdgeByte(q, r)
  {
    hide EdgeVol, EdgeByte, Times;
    EdgeDisk(v);
    PointersInRange(v, 2);
    DataAt(v.disk, 1024, p, NR_DIRECT, q, r);
    TimesIsMul(q, 1024);
    TimesIsMul(12, 1024);
  }

  lemma EdgeHeader(v: Vol, d: seq<byte>, p: seq<nat>, q: nat, r: nat, ino: byte, rec: nat, nameLen: byte)
    requires EdgeRead(v, d, p) && q < 12
    requires r + rec <= 1024 && r % 4 == 0 && rec % 4 == 0 && 12 <= rec && ino <= 16 && MinLen(nameLen) <= rec
    requires EdgeByte(q, r) == ino && EdgeByte(q, r + 1) == EdgeByte(q, r + 2) == EdgeByte(q, r + 3) == 0
    requires EdgeByte(q, r + 4) == rec % 256 && EdgeByte(q, r + 5) == rec / 256 && EdgeByte(q, r + 6) == nameLen
    ensures RecordAt(d, SAMPLE_LIMITS, 1024 * q + r, ino, rec, nameLen)
  {
    hide EdgeRead, RecordAt, EdgeByte, MinLen;
    EdgeByteAt(v, d, p, q, r);
    EdgeByteAt(v, d, p, q, r + 1);
    EdgeByteAt(v, d, p, q, r + 2);
    EdgeByteAt(v, d, p, q, r + 3);
    EdgeByteAt(v, d, p, q, r + 4);
    EdgeByteAt(v, d, p, q, r + 5);
    EdgeByteAt(v, d, p, q, r + 6);
    HeaderRecord(d, SAMPLE_LIMITS, 1024 * q + r, ino, rec, nameLen);
  }

  lemma EdgeFirst(v: Vol, d: seq<byte>, p: seq<nat>)
    requires EdgeRead(v, d, p)
    ensures |d| == 12288 && RecordAt(d, SAMPLE_LIMITS, 0, 2, 12, 1) && RecordAt(d, SAMPLE_LIMITS, 12, 2, 1012, 2)
    ensures d[8] == 46 && d[20] == 46 && d[21] == 46
  {
    SampleLengths();
    hide EdgeRead, RecordAt, MinLen;
    EdgeHeader(v, d, p, 0, 0, 2, 12, 1);
    EdgeHeader(v, d, p, 0, 12, 2, 1012, 2);
    EdgeByteAt(v, d, p, 0, 8);
    EdgeByteAt(v, d, p, 0, 20);
    EdgeByteAt(v, d, p, 0, 21);
  }

  lemma EdgeLast(v: Vol, d: seq<byte>, p: seq<nat>)
    requires EdgeRead(v, d, p)
    ensures RecordAt(d, SAMPLE_LIMITS, 11264, 0, 1012, 0) && RecordAt(d, SAMPLE_LIMITS, 12276, 0, 12, 0)
  {
    SampleLengths();
    hide EdgeRead, RecordAt, MinLen;
    EdgeHeader(v, d, p, 11, 0, 0, 1012, 0);
    EdgeHeader(v, d, p, 11, 1012, 0, 12, 0);
  }

  lemma EdgeMiddle(v: Vol, d: seq<byte>, p: seq<nat>, q: nat)
    requires EdgeRead(v, d, p) && 1 <= q < 11
    ensures RecordAt(d, SAMPLE_LIMITS, 1024 * q, 0, 1024, 0)
  {
    SampleLengths();
    hide EdgeRead, RecordAt, MinLen;
    EdgeHeader(v, d, p, q, 0, 0, 1024, 0);
  }

  lemma EdgeContent(v: Vol, d: seq<byte>)
    requires v == EdgeVol() && FileOk(v, 2) && v.Ino(2).size == 12288 == Area(v) && d == Content(v, 2)
    ensures EdgeDir(d, SAMPLE_LIMITS)
  {
    var p := v.Ino(2).blocks;
    EdgeInodes(v);
    EdgePointers(p);
    assert EdgeRead(v, d, p);
    hide EdgeVol, FileOk, RecordAt, Content, EdgeRead;
    EdgeFirst(v, d, p);
    EdgeLast(v, d, p);
    forall q | 1 <= q < 11
      ensures RecordAt(d, SAMPLE_LIMITS, 1024 * q, 0, 1024, 0)
    {
      EdgeMiddle(v, d, p, q);
    }
  }

  lemma EdgeMapped(v: Vol)
    requires v == EdgeVol() && FileOk(v, 2) && v.Ino(2).size == 12288
    ensures NoHoles(v, 2) && forall b :: v.IsData(b) ==> b in Mapped(v.Ino(2).blocks)
  {
    hide EdgeBlock, Span;
    var p := v.Ino(2).blocks;
    EdgeInodes(v);
    EdgePointers(p);
    forall k: nat | k < 12288
      ensures Quot(k, 1024) < NR_DIRECT && p[Quot(k, 1024)] != 0
    {
      QuotInArea(k, 1024);
    }
    forall b | v.IsData(b)
      ensures b in Mapped(p)
    {
      assert p[b - 7] == b;
    }
  }

  lemma EdgeUsed(v: Vol)
    requires v == EdgeVol()
    ensures IsDir(v, 2) && v.Ino(2).size == 12288 && v.Ino(2).links == 2 && v.Ino(2).i512 == 24 &&
            v.geo.firstInode == 11
    ensures forall i :: NR_DIRECT <= i < NR_BLOCKS ==> v.Ino(2).blocks[i] == 0
    ensures forall n: nat :: Used(v, n) && n != 2 ==> n < 11 && v.Ino(n) == FreshInode(NoFile)
    ensures 11 in v.freeInodes
  {
    hide EdgeBlock, Span;
    EdgeInodes(v);
  }

  lemma EdgeRoot(v: Vol)
    requires v == EdgeVol()
    ensures Sound(v) && GoodLimits(Lim(v)) && Area(v) == 12288 && Lim(v) == SAMPLE_LIMITS
    ensures DirFile(v, 2) && DirOk(v, 2) && EdgeDir(DirBytes(v, 2), Lim(v))
    ensures forall b :: v.IsData(b) ==> b in Mapped(v.Ino(2).blocks)
  {
    hide EdgeVol, FileOk, NoHoles, EdgeDir, Parse, Sound, Content, Mapped, Rem, EdgeFor, LastAt, Reach, Links, Lookup;
    EdgeShape(v);
    EdgeSound(v);
    EdgeFile(v);
    EdgeUsed(v);
    EdgeMapped(v);
    EdgeContent(v, Content(v, 2));
    EdgeLists(Content(v, 2), SAMPLE_LIMITS);
    EdgeFits(Content(v, 2), SAMPLE_LIMITS);
  }

  /** What matters of the volume: its root directory lists itself twice and owns all data blocks. Every other inode in
      use is a reserved one without blocks. */
  ghost predicate Bare(v: Vol, root: nat) {
    && Sound(v) && GoodLimits(Lim(v)) && root == ROOT && root < v.geo.firstInode && IsDir(v, root)
    && (forall n: nat :: Used(v, n) && n != root ==> n < v.geo.firstInode && v.Ino(n) == FreshInode(NoFile))
    && v.Ino(root).links == 2 && DirFile(v, root) && DirOk(v, root)
    && Links(Parse(DirBytes(v, root), Lim(v), 0).ents) == multiset{root, root}
    && forall b :: v.IsData(b) ==> b in Mapped(v.Ino(root).blocks)
  }

  lemma EdgeBare(v: Vol)
    requires v == EdgeVol()
    ensures Bare(v, 2)
  {
    hide EdgeVol, Sound, Parse, Links, EdgeDir, EdgeFor, LastAt, Mapped, DirFile, DirBytes, DirOk, Used, Rem, Lookup,
      Reach;
    EdgeUsed(v);
    EdgeRoot(v);
    EdgeLists(DirBytes(v, 2), SAMPLE_LIMITS);
  }

  lemma BareTrees(v: Vol, root: nat)
    requires Bare(v, root)
    ensures Owning(v) && Apart(v) && Covered(v)
  {
    hide DirOk, DirFile, Sound, Parse, Links, Mapped, FileTree, Tiled;
    DirTree(v, root);
    NoTree(v.disk, NR_BLOCKS);
    assert forall n: nat :: Used(v, n) && n != root ==> TreeOf(v, n) == [];
    assert Elements([]) == {} && Freeable(v, []);
    forall b | v.IsData(b)
      ensures Owned(v, b)
    {
      assert b in Elements(TreeOf(v, root));
    }
  }

  lemma {:induction false} BareCounts(v: Vol, root: nat, i: nat, k: nat)
    requires Bare(v, root)
    ensures CountBelow(v, i, k) == if i == root <= k then 2 else 0
  {
    hide Sound, Parse, Mapped, Tiled, FileOk, NoHoles, Links;
    if k > 0 {
      BareCounts(v, root, i, k - 1);
      assert EntriesFor(v, k, i) == if k == i == root then 2 else 0;
    }
  }

  lemma BareOrder(v: Vol, root: nat)
    requires Bare(v, root)
    ensures FsOk(v)
  {
    hide DirOk, DirFile, Sound, Owning, Apart, Covered, Parse, Links, Mapped, CountBelow;
    BareTrees(v, root);
    forall i | v.IsInum(i)
      ensures Count(v, i) == LinksOf(v, i)
    {
      BareCounts(v, root, i, v.geo.inodesCount);
    }
  }

  lemma EdgeOrder(v: Vol)
    requires v == EdgeVol()
    ensures FsOk(v)
  {
    hide EdgeVol, Bare, FsOk;
    EdgeBare(v);
    BareOrder(v, 2);
  }

  lemma EdgeResolves(v: Vol, name: seq<byte>)
    requires v == EdgeVol() && (name == DOT || name == DOT_DOT)
    ensures Resolve(v, ROOT, [SLASH] + name) == Ok(ROOT)
  {
    hide EdgeVol, Sound, Parse, Links, EdgeDir, EdgeFor, LastAt, Mapped, DirBytes, DirOk, Rem, Area, Lookup, Reach,
      DirFile;
    EdgeUsed(v);
    EdgeRoot(v);
    EdgeLists(DirBytes(v, 2), SAMPLE_LIMITS);
    DotPath(name);
    assert Enter(v, ROOT, name) == Ok(ROOT);
    assert [name][1..] == [] && Fold(v, ROOT, [], false) == Ok(ROOT) && Fold(v, ROOT, [name], false) == Ok(ROOT);
  }

  lemma DotPath(name: seq<byte>)
    requires name == DOT || name == DOT_DOT
    ensures Components([SLASH] + name) == [name] && !EndsInSlash([SLASH] + name)
  {
    var s := [SLASH] + name;
    assert s[1..] == name && NameEnd(name) == |name| && name[..|name|] == name && name[|name|..] == [];
  }

  lemma EdgeGroup()
    ensures EDGE_GEO.Ok() && GroupMounts(EDGE_GEO, EDGE_GROUPS[0], 0, 1, 128)
  {
    assert (16 * 128 + 1024 - 1) / 1024 == 2;
  }

  lemma EdgeGeo(v: Vol)
    requires v == EdgeVol()
    ensures v.geo == EDGE_GEO
  {
    hide Span, EdgeTable, EdgeBlocks;
  }

  /** ext2_init() accepts that volume. */
  lemma EdgeMounts(v: Vol)
    requires v == EdgeVol()
    ensures Mounts(v, EDGE_GROUPS, 128)
  {
    hide EdgeVol, Resolve, GroupMounts;
    EdgeGeo(v);
    EdgeShape(v);
    EdgeUsed(v);
    EdgeResolves(v, DOT);
    EdgeResolves(v, DOT_DOT);
    EdgeGroup();
    assert (64 - 1 + 8192 - 1) / 8192 == 1;
  }

  /** The bitmap of one group whose free items are lo .. hi - 1. */
  ghost predicate FreeSpan(bits: seq<bool>, first: nat, lo: nat, hi: nat) {
    first <= lo <= hi <= first + |bits| && forall i :: 0 <= i < |bits| ==> bits[i] == !(lo <= first + i < hi)
  }

  lemma SpanCleared(bits: seq<bool>, first: nat, lo: nat, hi: nat)
    requires FreeSpan(bits, first, lo, hi)
    ensures ClearBits(bits) == Span(lo - first, hi - first)
  {
    hide Span;
  }

  lemma SpanFree(bits: seq<bool>, r: Range, lo: nat, hi: nat)
    requires FreeSpan(bits, r.first, lo, hi) && hi <= r.limit <= r.first + r.per && r.per <= |bits| && 0 < r.per
    ensures Padded([bits], r) && Free([bits], r) == Span(lo, hi)
  {
    hide Span;
    forall x: nat | r.first <= x < r.limit
      ensures Clear([bits], r, x) <==> lo <= x < hi
    {
      assert Quot(x - r.first, r.per) == 0 && Rem(x - r.first, r.per) == x - r.first;
    }
    assert Times(0, r.per) == 0;
  }

  lemma OneGroup(bits: seq<bool>, r: Range, lo: nat, hi: nat)
    requires FreeSpan(bits, r.first, lo, hi) && hi <= r.limit <= r.first + r.per && r.per <= |bits| && 0 < r.per
    ensures Agree([bits], r, [hi - lo], hi - lo) && Free([bits], r) == Span(lo, hi)
  {
    hide Span, ClearBits, Padded, Free;
    SpanCleared(bits, r.first, lo, hi);
    SpanFree(bits, r, lo, hi);
    assert [hi - lo][..0] == [] && Sum([]) == 0 && Sum([hi - lo]) == hi - lo;
  }

  /** A bitmap block: `head` and then set bits only. */
  function MapBytes(head: seq<byte>): (r: seq<byte>)
    requires |head| <= 1024
    ensures |r| == 1024
  {
    seq(1024, k requires 0 <= k < 1024 => if k < |head| then head[k] else 255)
  }

  const BLOCK_MAP: seq<byte> := [255, 255, 3, 0, 0, 0, 0, 128]
  const INODE_MAP: seq<byte> := [255, 3]

  lemma SomeBits(j: nat)
    requires j < 8
    ensures NatBit(255, j) && !NatBit(0, j) && (NatBit(3, j) <==> j < 2) && (NatBit(128, j) <==> j == 7)
  {
    if j == 0 {
    } else if j == 1 {
    } else if j == 2 {
    } else if j == 3 {
    } else if j == 4 {
    } else if j == 5 {
    } else if j == 6 {
    } else {
      assert NatBit(128, 7) == NatBit(32, 5) == NatBit(8, 3) == NatBit(2, 1);
      assert NatBit(255, 7) == NatBit(63, 5) == NatBit(15, 3) == NatBit(3, 1);
    }
  }

  lemma EdgeMaps()
    ensures FreeSpan(Bits(MapBytes(BLOCK_MAP)), 1, 19, 64) && FreeSpan(Bits(MapBytes(INODE_MAP)), 1, 11, 17)
  {
    forall i | 0 <= i < 8192
      ensures Bits(MapBytes(BLOCK_MAP))[i] == !(19 <= 1 + i < 64)
      ensures Bits(MapBytes(INODE_MAP))[i] == !(11 <= 1 + i < 17)
    {
      BitAt(MapBytes(BLOCK_MAP), i);
      BitAt(MapBytes(INODE_MAP), i);
      SomeBits(i % 8);
    }
  }

  method OneGroupMaps(range: Range, buf: seq<byte>, lo: nat, hi: nat) returns (a: Allocator)
    requires |buf| == 1024 && FreeSpan(Bits(buf), range.first, lo, hi) && range.first < range.limit && hi <= range.limit
    requires range.limit <= range.first + range.per && 0 < range.per <= 8192
    ensures fresh(a) && a.range == range && a.Valid() && a.free == Span(lo, hi)
  {
    OneGroup(Bits(buf), range, lo, hi);
    a := new Allocator(range, 1024, [buf], [hi - lo], hi - lo);
    assert a.bits == [Bits(buf)];
  }

  /** The volume as a mounted one, with its bitmaps. */
  method EdgeMount() returns (fs: Ext2)
    ensures fresh(fs) && fresh(fs.blockMaps) && fresh(fs.inodeMaps) && fs.Wired() && fs.View() == EdgeVol()
  {
    hide FreeSpan, Span, EdgeTable, EdgeBlocks, MapBytes;
    EdgeMaps();
    var blockMaps := OneGroupMaps(Range(8192, 1, 64), MapBytes(BLOCK_MAP), 19, 64);
    var inodeMaps := OneGroupMaps(Range(16, 1, 17), MapBytes(INODE_MAP), 11, 17);
    fs := new Ext2(EDGE_GEO, blockMaps, inodeMaps, [1], EdgeTable(), EdgeBlocks());
  }

  lemma EdgeSlips(v: Vol, name: seq<byte>)
    requires v == EdgeVol() && |name| == 1 && name != DOT
    ensures Slips(v, 2, name)
  {
    hide EdgeVol, Sound, Parse, Links, EdgeDir, EdgeFor, LastAt, Mapped, DirFile, DirBytes, DirOk, Lookup, Rem, Area,
      Reach;
    EdgeRoot(v);
    EdgeFits(DirBytes(v, 2), SAMPLE_LIMITS);
    EdgeLists(DirBytes(v, 2), SAMPLE_LIMITS);
  }

  /** On that volume, which is in order and which ext2_init() accepts, creating a file with a name of one byte in the
      root directory fails with EFBIG. The name is there, its inode is free, and the volume is no longer in order. */
  method CreateAtEdge(fs: Ext2, name: seq<byte>, behind: seq<byte>, mem: seq<byte>) returns (ret: Ret)
    requires fs.Wired() && fs.View() == EdgeVol() && |name| == 1 && name != DOT && |behind| == 0x1_0000 && 4 <= |mem|
    modifies fs, fs.blockMaps, fs.inodeMaps
    ensures FsOk(old(fs.View())) && Mounts(old(fs.View()), EDGE_GROUPS, 128) && ret == Err(EFBIG) && !FsOk(fs.View())
    ensures Lookup(ListOf(fs.View(), 2), name).Hit? && Lookup(ListOf(fs.View(), 2), name).ino in fs.View().freeInodes
  {
    hide Ext2.Wired, EdgeVol, FsOk, ListOf, SafeAdd, EdgeAdd, AddedTo, Mounts;
    ghost var v := fs.View();
    EdgeUsed(v);
    EdgeOrder(v);
    EdgeMounts(v);
    EdgeSlips(v, name);
    ret := FileNew(fs, 2, name, 1, behind, mem);
  }
}
