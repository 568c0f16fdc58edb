/** file_new(), hard links and file_delete() of ext2/ext2.c on a whole volume: links are counted exactly. */
module Ext2Ops {
  import opened Arith
  import opened Bitmap
  import opened Ext2Vol
  import opened Ext2File
  import opened Ext2Tree
  import opened Ext2Reach
  import opened Ext2Dir
  import opened Ext2DirWrite
  import opened Ext2Core
  import opened Ext2DirOps
  import opened Ext2NewEntry
  import opened Ext2Unlink
  import opened Ext2Links
  import opened Ext2LinkSteps
  import opened Ext2Names

  /** May a record of `len` bytes be added to a directory with these bytes? Its last record must leave room or be kept
      intact, and the new record must not end where the supported area ends. */
  ghost predicate RoomFor(d: seq<byte>, l: Limits, len: nat, area: nat)
    requires 0 < l.blockSize
  {
    forall lo :: LastOk(d, l, lo) ==> SlotFine(d, l, lo, len) && PlaceOf(d, l, lo, len) + len != area
  }

  ghost predicate SafeAdd(v: Vol, n: nat, name: seq<byte>) {
    DirOk(v, n) && RoomFor(DirBytes(v, n), Lim(v), MinLen(|name|), Area(v))
  }

  lemma PlaceInArea(d: seq<byte>, l: Limits, lo: nat, len: nat, p: nat)
    requires GoodLimits(l) && LastOk(d, l, lo) && Rem(|d|, l.blockSize) == 0 && len <= 264 &&
             p == PlaceOf(d, l, lo, len)
    requires p < NR_DIRECT * l.blockSize
    ensures p + len <= NR_DIRECT * l.blockSize
  {
    if |d| != 0 {
      NewOffsetFacts(d, l, lo, len, p);
    }
    BlockInArea(p, len, l.blockSize);
  }

  /** Without the edge at the end of the supported area, the record arrives exactly when the call succeeds. */
  lemma ArrivedIsOk(v: Vol, w: Vol, n: nat, lo: nat, ino: nat, name: seq<byte>, ret: Ret)
    requires SafeAdd(v, n, name) && Outcome(v, w, n, lo, ino, name, ret) && |name| <= 254
    ensures ret.Ok? ==> Added(DirBytes(v, n), DirBytes(w, n), Lim(v),
                              PlaceOf(DirBytes(v, n), Lim(v), lo, MinLen(|name|)), ino, name)
    ensures ret.Err? ==>
              |DirBytes(w, n)| == |DirBytes(v, n)| &&
              Parse(DirBytes(w, n), Lim(v), 0) == Parse(DirBytes(v, n), Lim(v), 0)
  {
    var d, l, len := DirBytes(v, n), Lim(v), MinLen(|name|);
    var p := PlaceOf(d, l, lo, len);
    MinLenRange(|name|);
    assert SlotFine(d, l, lo, len) && p + len != Area(v);
    if p < Area(v) {
      PlaceInArea(d, l, lo, len, p);
    }
  }

  /** The last record leaves room, and the new record ends exactly where the supported area ends. */
  ghost predicate EdgeFor(d: seq<byte>, l: Limits, len: nat, area: nat)
    requires 0 < l.blockSize
  {
    forall lo :: LastOk(d, l, lo) ==> SlotFine(d, l, lo, len) && PlaceOf(d, l, lo, len) + len == area
  }

  ghost predicate EdgeAdd(v: Vol, n: nat, name: seq<byte>) {
    DirOk(v, n) && EdgeFor(DirBytes(v, n), Lim(v), MinLen(|name|), Area(v))
  }

  /** Such a name is written although the call fails. */
  ghost predicate Slips(v: Vol, n: nat, name: seq<byte>) {
    EdgeAdd(v, n, name) && NameErr(DirBytes(v, n), Lim(v), name).None?
  }

  /** What adding a name to directory `n` returns: the error of a bad, known or unreadable name; EFBIG if the new record
      does not end before the supported area does; ENOSPC if it needs a block and none is free; else success. */
  ghost predicate LinkRet(v: Vol, n: nat, name: seq<byte>, ret: Ret) {
    DirOk(v, n) &&
    if |name| > 254 then ret == Err(ENAMETOOLONG)
    else if |name| == 0 then ret == Err(ENOENT)
    else match Lookup(Parse(DirBytes(v, n), Lim(v), 0), name) {
           case Hit(_, _) => ret == Err(EEXIST)
           case Bad => ret == Err(EIO)
           case Miss => exists lo: nat :: LastOk(DirBytes(v, n), Lim(v), lo) && PlacedRet(v, n, lo, MinLen(|name|), ret)
         }
  }

  /** What adding a record of `len` bytes returns, where `lo` is the last record. */
  predicate PlacedRet(v: Vol, n: nat, lo: nat, len: nat, ret: Ret)
    requires DirFile(v, n) && 0 < v.geo.blockSize && LastOk(DirBytes(v, n), Lim(v), lo)
  {
    var p := PlaceOf(DirBytes(v, n), Lim(v), lo, len);
    if 12 * v.geo.blockSize <= p + len then ret == Err(EFBIG)
    else if NoBlockFor(v, n, p) then ret == Err(ENOSPC)
    else ret.Ok?
  }

  lemma OutcomeRet(v: Vol, w: Vol, n: nat, lo: nat, ino: nat, name: seq<byte>, ret: Ret)
    requires DirOk(v, n) && Outcome(v, w, n, lo, ino, name, ret) && NameErr(DirBytes(v, n), Lim(v), name).None?
    ensures LinkRet(v, n, name, ret)
  {
    hide Parse, Lookup, Touched, FileOk, NoHoles, Added, SlotFine, Content, LastAt;
    var d, l, len := DirBytes(v, n), Lim(v), MinLen(|name|);
    var p := PlaceOf(d, l, lo, len);
    MinLenRange(|name|);
    if p < Area(v) {
      PlaceInArea(d, l, lo, len, p);
      if p + len == Area(v) {
        EdgeInside(d, l, p, len);
      }
    }
    hide PlaceOf;
    assert PlacedRet(v, n, lo, len, ret);
  }

  lemma EdgeInside(d: seq<byte>, l: Limits, p: nat, len: nat)
    requires GoodLimits(l) && Rem(|d|, l.blockSize) == 0 && 0 < len <= 264 && p + len == NR_DIRECT * l.blockSize
    ensures p != |d| && p < NR_DIRECT * l.blockSize
  {
    if p == |d| {
      QuotRem(p, l.blockSize);
      QuotRemUnique(Quot(p, l.blockSize), l.blockSize, len);
      TimesIsMul(NR_DIRECT, l.blockSize);
      QuotRemUnique(NR_DIRECT, l.blockSize, 0);
    }
  }

  /** A record that ends exactly where the supported area ends: the call fails with EFBIG, and the name is there. */
  lemma AreaEdge(v: Vol, w: Vol, n: nat, lo: nat, ino: nat, name: seq<byte>, ret: Ret)
    requires EdgeAdd(v, n, name) && Outcome(v, w, n, lo, ino, name, ret) && |name| <= 254
    ensures ret == Err(EFBIG) && Added(DirBytes(v, n), DirBytes(w, n), Lim(v), Area(v) - MinLen(|name|), ino, name)
  {
    var d, l, len := DirBytes(v, n), Lim(v), MinLen(|name|);
    var p := PlaceOf(d, l, lo, len);
    MinLenRange(|name|);
    assert SlotFine(d, l, lo, len) && p + len == Area(v);
    EdgeInside(d, l, p, len);
  }

  lemma AddLinkIs(w: Vol, ino: nat)
    requires w.IsInum(ino) && |w.inodes| == w.geo.inodesCount
    ensures AddLink(w, ino) == WithLinks(w, ino, w.Ino(ino).links + 1)
    ensures AddLink(w, ino).Ino(ino) == w.Ino(ino).(links := w.Ino(ino).links + 1) && AddLink(w, ino).geo == w.geo
    ensures forall n :: IsDir(w, n) ==> IsDir(AddLink(w, ino), n)
  {
  }

  /** At the edge an entry is left without its link. */
  lemma EdgeStep(v: Vol, w: Vol, n: nat, lo: nat, ino: nat, name: seq<byte>, ret: Ret)
    requires FsBut(v, ino, 0) && IsDir(v, n) && Used(v, ino) && EdgeAdd(v, n, name) && |name| <= 254
    requires Outcome(v, w, n, lo, ino, name, ret)
    ensures ret == Err(EFBIG) && FsBut(w, ino, 1) && Used(w, ino) && IsDir(w, n) && w.Ino(ino).links == v.Ino(ino).links
    ensures n != ino ==> w.Ino(ino) == v.Ino(ino)
    ensures AddedTo(ListOf(v, n), ListOf(w, n), ino, name, true)
  {
    hide FileOk, NoHoles, Tiled, Touched, Parse, RoomFor, EdgeFor, Sound, Owning, Apart, Covered, Linked, Held, Lookup,
      Content, PlaceOf;
    AreaEdge(v, w, n, lo, ino, name, ret);
    UsedAfter(v, w, n, ino);
    AddedStep(v, w, n, Area(v) - MinLen(|name|), ino, name, 0);
    assert DirOk(v, n) && DirOk(w, n) && w.geo == v.geo;
  }

  /** ext2_new_dir_entry() as a step of the volume. */
  lemma NewEntryStep(v: Vol, w: Vol, x: Vol, n: nat, lo: nat, ino: nat, name: seq<byte>, ret: Ret)
    requires FsBut(v, ino, 0) && IsDir(v, n) && Used(v, ino) && Counted(v, ino) && SafeAdd(v, n, name) && |name| <= 254
    requires Outcome(v, w, n, lo, ino, name, ret) && w.IsInum(ino) && |w.inodes| == w.geo.inodesCount
    requires x == if ret.Ok? then AddLink(w, ino) else w
    ensures FsBut(x, ino, 0) && Used(x, ino) && IsDir(x, n)
    ensures x.Ino(ino).links == v.Ino(ino).links + (if ret.Ok? then 1 else 0)
    ensures n != ino ==> x.Ino(ino) == v.Ino(ino).(links := x.Ino(ino).links)
  {
    hide FileOk, NoHoles, Tiled, Touched, Added, Parse, FsBut, RoomFor, PlaceOf, Content;
    ArrivedIsOk(v, w, n, lo, ino, name, ret);
    UsedAfter(v, w, n, ino);
    if ret.Ok? {
      AddLinkIs(w, ino);
      hide AddLink, WithLinks;
      AddedStep(v, w, n, PlaceOf(DirBytes(v, n), Lim(v), lo, MinLen(|name|)), ino, name, 0);
      WithLinksStep(w, ino, w.Ino(ino).links + 1, 1, x);
    } else {
      SameStep(v, w, n, ino, 0);
    }
  }

  lemma UsedAfter(v: Vol, w: Vol, n: nat, ino: nat)
    requires Touched(v, w, n) && Used(v, ino)
    ensures w.geo == v.geo && w.freeInodes == v.freeInodes && (IsDir(v, n) ==> IsDir(w, n))
    ensures Used(w, ino) && w.Ino(ino).links == v.Ino(ino).links && (n != ino ==> w.Ino(ino) == v.Ino(ino))
  {
  }

  /** The records of directory `n`. */
  function ListOf(v: Vol, n: nat): Listing {
    if DirOk(v, n) then Parse(DirBytes(v, n), Lim(v), 0) else Listing([], false)
  }

  /** What adding a name promises: the name resolves to `ino` and no other lookup changes; or, when it fails, no lookup
      changes at all. */
  ghost predicate AddedTo(d: Listing, e: Listing, ino: nat, name: seq<byte>, ok: bool) {
    if ok then Lookup(e, name).Hit? && Lookup(e, name).ino == ino &&
               forall x :: x != name ==> Lookup(e, x) == Lookup(d, x)
    else forall x :: Lookup(e, x) == Lookup(d, x)
  }

  lemma NameAddedBy(v: Vol, w: Vol, x: Vol, n: nat, lo: nat, ino: nat, name: seq<byte>, ret: Ret)
    requires SafeAdd(v, n, name) && IsDir(v, n) && Outcome(v, w, n, lo, ino, name, ret) && |name| <= 254
    requires Used(w, ino) && IsDir(w, n) && Sound(w) && DirsOk(w) && Owning(w)
    requires x == if ret.Ok? then AddLink(w, ino) else w
    ensures AddedTo(ListOf(v, n), ListOf(x, n), ino, name, ret.Ok?)
  {
    ArrivedIsOk(v, w, n, lo, ino, name, ret);
    hide FileOk, NoHoles, Tiled, Touched, Parse, RoomFor, DirOk, Sound, Owning;
    assert DirOk(w, n);
    if ret.Ok? {
      AddLinkIs(w, ino);
      hide AddLink, WithLinks;
      WithLinksSelf(w, ino, w.Ino(ino).links + 1, x);
      LinksKeepDir(w, ino, w.Ino(ino).links + 1, x, n);
    }
  }

  lemma LinksKeepDir(v: Vol, x: nat, k: nat, w: Vol, n: nat)
    requires Sound(v) && DirsOk(v) && Owning(v) && Used(v, x) && w == WithLinks(v, x, k) && IsDir(v, n) && Sound(w)
    ensures DirOk(v, n) && DirOk(w, n) && DirBytes(w, n) == DirBytes(v, n)
  {
    assert Freeable(v, TreeOf(v, n));
    assert TreeOf(w, n) == TreeOf(v, n) && w.Shape();
    SameDir(v, w, n);
  }

  lemma NameAddedStep(v: Vol, w: Vol, x: Vol, n: nat, lo: nat, ino: nat, name: seq<byte>, ret: Ret)
    requires FsBut(v, ino, 0) && IsDir(v, n) && Used(v, ino) && SafeAdd(v, n, name) && |name| <= 254
    requires Outcome(v, w, n, lo, ino, name, ret) && w.IsInum(ino) && |w.inodes| == w.geo.inodesCount
    requires x == if ret.Ok? then AddLink(w, ino) else w
    ensures AddedTo(ListOf(v, n), ListOf(x, n), ino, name, ret.Ok?)
  {
    ArrivedIsOk(v, w, n, lo, ino, name, ret);
    UsedAfter(v, w, n, ino);
    if ret.Ok? {
      AddedStep(v, w, n, PlaceOf(DirBytes(v, n), Lim(v), lo, MinLen(|name|)), ino, name, 0);
    } else {
      SameStep(v, w, n, ino, 0);
    }
    NameAddedBy(v, w, x, n, lo, ino, name, ret);
  }

  /** ext2_new_dir_entry() brings in no name twice. */
  lemma EntryNames(v: Vol, w: Vol, x: Vol, n: nat, lo: nat, ino: nat, name: seq<byte>, ret: Ret)
    requires Names(v) && FsBut(v, ino, 0) && IsDir(v, n) && Used(v, ino) && |name| <= 254
    requires SafeAdd(v, n, name) || EdgeAdd(v, n, name)
    requires Outcome(v, w, n, lo, ino, name, ret) && w.IsInum(ino) && |w.inodes| == w.geo.inodesCount
    requires Lookup(Parse(DirBytes(v, n), Lim(v), 0), name) == Miss
    requires x == if ret.Ok? then AddLink(w, ino) else w
    ensures Names(x)
  {
    hide FileOk, NoHoles, Touched, Parse, Names, Owning, Apart, Covered, Linked, Held, Sound, RoomFor, EdgeFor, Lookup,
      Added, Tiled, Content;
    var p := PlaceOf(DirBytes(v, n), Lim(v), lo, MinLen(|name|));
    UsedAfter(v, w, n, ino);
    if EdgeAdd(v, n, name) {
      AreaEdge(v, w, n, lo, ino, name, ret);
      AddedNames(v, w, n, Area(v) - MinLen(|name|), ino, name);
    } else {
      ArrivedIsOk(v, w, n, lo, ino, name, ret);
      if ret.Ok? {
        AddedNames(v, w, n, p, ino, name);
        AddedStep(v, w, n, p, ino, name, 0);
        AddLinkIs(w, ino);
        WithLinksNames(w, ino, w.Ino(ino).links + 1, x);
      } else {
        SameNames(v, w, n);
      }
    }
  }

  /** ext2_new_dir_entry() for an inode in use. */
  method LinkEntry(fs: Ext2, n: nat, ino: nat, name: seq<byte>, kind: byte, slack: seq<byte>, mem: seq<byte>)
    returns (ret: Ret)
    requires fs.Wired() && FsBut(fs.View(), ino, 0) && IsDir(fs.View(), n) && Used(fs.View(), ino) &&
             Counted(fs.View(), ino)
    requires SafeAdd(fs.View(), n, name) || EdgeAdd(fs.View(), n, name)
    requires |slack| == 0x1_0000 && 4 <= |mem|
    modifies fs`inodes, fs`disk, fs.blockMaps
    ensures fs.Wired() && Used(fs.View(), ino) && IsDir(fs.View(), n) && fs.View().geo == old(fs.View()).geo
    ensures FsBut(fs.View(), ino, if Slips(old(fs.View()), n, name) then 1 else 0)
    ensures fs.View().Ino(ino).links == old(fs.View()).Ino(ino).links + (if ret.Ok? then 1 else 0)
    ensures n != ino ==> fs.View().Ino(ino) == old(fs.View()).Ino(ino).(links := fs.View().Ino(ino).links)
    ensures LinkRet(old(fs.View()), n, name, ret)
    ensures Slips(old(fs.View()), n, name) ==> ret == Err(EFBIG)
    ensures AddedTo(ListOf(old(fs.View()), n), ListOf(fs.View(), n), ino, name,
                    ret.Ok? || Slips(old(fs.View()), n, name))
    ensures fs.View().freeInodes == old(fs.View()).freeInodes
    ensures Names(old(fs.View())) ==> Names(fs.View())
  {
    hide Ext2.Wired, FileOk, NoHoles, Freeable, Owning, Apart, Covered, Linked, Held, RoomFor, EdgeFor, Names, Touched,
      Parse, Lookup, Content, Puts, ListOf, AddedTo, PutRet, SlotFine, Added, PlaceOf;
    ghost var v := fs.View();
    ghost var lo, w;
    ret, lo, w := NewDirEntry(fs, n, ino, name, kind, slack, mem);
    if NameErr(DirBytes(v, n), Lim(v), name).None? {
      OutcomeInum(v, w, n, lo, ino, name, ret);
      OutcomeRet(v, w, n, lo, ino, name, ret);
      hide Outcome, FsBut, SafeAdd, EdgeAdd, Slips;
      EntryStep(v, w, fs.View(), n, lo, ino, name, ret);
    } else {
      NothingAdded(v, n, ino, name);
      NamedRet(v, n, name, ret);
    }
  }

  lemma NamedRet(v: Vol, n: nat, name: seq<byte>, ret: Ret)
    requires DirOk(v, n) && NameErr(DirBytes(v, n), Lim(v), name).Some?
    requires ret == Err(NameErr(DirBytes(v, n), Lim(v), name).value)
    ensures LinkRet(v, n, name, ret)
  {
  }

  lemma OutcomeInum(v: Vol, w: Vol, n: nat, lo: nat, ino: nat, name: seq<byte>, ret: Ret)
    requires Outcome(v, w, n, lo, ino, name, ret) && Used(v, ino)
    ensures w.IsInum(ino) && |w.inodes| == w.geo.inodesCount
  {
    hide PutRet, SlotFine, Added, Parse, PlaceOf, LastAt;
  }

  lemma NothingAdded(v: Vol, n: nat, ino: nat, name: seq<byte>)
    ensures AddedTo(ListOf(v, n), ListOf(v, n), ino, name, false)
  {
  }

  /** Everything that a name that was missing does to the volume. */
  lemma EntryStep(v: Vol, w: Vol, x: Vol, n: nat, lo: nat, ino: nat, name: seq<byte>, ret: Ret)
    requires FsBut(v, ino, 0) && IsDir(v, n) && Used(v, ino) && Counted(v, ino) && DirOk(v, n)
    requires SafeAdd(v, n, name) || EdgeAdd(v, n, name)
    requires Outcome(v, w, n, lo, ino, name, ret) && NameErr(DirBytes(v, n), Lim(v), name).None?
    requires w.IsInum(ino) && |w.inodes| == w.geo.inodesCount && x == if ret.Ok? then AddLink(w, ino) else w
    ensures Used(x, ino) && IsDir(x, n) && x.geo == v.geo && x.freeInodes == v.freeInodes
    ensures FsBut(x, ino, if Slips(v, n, name) then 1 else 0)
    ensures x.Ino(ino).links == v.Ino(ino).links + (if ret.Ok? then 1 else 0)
    ensures n != ino ==> x.Ino(ino) == v.Ino(ino).(links := x.Ino(ino).links)
    ensures Slips(v, n, name) ==> ret == Err(EFBIG)
    ensures AddedTo(ListOf(v, n), ListOf(x, n), ino, name, ret.Ok? || Slips(v, n, name))
    ensures Names(v) ==> Names(x)
  {
    hide FsBut, SafeAdd, EdgeAdd, Names, Touched, Parse, Lookup, Content, ListOf, AddedTo, DirOk, FileOk, NoHoles,
      Added, PutRet, SlotFine;
    UsedAfter(v, w, n, ino);
    if EdgeAdd(v, n, name) {
      EdgeStep(v, w, n, lo, ino, name, ret);
    } else {
      NewEntryStep(v, w, x, n, lo, ino, name, ret);
      NameAddedStep(v, w, x, n, lo, ino, name, ret);
    }
    if Names(v) {
      EntryNames(v, w, x, n, lo, ino, name, ret);
    }
  }

  /** A hard link keeps the volume in order; at the edge it leaves an entry without its link. */
  method HardLink(fs: Ext2, n: nat, ino: nat, name: seq<byte>, kind: byte, slack: seq<byte>, mem: seq<byte>)
    returns (ret: Ret)
    requires fs.Wired() && FsOk(fs.View()) && IsDir(fs.View(), n) && Used(fs.View(), ino) && Counted(fs.View(), ino)
    requires SafeAdd(fs.View(), n, name) || EdgeAdd(fs.View(), n, name)
    requires |slack| == 0x1_0000 && 4 <= |mem|
    modifies fs`inodes, fs`disk, fs.blockMaps
    ensures fs.Wired() && (FsOk(fs.View()) <==> !Slips(old(fs.View()), n, name))
    ensures Slips(old(fs.View()), n, name) ==> ret == Err(EFBIG)
    ensures AddedTo(ListOf(old(fs.View()), n), ListOf(fs.View(), n), ino, name,
                    ret.Ok? || Slips(old(fs.View()), n, name))
    ensures LinksOf(fs.View(), ino) == LinksOf(old(fs.View()), ino) + (if ret.Ok? then 1 else 0)
    ensures LinkRet(old(fs.View()), n, name, ret)
    ensures fs.View().freeInodes == old(fs.View()).freeInodes
    ensures Names(old(fs.View())) ==> Names(fs.View())
  {
    hide Ext2.Wired, AddedTo, ListOf, SafeAdd, EdgeAdd, Slips, Names, Sound, Owning, Apart, Covered, DirsOk, Linked,
      LinkRet;
    ghost var v := fs.View();
    assert v.geo.firstInode <= ino ==> 0 < v.Ino(ino).links;
    Unsettle(v, ino);
    hide FsBut, Held;
    ret := LinkEntry(fs, n, ino, name, kind, slack, mem);
    if Slips(v, n, name) {
      Unlinked(fs.View(), ino);
    } else {
      Settle(fs.View(), ino);
    }
  }

  /** An entry too many is not in order. */
  lemma Unlinked(v: Vol, ino: nat)
    requires FsBut(v, ino, 1) && Used(v, ino)
    ensures !FsOk(v)
  {
    assert Count(v, ino) == LinksOf(v, ino) + 1;
  }

  /** A new inode does not disturb the directory it will be named in. */
  lemma AllocKeepsDir(v: Vol, x: nat, w: Vol, n: nat, name: seq<byte>)
    requires FsOk(v) && x in v.freeInodes && HasInode(v, x) && w == SwitchInode(v, x, true, FreshInode(Regular)) &&
             Sound(w)
    requires IsDir(v, n)
    ensures n != x && IsDir(w, n) && ListOf(w, n) == ListOf(v, n)
    ensures SafeAdd(w, n, name) == SafeAdd(v, n, name)
    ensures EdgeAdd(w, n, name) == EdgeAdd(v, n, name) && Slips(w, n, name) == Slips(v, n, name)
    ensures forall ret :: LinkRet(w, n, name, ret) == LinkRet(v, n, name, ret)
  {
    assert ImageStep(v, w, x);
    ImageStepKept(v, w, x, n);
    hide FsBut, Sound, ImageStep;
    SameRet(v, w, n, name);
    hide LinkRet;
  }

  /** The answer depends on the bytes of the directory and on the free blocks. */
  lemma SameRet(v: Vol, w: Vol, n: nat, name: seq<byte>)
    requires Kept(v, w, n) && IsDir(v, n) && DirOk(v, n) && w.geo == v.geo && w.freeBlocks == v.freeBlocks
    ensures forall ret :: LinkRet(w, n, name, ret) == LinkRet(v, n, name, ret)
  {
    hide Parse, Lookup, LastOk, PlaceOf, Content, FileOk, NoHoles, Tiled, TreeOf;
    assert DirOk(w, n) && DirBytes(w, n) == DirBytes(v, n) && Lim(w) == Lim(v);
  }

  lemma AllocNames(v: Vol, x: nat, w: Vol)
    requires Names(v) && FsOk(v) && x in v.freeInodes && HasInode(v, x) && Sound(w)
    requires w == SwitchInode(v, x, true, FreshInode(Regular))
    ensures Names(w)
  {
    hide Names, Owning, Apart, Covered, DirsOk, Linked, Held;
    assert ImageStep(v, w, x);
    ImageNames(v, w, x);
  }

  lemma DropNames(v: Vol, x: nat, extra: int, w: Vol)
    requires Names(v) && FsBut(v, x, extra) && Used(v, x) && HasInode(v, x) && Sound(w)
    requires w == SwitchInode(v, x, false, FreshInode(NoFile))
    ensures Names(w)
  {
    hide Names, Owning, Apart, Covered, DirsOk, Linked, Held;
    assert ImageStep(v, w, x);
    ImageNames(v, w, x);
  }

  /** inode_alloc() of a regular file on a volume in order. */
  method NewInode(fs: Ext2, ghost n: nat, ghost name: seq<byte>) returns (x: nat)
    requires fs.Wired() && FsOk(fs.View()) && IsDir(fs.View(), n)
    modifies fs`groupDirs, fs`inodes, fs.inodeMaps
    ensures fs.Wired() && (x == 0 <==> old(fs.View()).freeInodes == {}) && (x == 0 ==> fs.View() == old(fs.View()))
    ensures x != 0 ==> x in old(fs.View()).freeInodes && FsBut(fs.View(), x, 0) && Used(fs.View(), x)
    ensures x != 0 ==> fs.View().Ino(x) == FreshInode(Regular) && fs.geo.firstInode <= x
    ensures x != 0 ==> n != x && IsDir(fs.View(), n) && SafeAdd(fs.View(), n, name) == SafeAdd(old(fs.View()), n, name)
    ensures x != 0 ==> EdgeAdd(fs.View(), n, name) == EdgeAdd(old(fs.View()), n, name)
    ensures x != 0 ==> Slips(fs.View(), n, name) == Slips(old(fs.View()), n, name)
    ensures x != 0 ==> forall ret :: LinkRet(fs.View(), n, name, ret) == LinkRet(old(fs.View()), n, name, ret)
    ensures ListOf(fs.View(), n) == ListOf(old(fs.View()), n)
    ensures x != 0 ==> fs.View().freeInodes == old(fs.View()).freeInodes - {x}
    ensures Names(old(fs.View())) ==> Names(fs.View())
  {
    hide Ext2.Wired, Owning, Apart, Covered, DirsOk, Linked, Held, DirOk, ListOf, SafeAdd, EdgeAdd, Slips, Names,
      LinkRet;
    ghost var v := fs.View();
    x := fs.InodeAlloc(Regular);
    if x != 0 {
      InodeFacts(v, x);
      AllocStep(v, x, fs.View());
      AllocKeepsDir(v, x, fs.View(), n, name);
      if Names(v) {
        AllocNames(v, x, fs.View());
      }
    }
  }

  lemma DropStep(v: Vol, x: nat, extra: int, w: Vol, n: nat)
    requires FsBut(v, x, extra) && Used(v, x) && v.Ino(x) == FreshInode(Regular) && HasInode(v, x) && n != x
    requires w == SwitchInode(v, x, false, FreshInode(NoFile)) && Sound(w) && IsDir(v, n)
    ensures ListOf(w, n) == ListOf(v, n) && IsDir(w, n) && (extra == 0 ==> FsOk(w))
  {
    assert ImageStep(v, w, x);
    ImageStepKept(v, w, x, n);
    NoTree(v.disk, NR_BLOCKS);
    if extra == 0 {
      ReleaseStep(v, x, w);
    }
  }

  /** inode_dealloc() of an inode that got no link; an entry for it that slipped into directory `n` stays. */
  method DropInode(fs: Ext2, x: nat, ghost n: nat, ghost extra: int)
    requires fs.Wired() && FsBut(fs.View(), x, extra) && Used(fs.View(), x) && fs.View().Ino(x) == FreshInode(Regular)
    requires fs.geo.firstInode <= x && IsDir(fs.View(), n) && n != x
    modifies fs`groupDirs, fs`inodes, fs.inodeMaps
    ensures fs.Wired() && fs.View().freeInodes == old(fs.View()).freeInodes + {x} && (extra == 0 ==> FsOk(fs.View()))
    ensures ListOf(fs.View(), n) == ListOf(old(fs.View()), n) && IsDir(fs.View(), n)
    ensures Names(old(fs.View())) ==> Names(fs.View())
  {
    hide Ext2.Wired, Owning, Apart, Covered, DirsOk, Linked, Held, DirOk, ListOf, Names;
    ghost var v := fs.View();
    fs.InodeDealloc(x);
    DropStep(v, x, extra, fs.View(), n);
    if Names(v) {
      DropNames(v, x, extra, fs.View());
    }
  }

  /** A directory that names a free inode is not in order. */
  lemma Dangling(v: Vol, n: nat, name: seq<byte>, x: nat)
    requires IsDir(v, n) && x in v.freeInodes && Lookup(ListOf(v, n), name).Hit? && Lookup(ListOf(v, n), name).ino == x
    ensures !FsOk(v)
  {
    if FsOk(v) {
      assert DirOk(v, n);
      HitAt(DirBytes(v, n), Lim(v), 0, name, Lookup(ListOf(v, n), name).at);
      LiveEntry(v, n, Lookup(ListOf(v, n), name).at, x);
      LiveUsed(v, n, x);
    }
  }

  /** Name the new inode `x`, or give it back. */
  method NameInode(fs: Ext2, n: nat, x: nat, name: seq<byte>, kind: byte, slack: seq<byte>, mem: seq<byte>)
    returns (ret: Ret)
    requires fs.Wired() && FsBut(fs.View(), x, 0) && Used(fs.View(), x) && IsDir(fs.View(), n) && n != x
    requires fs.View().Ino(x) == FreshInode(Regular) && fs.geo.firstInode <= x
    requires SafeAdd(fs.View(), n, name) || EdgeAdd(fs.View(), n, name)
    requires |slack| == 0x1_0000 && 4 <= |mem|
    modifies fs, fs.blockMaps, fs.inodeMaps
    ensures fs.Wired() && (FsOk(fs.View()) <==> !Slips(old(fs.View()), n, name))
    ensures AddedTo(ListOf(old(fs.View()), n), ListOf(fs.View(), n), x, name, ret.Ok? || Slips(old(fs.View()), n, name))
    ensures ret.Ok? ==> LinksOf(fs.View(), x) == 1 && fs.View().IsInum(x) && |fs.inodes| == fs.geo.inodesCount
    ensures ret.Ok? ==> fs.View().Ino(x) == Inode(Regular, 0, 1, 0, 0, NO_BLOCKS)
    ensures LinkRet(old(fs.View()), n, name, ret)
    ensures Slips(old(fs.View()), n, name) ==> ret == Err(EFBIG)
    ensures fs.View().freeInodes == old(fs.View()).freeInodes + (if ret.Ok? then {} else {x})
    ensures Names(old(fs.View())) ==> Names(fs.View())
  {
    hide Ext2.Wired, FsBut, SafeAdd, EdgeAdd, Slips, ListOf, Names, LinkRet;
    ghost var slips := Slips(fs.View(), n, name);
    ret := LinkEntry(fs, n, x, name, kind, slack, mem);
    if ret.Ok? {
      Settle(fs.View(), x);
    } else {
      DropInode(fs, x, n, if slips then 1 else 0);
      if slips {
        Dangling(fs.View(), n, name, x);
      }
    }
  }

  /** file_new() for a regular file. At the edge it fails with EFBIG, and leaves a live entry that names a free
      inode. */
  method FileNew(fs: Ext2, n: nat, name: seq<byte>, kind: byte, slack: seq<byte>, mem: seq<byte>) returns (ret: Ret)
    requires fs.Wired() && FsOk(fs.View()) && IsDir(fs.View(), n)
    requires SafeAdd(fs.View(), n, name) || EdgeAdd(fs.View(), n, name)
    requires |slack| == 0x1_0000 && 4 <= |mem|
    modifies fs, fs.blockMaps, fs.inodeMaps
    ensures fs.Wired()
    ensures FsOk(fs.View()) <==> !Slips(old(fs.View()), n, name) || old(fs.View()).freeInodes == {}
    ensures ret.Ok? ==> ret.val in old(fs.View()).freeInodes && LinksOf(fs.View(), ret.val) == 1
    ensures ret.Ok? ==> 1 <= ret.val <= |fs.inodes| && fs.inodes[ret.val - 1] == Inode(Regular, 0, 1, 0, 0, NO_BLOCKS)
    ensures old(fs.View()).freeInodes != {} ==> LinkRet(old(fs.View()), n, name, ret)
    ensures fs.View().freeInodes == old(fs.View()).freeInodes - (if ret.Ok? then {ret.val} else {})
    ensures !Slips(old(fs.View()), n, name) ==>
              AddedTo(ListOf(old(fs.View()), n), ListOf(fs.View(), n), if ret.Ok? then ret.val else 0, name, ret.Ok?)
    ensures old(fs.View()).freeInodes == {} ==> ret == Err(ENOSPC) && fs.View() == old(fs.View())
    ensures Slips(old(fs.View()), n, name) && old(fs.View()).freeInodes != {} ==>
              && ret == Err(EFBIG) && Lookup(ListOf(fs.View(), n), name).Hit?
              && Lookup(ListOf(fs.View(), n), name).ino in fs.View().freeInodes
    ensures Names(old(fs.View())) ==> Names(fs.View())
  {
    hide Ext2.Wired, FsBut, SafeAdd, EdgeAdd, Slips, ListOf, Names, Used, Lookup, LinksOf, FreshInode,
      LinkRet;
    var x := NewInode(fs, n, name);
    if x == 0 {
      return Err(ENOSPC);
    }
    ret := NameInode(fs, n, x, name, kind, slack, mem);
    if ret.Ok? {
      AnyOk(old(fs.View()), n, name, ret, Ok(x));
      ret := Ok(x);
    }
  }

  lemma AnyOk(v: Vol, n: nat, name: seq<byte>, ret: Ret, other: Ret)
    requires LinkRet(v, n, name, ret) && ret.Ok? && other.Ok?
    ensures LinkRet(v, n, name, other)
  {
    hide Parse, Lookup, LastOk, PlaceOf;
    var lo: nat :| LastOk(DirBytes(v, n), Lim(v), lo) && PlacedRet(v, n, lo, MinLen(|name|), ret);
    assert PlacedRet(v, n, lo, MinLen(|name|), other);
  }

  /** Erasing the record that a lookup found. */
  lemma EraseStep(v: Vol, w: Vol, n: nat, at: nat, ino: nat, name: seq<byte>)
    requires FsOk(v) && IsDir(v, n) && Lookup(ListOf(v, n), name) == Hit(ino, at)
    requires DirOk(v, n) && Touched(v, w, n) && DirFile(w, n) && Removed(DirBytes(v, n), DirBytes(w, n), Lim(v), at)
    requires EIno(DirBytes(v, n), at) == ino && EName(DirBytes(v, n), at) == name
    ensures FsBut(w, ino, -1) && Used(v, ino) && Used(w, ino) && Counted(v, ino)
    ensures 0 < w.Ino(ino).links == v.Ino(ino).links
    ensures ino != n ==> w.Ino(ino) == v.Ino(ino) && TreeOf(w, ino) == TreeOf(v, ino)
    ensures DirOk(w, n) && forall x :: x != name ==> Lookup(ListOf(w, n), x) == Lookup(ListOf(v, n), x)
  {
    var d, e, l := DirBytes(v, n), DirBytes(w, n), Lim(v);
    Unsettle(v, ino);
    RemovedStep(v, w, n, at, ino);
    RemovedNames(d, e, l, at, name);
    LiveEntry(v, n, at, ino);
    LiveUsed(v, n, ino);
    UsedAfter(v, w, n, ino);
    if ino != n {
      TouchedKept(v, w, n, ino);
    }
  }

  lemma RemovedNames(d: seq<byte>, e: seq<byte>, l: Limits, at: nat, name: seq<byte>)
    requires 0 < l.blockSize && Removed(d, e, l, at) && EName(d, at) == name
    ensures forall x :: x != name ==> Lookup(Parse(e, l, 0), x) == Lookup(Parse(d, l, 0), x)
  {
    forall x | x != name
      ensures Lookup(Parse(e, l, 0), x) == Lookup(Parse(d, l, 0), x)
    {
      RemovedLookup(d, e, l, at, x);
    }
  }

  lemma LiveEntry(v: Vol, n: nat, at: nat, ino: nat)
    requires IsDir(v, n) && DirOk(v, n) && Reach(DirBytes(v, n), Lim(v), 0, at) && ValidAt(DirBytes(v, n), Lim(v), at)
    requires EIno(DirBytes(v, n), at) == ino != 0
    ensures v.IsInum(ino) && 0 < EntriesFor(v, n, ino)
  {
    var d, l := DirBytes(v, n), Lim(v);
    ParseSplit(d, l, 0, at);
    ParseStep(d, l, at);
    LinksConcat(Upto(d, l, 0, at), Parse(d, l, at).ents);
  }

  lemma EraseKeepsNames(v: Vol, w: Vol, n: nat, at: nat)
    requires Names(v) && FsOk(v) && IsDir(v, n) && DirOk(v, n) && Touched(v, w, n) && DirFile(w, n)
    requires Removed(DirBytes(v, n), DirBytes(w, n), Lim(v), at) && DirOk(w, n)
    ensures Names(w) && Lookup(ListOf(w, n), EName(DirBytes(v, n), at)) == Miss
  {
    hide Names, Owning, Apart, Covered, DirsOk, Linked, Held, Sound, Parse, Lookup;
    ErasedNames(v, w, n, at);
    hide Removed, EName, FileOk, NoHoles, Content;
    assert w.geo == v.geo;
  }

  /** Clear the record of `name`, which was found at `at`. */
  method EraseName(fs: Ext2, n: nat, name: seq<byte>, at: nat, ino: nat, slack: seq<byte>)
    requires fs.Wired() && FsOk(fs.View()) && IsDir(fs.View(), n) && Lookup(ListOf(fs.View(), n), name) == Hit(ino, at)
    requires |slack| == 0x1_0000
    modifies fs`inodes, fs`disk, fs.blockMaps
    ensures fs.Wired() && FsBut(fs.View(), ino, -1) && Used(old(fs.View()), ino) && Used(fs.View(), ino)
    ensures Counted(fs.View(), ino)
    ensures 0 < fs.View().Ino(ino).links == old(fs.View()).Ino(ino).links
    ensures ino != n ==>
              fs.View().Ino(ino) == old(fs.View()).Ino(ino) && TreeOf(fs.View(), ino) == TreeOf(old(fs.View()), ino)
    ensures forall x :: x != name ==> Lookup(ListOf(fs.View(), n), x) == Lookup(ListOf(old(fs.View()), n), x)
    ensures fs.View().freeBlocks == old(fs.View()).freeBlocks && fs.View().freeInodes == old(fs.View()).freeInodes
    ensures fs.View().geo == old(fs.View()).geo && IsDir(fs.View(), n)
    ensures Names(old(fs.View())) ==> Names(fs.View()) && Lookup(ListOf(fs.View(), n), name) == Miss
  {
    hide Ext2.Wired;
    ghost var v := fs.View();
    assert DirOk(v, n) && GoodLimits(Lim(v));
    ghost var d := DirBytes(v, n);
    HitAt(d, Lim(v), 0, name, at);
    hide FsBut, FileOk, NoHoles, ValidAt, Parse, Lookup, Names;
    HeaderThere(d, Lim(v), at);
    ghost var e := Erased(d, at, slack);
    EraseEntry(fs, n, at, slack, d, e);
    ErasedRemoves(d, Lim(v), at, slack, e);
    EraseStep(v, fs.View(), n, at, ino, name);
    UsedAfter(v, fs.View(), n, ino);
    if Names(v) {
      EraseKeepsNames(v, fs.View(), n, at);
    }
  }

  lemma HeaderThere(d: seq<byte>, l: Limits, at: nat)
    requires 0 < l.blockSize && ValidAt(d, l, at)
    ensures at + HEADER <= |d| && HEADER <= ERec(d, at)
  {
  }

  /** The last link is gone: the inode and exactly its blocks are released. */
  lemma GoneStep(v: Vol, x: nat, w: Vol, n: nat)
    requires FsBut(v, x, 0) && Used(v, x) && v.Ino(x).kind == Regular && v.Ino(x).links == 0 && HasInode(v, x)
    requires w == Gone(v, x) && Sound(w) && IsDir(v, n)
    ensures FsOk(w) && ListOf(w, n) == ListOf(v, n)
    ensures w.freeInodes == v.freeInodes + {x} && w.freeBlocks == v.freeBlocks + Elements(TreeOf(v, x))
  {
    GoneImage(v, x, w);
    hide FsBut, Gone, ImageStep;
    ReleaseStep(v, x, w);
    GoneKeepsDir(v, x, w, n);
  }

  lemma GoneImage(v: Vol, x: nat, w: Vol)
    requires Sound(v) && Used(v, x) && HasInode(v, x) && w == Gone(v, x) && Sound(w)
    ensures ImageStep(v, w, x) && x in w.freeInodes && forall b :: b in TreeOf(v, x) ==> b in w.freeBlocks
    ensures w.freeInodes == v.freeInodes + {x} && w.freeBlocks == v.freeBlocks + Elements(TreeOf(v, x))
  {
    hide FileTree, DirsCounted;
  }

  lemma GoneKeepsDir(v: Vol, x: nat, w: Vol, n: nat)
    requires FsBut(v, x, 0) && v.IsInum(x) && v.Ino(x).kind == Regular && ImageStep(v, w, x) && IsDir(v, n)
    ensures ListOf(w, n) == ListOf(v, n)
  {
    hide Linked, Held, Covered, Sound, TreeOf;
    ImageStepKept(v, w, x, n);
  }

  lemma LessLinkStep(v: Vol, x: nat, w: Vol, n: nat)
    requires FsBut(v, x, -1) && Used(v, x) && Counted(v, x) && 0 < v.Ino(x).links && w == LessLink(v, x) && IsDir(v, n)
    ensures FsBut(w, x, 0) && Used(w, x) && w.Ino(x) == v.Ino(x).(links := v.Ino(x).links - 1)
    ensures ListOf(w, n) == ListOf(v, n) && IsDir(w, n) && TreeOf(w, x) == TreeOf(v, x) && Freeable(w, TreeOf(w, x))
  {
    var k := v.Ino(x).links - 1;
    assert w == WithLinks(v, x, k);
    WithLinksStep(v, x, k, -1, w);
    WithLinksSelf(v, x, k, w);
    LinksKeepDir(v, x, k, w, n);
  }

  lemma LessLinkNames(v: Vol, x: nat, w: Vol)
    requires Names(v) && FsBut(v, x, -1) && Used(v, x) && 0 < v.Ino(x).links && w == LessLink(v, x)
    ensures Names(w)
  {
    hide Names, Owning, Apart, Covered, DirsOk, Linked, Held, Sound;
    assert w == WithLinks(v, x, v.Ino(x).links - 1);
    WithLinksNames(v, x, v.Ino(x).links - 1, w);
  }

  lemma GoneNames(v: Vol, x: nat, w: Vol)
    requires Names(v) && FsBut(v, x, 0) && Used(v, x) && HasInode(v, x) && w == Gone(v, x) && Sound(w)
    ensures Names(w)
  {
    hide Names, Owning, Apart, Covered, DirsOk, Linked, Held;
    assert ImageStep(v, w, x);
    ImageNames(v, w, x);
  }

  /** Give up one link of inode `x`, and release the inode with the last one. */
  method DropLink(fs: Ext2, x: nat, ghost n: nat)
    requires fs.Wired() && FsBut(fs.View(), x, -1) && Used(fs.View(), x) && Counted(fs.View(), x) && IsDir(fs.View(), n)
    requires 0 < fs.View().Ino(x).links
    requires fs.View().Ino(x).links == 1 ==> fs.View().Ino(x).kind == Regular && fs.geo.firstInode <= x
    modifies fs, fs.blockMaps, fs.inodeMaps
    ensures fs.Wired() && FsOk(fs.View()) && ListOf(fs.View(), n) == ListOf(old(fs.View()), n)
    ensures var last := old(fs.View()).Ino(x).links == 1;
            && fs.View().freeInodes == old(fs.View()).freeInodes + (if last then {x} else {})
            && fs.View().freeBlocks == old(fs.View()).freeBlocks +
                                       (if last then Elements(TreeOf(old(fs.View()), x)) else {})
    ensures LinksOf(fs.View(), x) == old(fs.View()).Ino(x).links - 1
    ensures Names(old(fs.View())) ==> Names(fs.View())
  {
    hide Ext2.Wired, FsBut, ListOf, TreeOf, Freeable, Names, Elements;
    ghost var v := fs.View();
    TakeLink(fs, x);
    ghost var w := fs.View();
    LessLinkStep(v, x, w, n);
    if Names(v) {
      LessLinkNames(v, x, w);
    }
    if fs.inodes[x - 1].links == 0 {
      ReleaseNow(fs, x, n);
    } else {
      Settle(w, x);
    }
  }

  method ReleaseNow(fs: Ext2, x: nat, ghost n: nat)
    requires fs.Wired() && FsBut(fs.View(), x, 0) && Used(fs.View(), x) && fs.View().Ino(x).kind == Regular
    requires fs.View().Ino(x).links == 0 && fs.geo.firstInode <= x && IsDir(fs.View(), n) &&
             Freeable(fs.View(), TreeOf(fs.View(), x))
    modifies fs, fs.blockMaps, fs.inodeMaps
    ensures fs.Wired() && FsOk(fs.View()) && ListOf(fs.View(), n) == ListOf(old(fs.View()), n)
    ensures fs.View().freeInodes == old(fs.View()).freeInodes + {x}
    ensures fs.View().freeBlocks == old(fs.View()).freeBlocks + Elements(TreeOf(old(fs.View()), x))
    ensures Names(old(fs.View())) ==> Names(fs.View())
  {
    hide Ext2.Wired;
    ghost var v := fs.View();
    InodeFacts(v, x);
    hide Owning, Apart, DirsOk, Linked, Held, ListOf, Freeable, Names;
    Release(fs, x);
    GoneStep(v, x, fs.View(), n);
    if Names(v) {
      GoneNames(v, x, fs.View());
    }
  }

  /** Is the deletion of `name` allowed by file_truncate()? The last link may go from a regular file only. */
  ghost predicate SafeDelete(v: Vol, n: nat, name: seq<byte>) {
    var found := Lookup(ListOf(v, n), name);
    found.Hit? && LinksOf(v, found.ino) == 1 ==>
      Used(v, found.ino) && v.Ino(found.ino).kind == Regular && v.geo.firstInode <= found.ino
  }

  /** The blocks that became free are those that the fifteen pointers of inode `x` reached. */
  ghost predicate FreedReachable(v: Vol, w: Vol, x: nat) {
    && Used(v, x) && |v.Ino(x).blocks| == 15
    && forall b: nat :: b in w.freeBlocks && b !in v.freeBlocks <==> Reachable(v.disk, v.Ino(x).blocks, b)
  }

  lemma FreedTree(v: Vol, w: Vol, x: nat)
    requires FsOk(v) && Used(v, x) && w.freeBlocks == v.freeBlocks + Elements(TreeOf(v, x))
    ensures FreedReachable(v, w, x)
  {
    assert Freeable(v, TreeOf(v, x)) && Sound(v) && v.Shape();
    hide FsBut, FileTree, Reachable;
    forall b: nat
      ensures b in w.freeBlocks && b !in v.freeBlocks <==> Reachable(v.disk, v.Ino(x).blocks, b)
    {
      FileReaches(v.disk, v.Ino(x).blocks, b);
      NewlyFree(v, TreeOf(v, x), b);
    }
  }

  /** file_delete() */
  method FileDelete(fs: Ext2, n: nat, name: seq<byte>, slack: seq<byte>) returns (ret: Ret)
    requires fs.Wired() && FsOk(fs.View()) && IsDir(fs.View(), n) && SafeDelete(fs.View(), n, name) &&
             |slack| == 0x1_0000
    modifies fs, fs.blockMaps, fs.inodeMaps
    ensures fs.Wired() && FsOk(fs.View())
    ensures var found := Lookup(ListOf(old(fs.View()), n), name);
            if !found.Hit? || |name| == 0 || |name| > NAME_MAX then ret == Err(ENOENT) && fs.View() == old(fs.View())
            else
              var last := LinksOf(old(fs.View()), found.ino) == 1;
              && ret == Ok(0) && Used(old(fs.View()), found.ino)
              && LinksOf(fs.View(), found.ino) == LinksOf(old(fs.View()), found.ino) - 1
              && fs.View().freeInodes == old(fs.View()).freeInodes + (if last then {found.ino} else {})
              && fs.View().freeBlocks == old(fs.View()).freeBlocks +
                                         (if last then Elements(TreeOf(old(fs.View()), found.ino)) else {})
              && (last ==> FreedReachable(old(fs.View()), fs.View(), found.ino))
    ensures forall x :: x != name ==> Lookup(ListOf(fs.View(), n), x) == Lookup(ListOf(old(fs.View()), n), x)
    ensures Names(old(fs.View())) ==> Names(fs.View()) && (ret.Ok? ==> Lookup(ListOf(fs.View(), n), name) == Miss)
  {
    hide Ext2.Wired;
    ghost var v := fs.View();
    assert DirOk(v, n);
    OkNotBad(ListOf(v, n), name);
    var found := FindDirEntry(fs, n, name);
    hide FsBut, DirOk, ListOf, TreeOf, Names;
    match found {
      case Miss => return Err(ENOENT);
      case Bad => return Err(EIO);
      case Hit(ino, at) =>
        EraseName(fs, n, name, at, ino, slack);
        DropLink(fs, ino, n);
        if LinksOf(v, ino) == 1 {
          FreedTree(v, fs.View(), ino);
        }
        return Ok(0);
    }
  }
}
