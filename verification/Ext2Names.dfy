/** No directory lists a name twice: what the steps of file_new(), ext2_new_dir_entry() and file_delete() keep. */
module Ext2Names {
  import opened Bitmap
  import opened Ext2Vol
  import opened Ext2File
  import opened Ext2Tree
  import opened Ext2Dir
  import opened Ext2DirWrite
  import opened Ext2Core
  import opened Ext2DirOps
  import opened Ext2NewEntry
  import opened Ext2Live
  import opened Ext2Links
  import opened Ext2LinkSteps

  /** No directory lists a name twice. */
  ghost predicate Names(v: Vol) {
    forall n :: IsDir(v, n) && DirOk(v, n) ==> Named(Parse(DirBytes(v, n), Lim(v), 0).ents)
  }

  lemma KeptNames(v: Vol, w: Vol, x: nat)
    requires Names(v) && KeptOthers(v, w, x)
    requires IsDir(w, x) && DirOk(w, x) ==> Named(Parse(DirBytes(w, x), Lim(w), 0).ents)
    ensures Names(w)
  {
    hide Named, TreeOf, Freeable, FileOk, NoHoles, Tiled;
    forall n | IsDir(w, n) && DirOk(w, n)
      ensures Named(Parse(DirBytes(w, n), Lim(w), 0).ents)
    {
      if n != x {
        assert Kept(v, w, n);
      }
    }
  }

  /** A step that changes an inode that is no directory afterwards. */
  lemma ImageNames(v: Vol, w: Vol, x: nat)
    requires Names(v) && Owning(v) && Apart(v) && DirsOk(v) && ImageStep(v, w, x) && !IsDir(w, x)
    ensures Names(w)
  {
    hide Names, Owning, Apart, DirsOk, ImageStep;
    ImageStepKeeps(v, w, x);
    KeptNames(v, w, x);
  }

  lemma WithLinksNames(v: Vol, x: nat, k: nat, w: Vol)
    requires Names(v) && Sound(v) && Owning(v) && Apart(v) && DirsOk(v) && Used(v, x) && w == WithLinks(v, x, k)
    ensures Names(w)
  {
    hide Owning, Apart, Sound, DirOk, Named, Freeable, TreeOf;
    WithLinksSelf(v, x, k, w);
    ImageStepKeeps(v, w, x);
    KeptNames(v, w, x);
  }

  /** A directory gains a name that was missing. */
  lemma AddedNames(v: Vol, w: Vol, n: nat, p: nat, ino: nat, name: seq<byte>)
    requires Names(v) && Owning(v) && Apart(v) && DirsOk(v) && IsDir(v, n) && Touched(v, w, n) && DirFile(w, n)
    requires DirOk(v, n) && Added(DirBytes(v, n), DirBytes(w, n), Lim(v), p, ino, name) && 0 < ino
    requires Lookup(Parse(DirBytes(v, n), Lim(v), 0), name) == Miss
    ensures Names(w)
  {
    var d, e, l := DirBytes(v, n), DirBytes(w, n), Lim(v);
    hide Named, Owning, Apart, Parse, Lookup, Links, Touched, Content;
    TouchedKeeps(v, w, n);
    ParseOrdered(d, l, 0);
    ParseOrdered(e, l, 0);
    assert Lim(w) == Lim(v);
    assert Parse(d, l, 0) == Listing(Parse(d, l, 0).ents, true) && Parse(e, l, 0) == Listing(Parse(e, l, 0).ents, true);
    assert Named(Parse(d, l, 0).ents);
    AddedNamed(Parse(d, l, 0).ents, Parse(e, l, 0).ents, Ent(p, ino, name));
    KeptNames(v, w, n);
  }

  /** A directory lists what it did. */
  lemma SameNames(v: Vol, w: Vol, n: nat)
    requires Names(v) && Owning(v) && Apart(v) && DirsOk(v) && IsDir(v, n) && Touched(v, w, n) && DirFile(w, n)
    requires DirOk(v, n) && Parse(DirBytes(w, n), Lim(v), 0) == Parse(DirBytes(v, n), Lim(v), 0)
    ensures Names(w)
  {
    hide Named, Owning, Apart, Parse, Touched, Content;
    TouchedKeeps(v, w, n);
    assert w.geo == v.geo;
    KeptNames(v, w, n);
  }

  /** A directory loses a name. */
  lemma ErasedNames(v: Vol, w: Vol, n: nat, at: nat)
    requires Names(v) && Owning(v) && Apart(v) && DirsOk(v) && IsDir(v, n) && Touched(v, w, n) && DirFile(w, n)
    requires DirOk(v, n) && Removed(DirBytes(v, n), DirBytes(w, n), Lim(v), at)
    ensures Names(w) && Lookup(Parse(DirBytes(w, n), Lim(v), 0), EName(DirBytes(v, n), at)) == Miss
  {
    var d, e, l := DirBytes(v, n), DirBytes(w, n), Lim(v);
    hide Named, Owning, Apart, Parse, Lookup, Links, Touched, Content;
    TouchedKeeps(v, w, n);
    ErasedNamed(d, e, l, at);
    assert w.geo == v.geo;
    KeptNames(v, w, n);
  }

  lemma ErasedNamed(d: seq<byte>, e: seq<byte>, l: Limits, at: nat)
    requires 0 < l.blockSize && Removed(d, e, l, at) && Parse(d, l, 0).ok && Named(Parse(d, l, 0).ents)
    ensures Named(Parse(e, l, 0).ents) && Lookup(Parse(e, l, 0), EName(d, at)) == Miss
  {
    hide Named, Parse, Lookup, Links, Reach;
    var before, after, ok := RemovedParse(d, e, l, at);
    RemovedLookup(d, e, l, at, []);
    ParseOrdered(d, l, 0);
    ParseOrdered(e, l, 0);
    assert Parse(d, l, 0) == Listing(Parse(d, l, 0).ents, true) && Parse(e, l, 0) == Listing(Parse(e, l, 0).ents, true);
    forall x | x != EName(d, at)
      ensures Lookup(Parse(e, l, 0), x) == Lookup(Parse(d, l, 0), x)
    {
      RemovedLookup(d, e, l, at, x);
    }
    RemovedNamed(Parse(d, l, 0).ents, Parse(e, l, 0).ents, EntAt(d, l, at));
  }
}
