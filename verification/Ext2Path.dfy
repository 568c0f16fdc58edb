/** name_i() of ext2/ext2.c: path resolution. */
module Ext2Path {
  import opened Bitmap
  import opened Ext2Vol
  import opened Ext2Dir
  import opened Ext2Core
  import opened Ext2DirOps
  import opened Ext2Unlink

  const SLASH: byte := 47

  /** How many bytes come before the first slash. */
  function NameEnd(s: seq<byte>): (k: nat)
    ensures k <= |s| && (k < |s| ==> s[k] == SLASH) && forall j :: 0 <= j < k ==> s[j] != SLASH
  {
    if s == [] || s[0] == SLASH then 0 else 1 + NameEnd(s[1..])
  }

  /** The non-empty components of a path. */
  function Components(s: seq<byte>): seq<seq<byte>>
    decreases |s|
  {
    if s == [] then []
    else if s[0] == SLASH then Components(s[1..])
    else [s[..NameEnd(s)]] + Components(s[NameEnd(s)..])
  }

  predicate EndsInSlash(s: seq<byte>) { s != [] && s[|s| - 1] == SLASH }

  /** is_dir() */
  predicate Dir(v: Vol, n: nat) {
    v.IsInum(n) && |v.inodes| == v.geo.inodesCount && v.Ino(n).kind == Directory
  }

  /** Look one component up. */
  function Enter(v: Vol, n: nat, name: seq<byte>): Ret {
    if !Dir(v, n) || !DirFile(v, n) || v.geo.blockSize == 0 then Err(ENOTDIR)
    else if |name| > NAME_MAX then Err(ENAMETOOLONG)
    else match Lookup(Parse(DirBytes(v, n), Lim(v), 0), name) {
           case Hit(ino, _) => Ok(ino)
           case Miss => Err(ENOENT)
           case Bad => Err(EIO)
         }
  }

  /** Fold the lookup over the components, in path order; a trailing slash demands a directory. */
  function Fold(v: Vol, n: nat, names: seq<seq<byte>>, slash: bool): Ret
    decreases |names|
  {
    if names == [] then if slash && !Dir(v, n) then Err(ENOTDIR) else Ok(n)
    else
      var r := Enter(v, n, names[0]);
      if r.Err? then r else Fold(v, r.val, names[1..], slash)
  }

  /** What a path resolves to, from the root or from the working directory. */
  function Resolve(v: Vol, cwd: nat, path: seq<byte>): Ret {
    if path == [] then Err(ENOENT)
    else Fold(v, if path[0] == SLASH then ROOT else cwd, Components(path), EndsInSlash(path))
  }

  /** Every directory inode is a directory file within the direct blocks. */
  ghost predicate DirFiles(v: Vol) {
    forall n :: Dir(v, n) ==> DirFile(v, n)
  }

  /** The rest of a resolution. */
  function Rest(v: Vol, n: nat, s: seq<byte>): Ret {
    Fold(v, n, Components(s), EndsInSlash(s))
  }

  lemma RestSlash(v: Vol, n: nat, s: seq<byte>)
    requires s != [] && s[0] == SLASH && v.IsInum(n) && |v.inodes| == v.geo.inodesCount
    ensures !Dir(v, n) ==> Rest(v, n, s) == Err(ENOTDIR)
    ensures Dir(v, n) ==> Rest(v, n, s) == Rest(v, n, s[1..])
  {
    NoNames(s);
    assert s[1..] != [] ==> s[1..][|s| - 2] == s[|s| - 1];
  }

  /** A path without components is empty or all slashes. */
  lemma {:induction false} NoNames(s: seq<byte>)
    ensures Components(s) == [] && s != [] ==> EndsInSlash(s)
    decreases |s|
  {
    if s != [] && s[0] == SLASH {
      NoNames(s[1..]);
    }
  }

  lemma NameStep(s: seq<byte>, k: nat)
    requires s != [] && s[0] != SLASH && k == NameEnd(s)
    ensures 0 < k && Components(s) == [s[..k]] + Components(s[k..]) && EndsInSlash(s) == EndsInSlash(s[k..])
  {
    var t := s[k..];
    if k < |s| {
      hide Components;
      assert t[|t| - 1] == s[|s| - 1];
    } else {
      assert s[|s| - 1] != SLASH && t == [];
    }
  }

  lemma RestName(v: Vol, n: nat, s: seq<byte>, k: nat)
    requires s != [] && s[0] != SLASH && k == NameEnd(s)
    ensures 0 < k
    ensures Rest(v, n, s) == var r := Enter(v, n, s[..k]); if r.Err? then r else Rest(v, r.val, s[k..])
  {
    NameStep(s, k);
    hide Components, EndsInSlash, Enter, NameEnd;
    assert ([s[..k]] + Components(s[k..]))[1..] == Components(s[k..]);
  }

  /** One slash separates what comes before it from what comes after it. */
  lemma NoComponents()
    ensures Components([]) == []
  {
  }

  lemma ComponentsStep(s: seq<byte>)
    requires s != []
    ensures Components(s) == if s[0] == SLASH then Components(s[1..])
                             else [s[..NameEnd(s)]] + Components(s[NameEnd(s)..])
  {
  }

  lemma CutBehind(a: seq<byte>, b: seq<byte>, k: nat)
    requires k <= |a|
    ensures a + [SLASH] + b == a + ([SLASH] + b)
    ensures (a + [SLASH] + b)[..k] == a[..k] && (a + [SLASH] + b)[k..] == a[k..] + [SLASH] + b
  {
  }

  lemma CutFirst(a: seq<byte>, b: seq<byte>)
    ensures if a == [] then (a + [SLASH] + b)[1..] == b else (a + [SLASH] + b)[1..] == a[1..] + [SLASH] + b
  {
  }

  lemma Regroup(a: seq<seq<byte>>, b: seq<seq<byte>>, c: seq<seq<byte>>)
    ensures (a + b) + c == a + (b + c)
  {
  }

  lemma SomeName(s: seq<byte>)
    requires s != [] && s[0] != SLASH
    ensures 0 < NameEnd(s)
  {
  }

  lemma {:induction false} SlashSplits(a: seq<byte>, b: seq<byte>)
    ensures Components(a + [SLASH] + b) == Components(a) + Components(b)
    decreases |a|
  {
    hide Components, NameEnd;
    var s := a + [SLASH] + b;
    ComponentsStep(s);
    CutFirst(a, b);
    if a == [] {
      NoComponents();
    } else if a[0] == SLASH {
      ComponentsStep(a);
      SlashSplits(a[1..], b);
    } else {
      var k := NameEnd(a);
      ComponentsStep(a);
      SomeName(a);
      SlashSplits(a[k..], b);
      NameEndPrefix(a, [SLASH] + b);
      CutBehind(a, b, k);
      Regroup([a[..k]], Components(a[k..]), Components(b));
    }
  }

  lemma {:induction false} NameEndPrefix(a: seq<byte>, t: seq<byte>)
    requires t != [] && t[0] == SLASH
    ensures NameEnd(a + t) == NameEnd(a)
  {
    if a == [] {
      assert a + t == t;
    } else if a[0] != SLASH {
      assert (a + t)[1..] == a[1..] + t;
      NameEndPrefix(a[1..], t);
    }
  }

  /** Repeating a slash never changes what a path resolves to. */
  lemma RepeatedSlash(v: Vol, cwd: nat, a: seq<byte>, b: seq<byte>)
    ensures Resolve(v, cwd, a + [SLASH, SLASH] + b) == Resolve(v, cwd, a + [SLASH] + b)
  {
    var one, two := a + [SLASH] + b, a + [SLASH, SLASH] + b;
    assert two == a + [SLASH] + ([SLASH] + b);
    SlashSplits(a, b);
    SlashSplits(a, [SLASH] + b);
    assert ([SLASH] + b)[1..] == b;
    assert one[0] == two[0] && one[|one| - 1] == two[|two| - 1];
  }

  /** The error of an earlier component wins, whatever comes later. */
  lemma {:induction false} FirstError(v: Vol, n: nat, names: seq<seq<byte>>, more: seq<seq<byte>>, slash: bool)
    requires Fold(v, n, names, false).Err?
    ensures Fold(v, n, names + more, slash) == Fold(v, n, names, false)
    decreases |names|
  {
    var r := Enter(v, n, names[0]);
    assert (names + more)[0] == names[0] && (names + more)[1..] == names[1..] + more;
    if r.Ok? {
      FirstError(v, r.val, names[1..], more, slash);
    }
  }

  /** A name without a slash. */
  predicate Plain(name: seq<byte>) { name != [] && forall j :: 0 <= j < |name| ==> name[j] != 47 }

  /** What a name means in directory `n`. */
  function LookedUp(v: Vol, n: nat, name: seq<byte>): Ret
    requires DirFile(v, n) && 0 < v.geo.blockSize
  {
    if |name| > 255 then Err(ENAMETOOLONG)
    else match Lookup(Parse(DirBytes(v, n), Lim(v), 0), name) {
           case Hit(ino, _) => Ok(ino)
           case Miss => Err(ENOENT)
           case Bad => Err(EIO)
         }
  }

  lemma PlainComponents(name: seq<byte>)
    requires Plain(name)
    ensures NameEnd(name) == |name| && Components(name) == [name] && !EndsInSlash(name)
    ensures Components([47] + name) == [name] && !EndsInSlash([47] + name)
  {
    assert NameEnd(name) == |name|;
    assert name[..|name|] == name && name[|name|..] == [];
    assert ([47] + name)[1..] == name;
    NoComponents();
  }

  lemma FoldOne(v: Vol, n: nat, name: seq<byte>)
    ensures Fold(v, n, [name], false) == Enter(v, n, name)
  {
    hide Enter;
    var r := Enter(v, n, name);
    assert [name][1..] == [];
  }

  /** A name alone is looked up in the working directory, and behind one slash in inode 2. */
  lemma OneName(v: Vol, cwd: nat, name: seq<byte>)
    requires 0 < v.geo.blockSize && DirFiles(v) && Dir(v, 2) && Dir(v, cwd) && Plain(name)
    ensures Resolve(v, cwd, name) == LookedUp(v, cwd, name)
    ensures Resolve(v, cwd, [47] + name) == LookedUp(v, 2, name)
  {
    PlainComponents(name);
    hide Components, EndsInSlash;
    FoldOne(v, cwd, name);
    FoldOne(v, 2, name);
    hide Fold;
  }

  /** A path that starts with a slash means the same from every working directory. */
  lemma Absolute(v: Vol, cwd: nat, other: nat, path: seq<byte>)
    requires path != [] && path[0] == 47
    ensures Resolve(v, cwd, path) == Resolve(v, other, path)
  {
  }

  lemma {:induction false} FoldSplit(v: Vol, n: nat, names: seq<seq<byte>>, more: seq<seq<byte>>, slash: bool)
    ensures Fold(v, n, names + more, slash) ==
            var r := Fold(v, n, names, false); if r.Err? then r else Fold(v, r.val, more, slash)
    decreases |names|
  {
    hide Enter;
    if names == [] {
      assert names + more == more;
    } else {
      assert (names + more)[0] == names[0] && (names + more)[1..] == names[1..] + more;
      var r := Enter(v, n, names[0]);
      if r.Ok? {
        FoldSplit(v, r.val, names[1..], more, slash);
      }
    }
  }

  /** A resolution that ends in a slash fails in addition where it ends at something else than a directory. */
  lemma {:induction false} FoldSlash(v: Vol, n: nat, names: seq<seq<byte>>)
    ensures Fold(v, n, names, true) ==
            var r := Fold(v, n, names, false); if r.Ok? && !Dir(v, r.val) then Err(ENOTDIR) else r
    decreases |names|
  {
    hide Enter;
    if names != [] {
      var r := Enter(v, n, names[0]);
      if r.Ok? {
        FoldSlash(v, r.val, names[1..]);
      }
    }
  }

  /** From where a resolution got to, the path behind the slash; without one, a slash asks for a directory. */
  function Onward(v: Vol, r: Ret, b: seq<byte>): Ret {
    if r.Err? then r
    else if b != [] then Resolve(v, r.val, b)
    else if Dir(v, r.val) then r
    else Err(ENOTDIR)
  }

  /** What comes behind a slash is resolved from what comes before it. */
  lemma Behind(v: Vol, cwd: nat, a: seq<byte>, b: seq<byte>)
    requires a != [] && (b != [] ==> b[0] != 47)
    ensures Resolve(v, cwd, a + [47] + b) == Onward(v, Resolve(v, cwd, a), b)
  {
    hide Components, Fold, Enter;
    var s := a + [47] + b;
    SlashSplits(a, b);
    assert s[0] == a[0];
    assert EndsInSlash(s) == (b == [] || EndsInSlash(b)) by {
      assert s[|s| - 1] == if b == [] then 47 else b[|b| - 1];
    }
    var n := if a[0] == 47 then ROOT else cwd;
    FoldSplit(v, n, Components(a), Components(b), EndsInSlash(s));
    FoldSlash(v, n, Components(a));
    if b == [] {
      FoldNone(v, n, Components(a));
    } else {
      ComponentsStep(b);
      FoldFile(v, n, Components(a), Components(b), EndsInSlash(b));
    }
  }

  /** No path, the root, one name, one name in the root, and cutting a path at a slash that ends a component. */
  lemma PathLaws(v: Vol, cwd: nat, path: seq<byte>)
    requires 0 < v.geo.blockSize && DirFiles(v) && Dir(v, 2) && Dir(v, cwd)
    ensures path == [] ==> Resolve(v, cwd, path) == Err(ENOENT)
    ensures path == [47] ==> Resolve(v, cwd, path) == Ok(2)
    ensures Plain(path) ==> Resolve(v, cwd, path) == LookedUp(v, cwd, path)
    ensures path != [] && path[0] == 47 && Plain(path[1..]) ==> Resolve(v, cwd, path) == LookedUp(v, 2, path[1..])
    ensures forall k: nat :: CutAt(path, k) ==>
                               Resolve(v, cwd, path) == Onward(v, Resolve(v, cwd, path[..k]), path[k + 1..])
  {
    if path == [47] {
      assert Components([47]) == [] by {
        ComponentsStep([47]);
        NoComponents();
      }
    }
    hide Resolve, LookedUp, Onward;
    if Plain(path) {
      OneName(v, cwd, path);
    }
    if path != [] && path[0] == 47 && Plain(path[1..]) {
      OneName(v, cwd, path[1..]);
      assert path == [47] + path[1..];
    }
    forall k: nat | CutAt(path, k)
      ensures Resolve(v, cwd, path) == Onward(v, Resolve(v, cwd, path[..k]), path[k + 1..])
    {
      assert path == path[..k] + [47] + path[k + 1..];
      Behind(v, cwd, path[..k], path[k + 1..]);
    }
  }

  /** A slash behind which a component starts or the path ends. */
  predicate CutAt(path: seq<byte>, k: nat) {
    0 < k < |path| && path[k] == 47 && (k + 1 < |path| ==> path[k + 1] != 47)
  }

  lemma FoldNone(v: Vol, n: nat, names: seq<seq<byte>>)
    ensures Components([]) == []
    ensures var r := Fold(v, n, names, false); r.Ok? ==>
              Fold(v, r.val, [], true) == if Dir(v, r.val) then r else Err(ENOTDIR)
  {
  }

  /** Nothing is found below something else than a directory. */
  lemma FoldFile(v: Vol, n: nat, names: seq<seq<byte>>, more: seq<seq<byte>>, slash: bool)
    requires more != []
    ensures var r := Fold(v, n, names, false);
            r.Ok? && !Dir(v, r.val) ==> Fold(v, r.val, more, slash) == Err(ENOTDIR)
  {
    hide Parse, Lookup;
  }

  /** One component, found or not. */
  lemma EnterIs(v: Vol, n: nat, name: seq<byte>, found: Found)
    requires DirFile(v, n) && 0 < v.geo.blockSize && Dir(v, n) && 0 < |name| <= NAME_MAX
    requires found == Lookup(Parse(DirBytes(v, n), Lim(v), 0), name)
    ensures Enter(v, n, name) ==
            match found { case Hit(ino, _) => Ok(ino) case Miss => Err(ENOENT) case Bad => Err(EIO) }
    ensures found.Hit? ==> v.IsInum(found.ino)
  {
    if found.Hit? {
      HitAt(DirBytes(v, n), Lim(v), 0, name, found.at);
    }
  }

  /** The scan for the end of a component stopped after `k` bytes. */
  lemma StoppedAt(s: seq<byte>, k: nat)
    requires 0 < k <= |s| && forall j :: 0 <= j < k ==> s[j] != SLASH
    ensures k <= NameEnd(s) && (k == |s| || s[k] == SLASH ==> NameEnd(s) == k) &&
            (k < |s| && s[k] != SLASH ==> k < NameEnd(s))
  {
  }

  /** A component that is too long ends the resolution. */
  lemma TooLong(v: Vol, n: nat, s: seq<byte>)
    requires Dir(v, n) && DirFile(v, n) && 0 < v.geo.blockSize && s != [] && s[0] != SLASH && NAME_MAX < NameEnd(s)
    ensures Rest(v, n, s) == Err(ENAMETOOLONG)
  {
    RestName(v, n, s, NameEnd(s));
  }

  /** Skip the slashes at `from`. */
  method SkipSlashes(path: seq<byte>, from: nat, ghost v: Vol, ghost n: nat) returns (p: nat)
    requires from < |path| && path[from] == SLASH && Dir(v, n)
    ensures from < p <= |path| && (p < |path| ==> path[p] != SLASH)
    ensures Rest(v, n, path[p..]) == Rest(v, n, path[from..])
  {
    p := from;
    while p < |path| && path[p] == SLASH
      invariant from <= p <= |path| && Rest(v, n, path[p..]) == Rest(v, n, path[from..])
      invariant p == from ==> path[p] == SLASH
    {
      assert path[p..][1..] == path[p + 1..];
      RestSlash(v, n, path[p..]);
      p := p + 1;
    }
  }

  /** Find the end of the component at `from`, up to the longest name. */
  method ScanName(path: seq<byte>, from: nat) returns (p: nat)
    requires from < |path| && path[from] != SLASH
    ensures from < p <= |path| && p - from <= NAME_MAX
    ensures if p == |path| || path[p] == SLASH then NameEnd(path[from..]) == p - from
            else NAME_MAX < NameEnd(path[from..])
  {
    p := from;
    while p < |path| && path[p] != SLASH && p - from < NAME_MAX
      invariant from <= p <= |path| && p - from <= NAME_MAX
      invariant forall j :: 0 <= j < p - from ==> path[from..][j] != SLASH
    {
      p := p + 1;
    }
    StoppedAt(path[from..], p - from);
  }

  /** Look up the component between `p1` and `p2`. */
  method Descend(fs: Ext2, n: nat, path: seq<byte>, p1: nat, p2: nat) returns (ret: Ret)
    requires Dir(fs.View(), n) && DirFile(fs.View(), n) && p1 < p2 <= |path| && p2 - p1 <= NAME_MAX && path[p1] != SLASH
    requires NameEnd(path[p1..]) == p2 - p1 && 0 < fs.geo.blockSize
    ensures Rest(fs.View(), n, path[p1..]) == if ret.Err? then ret else Rest(fs.View(), ret.val, path[p2..])
    ensures ret.Ok? ==> fs.View().IsInum(ret.val)
  {
    ghost var v := fs.View();
    RestName(v, n, path[p1..], p2 - p1);
    assert path[p1..][..p2 - p1] == path[p1..p2] && path[p1..][p2 - p1..] == path[p2..];
    hide DirFile, Rest, Enter, Parse;
    var found := FindDirEntry(fs, n, path[p1..p2]);
    EnterIs(v, n, path[p1..p2], found);
    match found {
      case Miss => return Err(ENOENT);
      case Bad => return Err(EIO);
      case Hit(ino, _) => return Ok(ino);
    }
  }

  /** name_i() */
  method NameI(fs: Ext2, cwd: nat, path: seq<byte>) returns (ret: Ret)
    requires fs.View().Shape() && DirFiles(fs.View()) && Dir(fs.View(), ROOT) && Dir(fs.View(), cwd)
    ensures ret == Resolve(fs.View(), cwd, path)
    ensures path == [] ==> ret == Err(ENOENT)
    ensures path == [47] ==> ret == Ok(2)
    ensures Plain(path) ==> ret == LookedUp(fs.View(), cwd, path)
    ensures path != [] && path[0] == 47 && Plain(path[1..]) ==> ret == LookedUp(fs.View(), 2, path[1..])
    ensures path != [] && path[0] == 47 ==> forall other: nat :: ret == Resolve(fs.View(), other, path)
    ensures forall k: nat :: CutAt(path, k) ==>
                               ret == Onward(fs.View(), Resolve(fs.View(), cwd, path[..k]), path[k + 1..])
  {
    ghost var v := fs.View();
    hide LookedUp, Onward, DirFile, DirFiles, CutAt, Plain, Dir;
    PathLaws(v, cwd, path);
    if path == [] {
      return Err(ENOENT);
    }
    ret := Walk(fs, cwd, path);
    if path[0] == 47 {
      forall other: nat
        ensures Resolve(v, other, path) == ret
      {
        Absolute(v, cwd, other, path);
      }
    }
  }

  /** The loop of name_i() over the components of a path. */
  method Walk(fs: Ext2, cwd: nat, path: seq<byte>) returns (ret: Ret)
    requires fs.View().Shape() && DirFiles(fs.View()) && Dir(fs.View(), ROOT) && Dir(fs.View(), cwd) && path != []
    ensures ret == Resolve(fs.View(), cwd, path)
  {
    ghost var v := fs.View();
    assert v.geo.Ok() && path[0..] == path;
    var inum: nat := if path[0] == SLASH then ROOT else cwd;
    assert Resolve(v, cwd, path) == Rest(v, inum, path[0..]);
    hide DirFile, Resolve, Rest;
    var p1: nat, p2: nat := 0, 0;
    while p2 < |path|
      invariant p2 <= |path| && Resolve(v, cwd, path) == Rest(v, inum, path[p2..]) && v.IsInum(inum)
      invariant p2 < |path| && path[p2] != SLASH ==> Dir(v, inum) && p1 == p2
    {
      if path[p2] == SLASH {
        RestSlash(v, inum, path[p2..]);
        if fs.inodes[inum - 1].kind != Directory {
          return Err(ENOTDIR);
        }
        p2 := SkipSlashes(path, p2, v, inum);
        p1 := p2;
      }
      if p2 == |path| {
        break;
      }
      p2 := ScanName(path, p1);
      if p2 != |path| && path[p2] != SLASH {
        TooLong(v, inum, path[p1..]);
        return Err(ENAMETOOLONG);
      }
      assert Dir(v, inum);
      var next := Descend(fs, inum, path, p1, p2);
      if next.Err? {
        return next;
      }
      inum := next.val;
    }
    RestEnd(v, inum);
    return Ok(inum);
  }

  lemma RestEnd(v: Vol, n: nat)
    ensures Rest(v, n, []) == Ok(n)
  {
  }
}
