/** The live records of a directory listing, and what they decide: lookups, links and whether a name was added. */
module Ext2Live {
  import opened Bitmap
  import opened Ext2Dir

  function Live(ents: seq<Ent>): seq<Ent> {
    if ents == [] then [] else (if ents[0].ino == 0 then [] else [ents[0]]) + Live(ents[1..])
  }

  lemma LiveStep(ents: seq<Ent>)
    requires ents != []
    ensures if ents[0].ino == 0 then Live(ents) == Live(ents[1..])
            else Live(ents) != [] && Live(ents)[0] == ents[0] && Live(ents)[1..] == Live(ents[1..])
  {
  }

  lemma {:induction false} LiveConcat(a: seq<Ent>, b: seq<Ent>)
    ensures Live(a + b) == Live(a) + Live(b)
  {
    if a == [] {
      assert a + b == b;
    } else {
      assert (a + b)[1..] == a[1..] + b;
      LiveConcat(a[1..], b);
    }
  }

  lemma LiveOne(x: Ent)
    ensures Live([x]) == if x.ino == 0 then [] else [x]
  {
    assert [x][1..] == [];
  }

  lemma {:induction false} LiveLinks(ents: seq<Ent>)
    ensures Links(Live(ents)) == Links(ents) && |Links(ents)| == |Live(ents)|
  {
    if ents != [] {
      LiveStep(ents);
      LiveLinks(ents[1..]);
    }
  }

  lemma {:induction false} LiveLookup(ents: seq<Ent>, name: seq<byte>)
    ensures Lookup(Listing(Live(ents), true), name) == Lookup(Listing(ents, true), name)
  {
    if ents != [] {
      LiveStep(ents);
      LiveLookup(ents[1..], name);
    }
  }

  lemma NoLinks(ents: seq<Ent>, name: seq<byte>)
    requires Links(ents) == multiset{}
    ensures Live(ents) == [] && Lookup(Listing(ents, true), name) == Miss
  {
    LiveLinks(ents);
    LiveLookup(ents, name);
  }

  lemma {:induction false} LiveIn(ents: seq<Ent>, x: Ent)
    ensures x in Live(ents) <==> x in ents && x.ino != 0
  {
    if ents != [] {
      LiveIn(ents[1..], x);
      assert ents == [ents[0]] + ents[1..];
    }
  }

  /** A hit is a live record with the name. */
  lemma {:induction false} HitIn(ents: seq<Ent>, name: seq<byte>, ino: nat, at: nat)
    requires Lookup(Listing(ents, true), name) == Hit(ino, at)
    ensures Ent(at, ino, name) in ents && ino != 0
  {
    if !(ents[0].ino != 0 && ents[0].name == name) {
      HitIn(ents[1..], name, ino, at);
    }
  }

  /** Offsets rise. */
  predicate Ordered(ents: seq<Ent>) {
    forall i, j :: 0 <= i < j < |ents| ==> ents[i].at < ents[j].at
  }

  lemma {:induction false} LiveOrdered(ents: seq<Ent>)
    requires Ordered(ents)
    ensures Ordered(Live(ents))
  {
    if ents != [] {
      LiveOrdered(ents[1..]);
      forall x | x in Live(ents[1..]) ensures ents[0].at < x.at {
        LiveIn(ents[1..], x);
        var j :| 0 <= j < |ents[1..]| && ents[1..][j] == x;
        assert ents[j + 1] == x;
      }
    }
  }

  lemma {:induction false} ParseOrdered(d: seq<byte>, l: Limits, o: nat)
    requires 0 < l.blockSize
    ensures Ordered(Parse(d, l, o).ents) && forall x :: x in Parse(d, l, o).ents ==> o <= x.at < |d|
    decreases |d| - o
  {
    if o < |d| && ValidAt(d, l, o) {
      ParseOrdered(d, l, o + ERec(d, o));
    }
  }

  /** What lies before a record of both sequences lies in the beginning of both. */
  lemma InsideBefore(a: seq<Ent>, b: seq<Ent>, n: nat, j: nat, x: Ent)
    requires Ordered(a) && Ordered(b) && n < |a| && j < |b| && b[j] == a[n] && x in a[..n] && x in b
    ensures x in b[..j]
  {
    var i :| 0 <= i < n && a[i] == x;
    var k :| 0 <= k < |b| && b[k] == x;
    assert b[..j][k] == x;
  }

  /** Rising sequences, one inside the other: if they are equally long they are equal. */
  lemma {:induction false} OrderedInside(a: seq<Ent>, b: seq<Ent>)
    requires Ordered(a) && Ordered(b) && forall x :: x in a ==> x in b
    ensures |a| <= |b| && (|a| == |b| ==> a == b)
  {
    if a != [] {
      var n := |a| - 1;
      assert a[n] in a;
      var j :| 0 <= j < |b| && b[j] == a[n];
      forall x | x in a[..n] ensures x in b[..j] {
        InsideBefore(a, b, n, j, x);
      }
      OrderedInside(a[..n], b[..j]);
      assert a == a[..n] + [a[n]];
    }
  }

  /** Every live record is the one that its name finds: no name occurs twice. */
  predicate Named(ents: seq<Ent>) {
    forall x :: x in ents && x.ino != 0 ==> Lookup(Listing(ents, true), x.name) == Hit(x.ino, x.at)
  }

  /** The records `b` and a new one behind them mean what `a` did, with one more name. */
  ghost predicate Gains(a: seq<Ent>, b: seq<Ent>, y: Ent) {
    && Links(b + [y]) == Links(a) + multiset{y.ino}
    && forall x :: Lookup(Listing(b + [y], true), x) ==
                   if x == y.name then Hit(y.ino, y.at) else Lookup(Listing(a, true), x)
  }

  lemma GainsLinks(a: seq<Ent>, b: seq<Ent>, y: Ent)
    requires y.ino != 0 && Gains(a, b, y)
    ensures Links(b) == Links(a)
  {
    ConcatFacts(b, [y], []);
    forall i: nat ensures Links(b)[i] == Links(a)[i] {
      assert (Links(b) + multiset{y.ino})[i] == (Links(a) + multiset{y.ino})[i];
    }
  }

  lemma LiveGains(a: seq<Ent>, b: seq<Ent>, y: Ent)
    requires y.ino != 0 && Lookup(Listing(a, true), y.name) == Miss && Live(b) == Live(a)
    ensures Gains(a, b, y)
  {
    hide Lookup, Links, Live;
    LiveLinks(a);
    LiveLinks(b);
    ConcatFacts(b, [y], []);
    forall x
      ensures Lookup(Listing(b + [y], true), x) == if x == y.name then Hit(y.ino, y.at) else Lookup(Listing(a, true), x)
    {
      ConcatFacts(b, [y], x);
      LiveLookup(a, x);
      LiveLookup(b, x);
    }
  }

  lemma GainsKeeps(a: seq<Ent>, b: seq<Ent>, y: Ent, x: Ent)
    requires Gains(a, b, y) && Named(a) && Lookup(Listing(a, true), y.name) == Miss && x in Live(a) && x.at < y.at
    ensures x in Live(b)
  {
    LiveIn(a, x);
    HitIn(b + [y], x.name, x.ino, x.at);
    LiveIn(b, x);
  }

  /** A directory without duplicate names gains exactly one name if and only if its live records stay as they are. */
  lemma GainsExactly(a: seq<Ent>, b: seq<Ent>, y: Ent)
    requires Ordered(a) && Ordered(b) && Named(a) && y.ino != 0 && Lookup(Listing(a, true), y.name) == Miss
    requires forall x :: x in a ==> x.at < y.at
    ensures Gains(a, b, y) <==> Live(b) == Live(a)
  {
    hide Lookup, Links, Live, Named;
    if Live(b) == Live(a) {
      LiveGains(a, b, y);
    } else if Gains(a, b, y) {
      forall x | x in Live(a) ensures x in Live(b) {
        LiveIn(a, x);
        GainsKeeps(a, b, y, x);
      }
      GainsLinks(a, b, y);
      LiveLinks(a);
      LiveLinks(b);
      LiveOrdered(a);
      LiveOrdered(b);
      OrderedInside(Live(a), Live(b));
    }
  }

  /** The records `b` mean what `a` did. */
  ghost predicate Means(a: seq<Ent>, b: seq<Ent>) {
    Links(b) == Links(a) && forall x :: Lookup(Listing(b, true), x) == Lookup(Listing(a, true), x)
  }

  /** A directory without duplicate names keeps its meaning if and only if its live records stay as they are. */
  lemma MeansExactly(a: seq<Ent>, b: seq<Ent>)
    requires Ordered(a) && Ordered(b) && Named(a)
    ensures Means(a, b) <==> Live(b) == Live(a)
  {
    hide Lookup, Links, Live;
    LiveLinks(a);
    LiveLinks(b);
    if Live(b) == Live(a) {
      forall x ensures Lookup(Listing(b, true), x) == Lookup(Listing(a, true), x) {
        LiveLookup(a, x);
        LiveLookup(b, x);
      }
    } else if Means(a, b) {
      forall x | x in Live(a) ensures x in Live(b) {
        LiveIn(a, x);
        HitIn(b, x.name, x.ino, x.at);
        LiveIn(b, x);
      }
      LiveOrdered(a);
      LiveOrdered(b);
      OrderedInside(Live(a), Live(b));
    }
  }

  /** Then no name occurs twice afterwards either. */
  lemma StaysNamed(a: seq<Ent>, b: seq<Ent>, y: Ent)
    requires Named(a) && y.ino != 0 && Lookup(Listing(a, true), y.name) == Miss && Live(b) == Live(a)
    ensures Named(b + [y])
  {
    hide Lookup, Links, Live;
    LiveGains(a, b, y);
    forall x | x in b + [y] && x.ino != 0
      ensures Lookup(Listing(b + [y], true), x.name) == Hit(x.ino, x.at)
    {
      LiveIn(b, x);
      LiveIn(a, x);
    }
  }

  lemma {:induction false} OrderedCount(ents: seq<Ent>)
    requires Ordered(ents)
    ensures |set x | x in ents| == |ents|
  {
    if ents != [] {
      var n := |ents| - 1;
      OrderedCount(ents[..n]);
      assert (set x | x in ents) == (set x | x in ents[..n]) + {ents[n]};
      assert ents[n] !in ents[..n];
    }
  }

  lemma {:induction false} SubsetAll(a: set<Ent>, b: set<Ent>)
    requires a <= b && |a| == |b|
    ensures a == b
  {
    if a != {} {
      var x :| x in a;
      SubsetAll(a - {x}, b - {x});
    }
  }

  /** As many records as there are links, each found by its name: then no name occurs twice. */
  lemma NamedBy(ents: seq<Ent>, found: set<Ent>)
    requires Ordered(ents) && |found| == |Links(ents)|
    requires forall x :: x in found ==> x.ino != 0 && Lookup(Listing(ents, true), x.name) == Hit(x.ino, x.at)
    ensures Named(ents) && forall x :: x in ents && x.ino != 0 ==> x in found
  {
    hide Lookup, Links, Live;
    var live := set x | x in Live(ents);
    LiveLinks(ents);
    LiveOrdered(ents);
    OrderedCount(Live(ents));
    forall x | x in found ensures x in live {
      HitIn(ents, x.name, x.ino, x.at);
      LiveIn(ents, x);
    }
    SubsetAll(found, live);
    forall x | x in ents && x.ino != 0 ensures x in found {
      LiveIn(ents, x);
    }
  }

  lemma LiveSet(ents: seq<Ent>) returns (live: set<Ent>)
    requires Ordered(ents)
    ensures |live| == |Links(ents)| && forall x :: x in live <==> x in ents && x.ino != 0
  {
    hide Links, Live;
    live := set x | x in Live(ents);
    LiveLinks(ents);
    LiveOrdered(ents);
    OrderedCount(Live(ents));
    forall x ensures x in live <==> x in ents && x.ino != 0 {
      LiveIn(ents, x);
    }
  }

  /** One more name that was missing. */
  lemma AddedNamed(a: seq<Ent>, b: seq<Ent>, y: Ent)
    requires Ordered(a) && Ordered(b) && Named(a) && y.ino != 0 && Lookup(Listing(a, true), y.name) == Miss
    requires Links(b) == Links(a) + multiset{y.ino}
    requires forall x :: Lookup(Listing(b, true), x) == if x == y.name then Hit(y.ino, y.at)
                                                        else Lookup(Listing(a, true), x)
    ensures Named(b)
  {
    hide Lookup, Links;
    var live := LiveSet(a);
    assert y !in live;
    NamedBy(b, live + {y});
  }

  /** One name less: it is not found any more. */
  lemma RemovedNamed(a: seq<Ent>, b: seq<Ent>, y: Ent)
    requires Ordered(a) && Ordered(b) && Named(a) && y in a && y.ino != 0
    requires Links(a) == Links(b) + multiset{y.ino}
    requires forall x :: x != y.name ==> Lookup(Listing(b, true), x) == Lookup(Listing(a, true), x)
    ensures Named(b) && Lookup(Listing(b, true), y.name) == Miss
  {
    hide Lookup, Links;
    var live := LiveSet(a);
    forall x | x in live - {y}
      ensures x.name != y.name
    {
    }
    NamedBy(b, live - {y});
    OkNotBad(Listing(b, true), y.name);
    if Lookup(Listing(b, true), y.name).Hit? {
      var found := Lookup(Listing(b, true), y.name);
      HitIn(b, y.name, found.ino, found.at);
    }
  }
}
