/** map_pml4_range() .. map_pml1_range() of mm/vm_map.c: they fill the tables so that the walk maps a range linearly. */
module VmMap {
  import opened Options
  import opened Paging
  import opened PagingRange

  /** What mapping [from, to) below table `base` does to the walks, and to nothing else. */
  ghost predicate Effect(m: Tables, pos: map<nat, Pos>, m': Tables, pos': map<nat, Pos>, base: nat, from: nat, to: nat,
                         done: nat, p: nat) {
    && base in m && base in pos && PosOk(pos[base]) && 0 < to
    && Kept(m, pos, m', pos', pos[base])
    && (Proper(pos[base], from, to) && Good(pos[base].level, from, to) ==>
          Linear(m, m', base, pos[base], from, done, p))
    && (Faulty(pos[base], from, to) ==> Walk(m', base, pos[base].level, from) == Walk(m, base, pos[base].level, from))
  }

  lemma EffectStart(m: Tables, pos: map<nat, Pos>, base: nat, from: nat, to: nat, p: nat)
    requires Tree(m, pos) && base in m && 0 < to
    ensures Effect(m, pos, m, pos, base, from, to, from, p)
  {
  }

  /** Tables may be added below `base`, but no walk changes. */
  ghost predicate SameWalks(m: Tables, pos: map<nat, Pos>, m': Tables, pos': map<nat, Pos>, base: nat) {
    && base in m && base in pos && PosOk(pos[base]) && Kept(m, pos, m', pos', pos[base])
    && forall v :: Walk(m', base, pos[base].level, v) == Walk(m, base, pos[base].level, v)
  }

  lemma EffectSame(m: Tables, pos: map<nat, Pos>, m1: Tables, pos1: map<nat, Pos>, m2: Tables, pos2: map<nat, Pos>,
                   base: nat, from: nat, to: nat, done: nat, p: nat)
    requires Effect(m, pos, m1, pos1, base, from, to, done, p) && SameWalks(m1, pos1, m2, pos2, base)
    ensures Effect(m, pos, m2, pos2, base, from, to, done, p)
  {
    assert pos1[base] == pos[base];
    KeptTrans(m, pos, m1, pos1, m2, pos2, pos[base]);
    hide Kept;
    if Proper(pos[base], from, to) && Good(pos[base].level, from, to) {
      forall v | Inside(v, pos[base])
        ensures Walk(m2, base, pos[base].level, v) == MapsTo(m, base, pos[base], from, done, p, v)
      {
        assert Walk(m1, base, pos[base].level, v) == MapsTo(m, base, pos[base], from, done, p, v);
      }
    }
  }

  /** One entry of a good range. */
  lemma GoodStep(m: Tables, m1: Tables, pos1: map<nat, Pos>, m2: Tables, pos2: map<nat, Pos>, base: nat, child: nat,
                 from: nat, to: nat, p: nat, i0: nat, i1: nat, i: nat, cur: nat, end: nat, p': nat)
    requires Leads(m1, pos1, base, i, child) && PosOk(pos1[base]) && Proper(pos1[base], from, to) &&
             Good(pos1[base].level, from, to)
    requires i0 == Index(from, pos1[base].level) && i1 == Index(to - 1, pos1[base].level) && i0 <= i <= i1 < ENTRIES
    requires cur == PartStart(from, i, i0, pos1[base].level) && end == PartEnd(cur, to, i, i1, pos1[base].level)
    requires Linear(m, m1, base, pos1[base], from, Done(cur, to), p) && p' == p + (cur - from) && from <= cur
    requires 0 < end && Effect(m1, pos1, m2, pos2, child, cur, end, end, p')
    ensures Linear(m, m2, base, pos1[base], from, Done(cur + Span(pos1[base].level - 1), to), p)
  {
    GoodPart(pos1[base], from, to, i0, i1, i, cur, end);
    hide Index, Span, Good, Linear, Kept, Tree;
    EntryLinear(m1, pos1, m2, pos2, base, i, child, cur, end, p');
    LinearTrans(m, m1, m2, base, pos1[base], from, cur, end, p, p');
  }

  /** One entry of a faulty range: the walk of its first page stays. */
  lemma FaultyStep(m1: Tables, pos1: map<nat, Pos>, m2: Tables, pos2: map<nat, Pos>, base: nat, child: nat,
                   from: nat, to: nat, i0: nat, i1: nat, i: nat, cur: nat, end: nat, p': nat)
    requires Leads(m1, pos1, base, i, child) && PosOk(pos1[base]) && 0 < to && Faulty(pos1[base], from, to)
    requires i0 == Index(from, pos1[base].level) && i1 == Index(to - 1, pos1[base].level) && i0 <= i <= i1 < ENTRIES
    requires cur == PartStart(from, i, i0, pos1[base].level) && end == PartEnd(cur, to, i, i1, pos1[base].level)
    requires 0 < end <= cur + Span(pos1[base].level - 1) && Effect(m1, pos1, m2, pos2, child, cur, end, end, p')
    ensures Walk(m2, base, pos1[base].level, from) == Walk(m1, base, pos1[base].level, from)
  {
    EntryWalk(m1, pos1, m2, pos2, base, i, child, from);
    if i == i0 {
      FirstPart(from, i0, pos1[base].level);
      FaultyPart(pos1[base], from, to, i0, i1, end);
    }
  }

  lemma FirstPart(from: nat, i: nat, l: nat)
    requires 1 <= l <= 4
    ensures PartStart(from, i, i, l) == from
  {
    hide Span;
    assert (i - i) * Span(l - 1) == 0;
  }

  /** One turn of a mapping loop. */
  lemma EffectStep(m: Tables, pos: map<nat, Pos>, m1: Tables, pos1: map<nat, Pos>, m2: Tables, pos2: map<nat, Pos>,
                   base: nat, child: nat, from: nat, to: nat, p: nat, i0: nat, i1: nat, i: nat, cur: nat, end: nat,
                   p': nat)
    requires base in pos && pos[base].level <= 4 && 2 <= pos[base].level
    requires i0 == Index(from, pos[base].level) && 0 < to && i1 == Index(to - 1, pos[base].level) &&
             i0 <= i <= i1 < ENTRIES
    requires cur == PartStart(from, i, i0, pos[base].level) && end == PartEnd(cur, to, i, i1, pos[base].level)
    requires p' == p + (cur - from) && from <= cur && 0 < end <= cur + Span(pos[base].level - 1)
    requires Effect(m, pos, m1, pos1, base, from, to, Done(cur, to), p)
    requires Leads(m1, pos1, base, i, child) && Effect(m1, pos1, m2, pos2, child, cur, end, end, p')
    ensures Effect(m, pos, m2, pos2, base, from, to, Done(cur + Span(pos[base].level - 1), to), p)
  {
    assert pos1[base] == pos[base];
    KeptChild(m1, pos1, m2, pos2, pos[base], i);
    KeptTrans(m, pos, m1, pos1, m2, pos2, pos[base]);
    hide Kept, Index, Span, Good, Linear, Walk, Tree;
    if Proper(pos[base], from, to) && Good(pos[base].level, from, to) {
      GoodStep(m, m1, pos1, m2, pos2, base, child, from, to, p, i0, i1, i, cur, end, p');
    }
    if Faulty(pos[base], from, to) {
      FaultyStep(m1, pos1, m2, pos2, base, child, from, to, i0, i1, i, cur, end, p');
    }
  }

  /** Once the last entry is done, the whole range is mapped. */
  lemma EffectEnd(m: Tables, pos: map<nat, Pos>, m': Tables, pos': map<nat, Pos>, base: nat, from: nat, to: nat, p: nat,
                  i0: nat, i1: nat, i: nat, cur: nat)
    requires base in pos && 2 <= pos[base].level <= 4
    requires i0 == Index(from, pos[base].level) && 0 < to && i1 == Index(to - 1, pos[base].level)
    requires i0 <= i && i1 < i && (i == i0 || i == i1 + 1) && cur == PartStart(from, i, i0, pos[base].level)
    requires Effect(m, pos, m', pos', base, from, to, Done(cur, to), p)
    ensures Effect(m, pos, m', pos', base, from, to, to, p)
  {
    var q := pos[base];
    if Proper(q, from, to) && Good(q.level, from, to) {
      Entries(q, from, to, i0, i1);
      var last := PartStart(from, i1, i0, q.level);
      GoodPart(q, from, to, i0, i1, i1, last, to);
      NextPart(from, i1, i0, q.level);
    }
  }

  lemma NextPart(from: nat, i: nat, i0: nat, l: nat)
    requires 1 <= l <= 4 && i0 <= i
    ensures PartStart(from, i + 1, i0, l) == PartStart(from, i, i0, l) + Span(l - 1)
  {
    hide Span;
    assert (i + 1 - i0) * Span(l - 1) == (i - i0) * Span(l - 1) + Span(l - 1);
  }

  /** Entries i0 .. i - 1 of a page table filled with consecutive frames. */
  function FillTo(t: Table, i0: nat, i: nat, p: nat): Table {
    seq(|t|, j requires 0 <= j < |t| => if i0 <= j < i then Present(p + (j - i0)) else t[j])
  }

  /** Filling a page table is mapping the range, or changing nothing if the range is shifted. */
  lemma LeafEffect(m: Tables, pos: map<nat, Pos>, base: nat, from: nat, to: nat, p: nat, i0: nat, i1: nat, m': Tables)
    requires Tree(m, pos) && base in m && base in pos && pos[base].level == 1 && 0 < to
    requires i0 == Index(from, 1) && i1 == Index(to - 1, 1)
    requires m' == m[base := FillTo(m[base], i0, i1 + 1, p)]
    ensures Tree(m', pos) && Effect(m, pos, m', pos, base, from, to, to, p)
  {
    LeafTree(m, pos, base, i0, i1 + 1, p, m');
    var q := pos[base];
    if Proper(q, from, to) {
      LeafLinear(m, q, base, from, to, p, i0, i1, m');
    } else if Faulty(q, from, to) {
      ShiftedLeaf(from, to);
      LeafSame(m[base], i0, i1 + 1, p);
      assert m' == m;
    }
  }

  lemma LeafSame(t: Table, i0: nat, i: nat, p: nat)
    requires i <= i0
    ensures FillTo(t, i0, i, p) == t
  {
  }

  lemma LeafTree(m: Tables, pos: map<nat, Pos>, base: nat, i0: nat, i: nat, p: nat, m': Tables)
    requires Tree(m, pos) && base in m && base in pos && pos[base].level == 1
    requires m' == m[base := FillTo(m[base], i0, i, p)]
    ensures Tree(m', pos) && PosOk(pos[base]) && |m[base]| == ENTRIES && Kept(m, pos, m', pos, pos[base])
  {
  }

  lemma LeafLinear(m: Tables, q: Pos, base: nat, from: nat, to: nat, p: nat, i0: nat, i1: nat, m': Tables)
    requires PosOk(q) && q.level == 1 && Proper(q, from, to) && base in m && |m[base]| == ENTRIES
    requires i0 == Index(from, 1) && i1 == Index(to - 1, 1) && m' == m[base := FillTo(m[base], i0, i1 + 1, p)]
    ensures Linear(m, m', base, q, from, to, p)
  {
    Entries(q, from, to, i0, i1);
    forall v | Inside(v, q)
      ensures Walk(m', base, 1, v) == MapsTo(m, base, q, from, to, p, v)
    {
      IndexInside(v, q, Index(v, 1));
    }
  }

  lemma ShiftedLeaf(from: nat, to: nat)
    requires Shifted(1, from, to)
    ensures Index(to - 1, 1) < Index(from, 1)
  {
  }

  ghost predicate Fresh(m: Tables, pool: seq<nat>) {
    (forall p :: p in pool ==> p !in m) && forall i, j :: 0 <= i < j < |pool| ==> pool[i] != pool[j]
  }

  /** A set of page tables, and the free pages of the zone that new tables are taken from. */
  class PageTables {
    var tables: Tables
    var pool: seq<nat>
    ghost var pos: map<nat, Pos>

    ghost predicate Valid()
      reads this
    {
      Tree(tables, pos) && Fresh(tables, pool)
    }

    /** A root table alone. */
    constructor (root: nat, pool: seq<nat>)
      requires Fresh(map[root := EmptyTable()], pool)
      ensures Valid() && root in tables && pos[root] == Pos(4, 0) && this.pool == pool
      ensures forall v :: Walk(tables, root, 4, v) == None
    {
      tables, this.pool := map[root := EmptyTable()], pool;
      pos := map[root := Pos(4, 0)];
    }

    /** The table below entry `i`; an absent one is taken from the zone, or the kernel panics. */
    method NextTable(base: nat, i: nat, l: nat) returns (ok: bool, child: nat)
      requires Valid() && base in tables && base in pos && pos[base].level == l && 2 <= l <= 4 && i < ENTRIES
      modifies this
      ensures Valid() &&
              (ok ==> Leads(tables, pos, base, i, child) && SameWalks(old(tables), old(pos), tables, pos, base))
      ensures if ok then |old(pool)| <= |pool| + 1 else old(pool) == pool == []
    {
      var e := tables[base][i];
      if e.Present? {
        return true, e.pfn;
      }
      if pool == [] {
        return false, 0;
      }
      child := pool[0];
      HangAll(tables, pos, base, i, child, pool);
      Hang(WithTable(tables, base, i, child), pos[child := Pos(l - 1, Child(pos[base].start, l, i))], pool[1..]);
      ok := true;
    }

    method Hang(tables': Tables, ghost pos': map<nat, Pos>, pool': seq<nat>)
      modifies this
      ensures tables == tables' && pos == pos' && pool == pool'
    {
      tables, pool, pos := tables', pool', pos';
    }

    /** map_pml1_range() */
    method FillLeaf(base: nat, from: nat, to: nat, p: nat)
      requires Valid() && base in tables && base in pos && pos[base].level == 1 && 0 < to
      modifies this`tables
      ensures Valid() && Effect(old(tables), pos, tables, pos, base, from, to, to, p)
    {
      ghost var m := tables;
      var i0, i1 := Index(from, 1), Index(to - 1, 1);
      var i, frame := i0, p;
      assert FillTo(m[base], i0, i0, p) == m[base];
      while i <= i1
        invariant i0 <= i && (i <= i1 + 1 || i == i0) && frame == p + (i - i0)
        invariant tables == m[base := FillTo(m[base], i0, i, p)]
        decreases i1 + 1 - i
      {
        assert FillTo(m[base], i0, i, p)[i := Present(frame)] == FillTo(m[base], i0, i + 1, p);
        tables := tables[base := tables[base][i := Present(frame)]];
        i, frame := i + 1, frame + 1;
      }
      assert FillTo(m[base], i0, i, p) == FillTo(m[base], i0, i1 + 1, p);
      LeafEffect(m, pos, base, from, to, p, i0, i1, tables);
    }

    /** map_pml4_range(), map_pml3_range() and map_pml2_range(); a table of level 1 is filled. Returns false where the
        source panics: the range is longer than the table maps, or no page is left for a table. */
    method MapRange(l: nat, base: nat, from: nat, to: nat, p: nat) returns (ok: bool)
      requires Valid() && base in tables && base in pos && pos[base].level == l && 1 <= l <= 4 && 0 < to
      modifies this
      ensures Valid()
      ensures ok ==> from <= to <= from + Span(l) && Effect(old(tables), old(pos), tables, pos, base, from, to, to, p)
      ensures if ok then |old(pool)| <= |pool| + TablesFor(l, from, to)
              else Returns(l, from, to) ==> |old(pool)| < TablesFor(l, from, to) && pool == []
      ensures !ok && Proper(old(pos)[base], from, to) && Good(l, from, to) ==> pool == []
      decreases l, 3
    {
      if to < from || to - from > Span(l) {
        return false;
      }
      if l == 1 {
        FillLeaf(base, from, to, p);
        return true;
      }
      if Proper(pos[base], from, to) && Good(l, from, to) {
        GoodReturns(pos[base], from, to);
      }
      ok := MapEntries(l, base, from, to, p);
    }

    /** One entry: find or make the table below it, and map the part of the range in it. */
    method MapEntry(l: nat, base: nat, i: nat, cur: nat, end: nat, p: nat)
      returns (ok: bool, ghost child: nat, ghost m1: Tables, ghost pos1: map<nat, Pos>)
      requires Valid() && base in tables && base in pos && pos[base].level == l && 2 <= l <= 4 && i < ENTRIES && 0 < end
      modifies this
      ensures Valid()
      ensures ok ==> SameWalks(old(tables), old(pos), m1, pos1, base) && Leads(m1, pos1, base, i, child)
      ensures ok ==> cur <= end <= cur + Span(l - 1) && Effect(m1, pos1, tables, pos, child, cur, end, end, p)
      ensures if ok then |old(pool)| <= |pool| + 1 + TablesFor(l - 1, cur, end)
              else Returns(l - 1, cur, end) ==> |old(pool)| < 1 + TablesFor(l - 1, cur, end) && pool == []
      decreases l, 0
    {
      hide Index, Span, Good, Linear, Walk, Kept, Tree, TablesFor, Returns;
      var next;
      ok, next := NextTable(base, i, l);
      child, m1, pos1 := next, tables, pos;
      if ok {
        SameBase(old(tables), old(pos), tables, pos, base);
        ok := MapRange(l - 1, next, cur, end, p);
      }
    }

    /** One turn of the loop over the entries of a table. */
    method MapTurn(l: nat, base: nat, from: nat, to: nat, ghost p: nat, ghost i0: nat, i1: nat, i: nat, cur: nat,
                   frame: nat, ghost m: Tables, ghost pos0: map<nat, Pos>) returns (ok: bool)
      requires Valid() && base in tables && base in pos && base in pos0 && pos[base] == pos0[base] &&
               pos[base].level == l && 2 <= l <= 4
      requires PosOk(pos[base]) && 0 < to && i0 == Index(from, l) && i1 == Index(to - 1, l) && i0 <= i <= i1
      requires cur == PartStart(from, i, i0, l) && from <= cur && frame == p + (cur - from)
      requires Effect(m, pos0, tables, pos, base, from, to, Done(cur, to), p)
      modifies this
      ensures Valid()
      ensures ok ==> base in tables && base in pos && pos[base] == pos0[base]
      ensures ok ==> Effect(m, pos0, tables, pos, base, from, to, Done(cur + Span(l - 1), to), p)
      ensures var end := PartEnd(cur, to, i, i1, l);
              if ok then |old(pool)| <= |pool| + 1 + TablesFor(l - 1, cur, end)
              else Returns(l - 1, cur, end) ==> |old(pool)| < 1 + TablesFor(l - 1, cur, end) && pool == []
      decreases l, 1
    {
      hide Index, Span, Good, Linear, Walk, Tree, Kept, PartStart, Effect, Done, TablesFor, Returns, Fresh, Leads,
        SameWalks, PosOk, Proper;
      ghost var ma, posa := tables, pos;
      SomeSpan(l - 1);
      var end := if i == i1 then to else cur + Span(l - 1);
      ghost var child, m1, pos1;
      ok, child, m1, pos1 := MapEntry(l, base, i, cur, end, frame);
      if ok {
        EffectTurn(m, pos0, ma, posa, m1, pos1, tables, pos, base, child, from, to, p, i0, i1, i, cur, end, frame);
      }
    }

    /** The loop over the entries of a table. */
    method MapEntries(l: nat, base: nat, from: nat, to: nat, p: nat) returns (ok: bool)
      requires Valid() && base in tables && base in pos && pos[base].level == l && 2 <= l <= 4 && 0 < to
      modifies this
      ensures Valid()
      ensures ok ==> Effect(old(tables), old(pos), tables, pos, base, from, to, to, p)
      ensures if ok then |old(pool)| <= |pool| + TablesFor(l, from, to)
              else Returns(l, from, to) ==> |old(pool)| < TablesFor(l, from, to) && pool == []
      decreases l, 2
    {
      hide Index, Span, Good, Linear, Walk, Tree, Kept, PartStart, PartEnd, Effect, Done, PosOk, Proper, Returns,
        TablesFor, TablesBelow, Fresh;
      ghost var m, pos0 := tables, pos;
      BaseOk(m, pos0, base);
      var i0, i1 := Index(from, l), Index(to - 1, l);
      var i, cur, frame: nat := i0, from, p;
      EffectStart(m, pos0, base, from, to, p);
      FirstPart(from, i0, l);
      DoneNothing(m, pos0, base, from, to, p);
      NoTables(l, from, to);
      while i <= i1
        invariant Valid() && base in tables && base in pos && pos[base] == pos0[base]
        invariant i0 <= i && (i == i0 || i <= i1 + 1) && cur == PartStart(from, i, i0, l) && from <= cur &&
                  frame == p + (cur - from)
        invariant Effect(m, pos0, tables, pos, base, from, to, Done(cur, to), p)
        invariant |old(pool)| <= |pool| + TablesBelow(l, from, to, i - i0)
        decreases ENTRIES - i
      {
        ok := MapTurn(l, base, from, to, p, i0, i1, i, cur, frame, m, pos0);
        TurnTables(l, from, to, i0, i1, i, cur, PartEnd(cur, to, i, i1, l));
        if !ok {
          return;
        }
        NextPart(from, i, i0, l);
        i, cur, frame := i + 1, cur + Span(l - 1), frame + Span(l - 1);
      }
      AllTables(l, from, to, i);
      EffectEnd(m, pos0, tables, pos, base, from, to, p, i0, i1, i, cur);
      return true;
    }
  }

  lemma SomeSpan(l: nat)
    requires l <= 4
    ensures 0 < Span(l)
  {
  }

  lemma NoTables(l: nat, from: nat, to: nat)
    requires 2 <= l <= 4 && 0 < to
    ensures TablesBelow(l, from, to, 0) == 0
  {
  }

  lemma BaseOk(m: Tables, pos: map<nat, Pos>, base: nat)
    requires Tree(m, pos) && base in m && base in pos
    ensures PosOk(pos[base])
  {
  }

  lemma SameBase(m: Tables, pos: map<nat, Pos>, m': Tables, pos': map<nat, Pos>, base: nat)
    requires SameWalks(m, pos, m', pos', base)
    ensures base in m' && base in pos' && pos'[base] == pos[base]
  {
  }

  /** Nothing has been mapped before the first turn. */
  lemma DoneNothing(m: Tables, pos: map<nat, Pos>, base: nat, from: nat, to: nat, p: nat)
    requires Effect(m, pos, m, pos, base, from, to, from, p)
    ensures Effect(m, pos, m, pos, base, from, to, Done(from, to), p)
  {
  }

  /** One turn of the loop: the table below the entry, then its part of the range. */
  lemma EffectTurn(m: Tables, pos: map<nat, Pos>, ma: Tables, posa: map<nat, Pos>, m1: Tables, pos1: map<nat, Pos>,
                   m2: Tables, pos2: map<nat, Pos>, base: nat, child: nat, from: nat, to: nat, p: nat,
                   i0: nat, i1: nat, i: nat, cur: nat, end: nat, p': nat)
    requires base in pos && 2 <= pos[base].level <= 4
    requires i0 == Index(from, pos[base].level) && 0 < to && i1 == Index(to - 1, pos[base].level) &&
             i0 <= i <= i1 < ENTRIES
    requires cur == PartStart(from, i, i0, pos[base].level) && end == PartEnd(cur, to, i, i1, pos[base].level)
    requires p' == p + (cur - from) && from <= cur && 0 < end <= cur + Span(pos[base].level - 1)
    requires Effect(m, pos, ma, posa, base, from, to, Done(cur, to), p) && SameWalks(ma, posa, m1, pos1, base)
    requires Leads(m1, pos1, base, i, child) && Effect(m1, pos1, m2, pos2, child, cur, end, end, p')
    ensures Effect(m, pos, m2, pos2, base, from, to, Done(cur + Span(pos[base].level - 1), to), p)
    ensures base in m2 && base in pos2 && pos2[base] == pos[base]
  {
    EffectSame(m, pos, ma, posa, m1, pos1, base, from, to, Done(cur, to), p);
    EffectStep(m, pos, m1, pos1, m2, pos2, base, child, from, to, p, i0, i1, i, cur, end, p');
  }

  /** Hanging up a fresh table keeps everything in order. */
  lemma HangAll(m: Tables, pos: map<nat, Pos>, base: nat, i: nat, page: nat, pool: seq<nat>)
    requires CanHang(m, pos, base, i, page) && Fresh(m, pool) && pool != [] && page == pool[0]
    ensures var q := pos[base];
            var m', pos' := WithTable(m, base, i, page), pos[page := Pos(q.level - 1, Child(q.start, q.level, i))];
            Tree(m', pos') && Fresh(m', pool[1..]) && Leads(m', pos', base, i, page) &&
            SameWalks(m, pos, m', pos', base)
  {
    HangTree(m, pos, base, i, page);
    HangWalks(m, pos, base, i, page);
  }

  lemma HangWalks(m: Tables, pos: map<nat, Pos>, base: nat, i: nat, page: nat)
    requires CanHang(m, pos, base, i, page)
    ensures var q := pos[base];
            SameWalks(m, pos, WithTable(m, base, i, page), pos[page := Pos(q.level - 1, Child(q.start, q.level, i))],
                      base)
  {
    HangTree(m, pos, base, i, page);
    forall v
      ensures Walk(WithTable(m, base, i, page), base, pos[base].level, v) == Walk(m, base, pos[base].level, v)
    {
      HangWalk(m, pos, base, i, page, v);
    }
  }
}
