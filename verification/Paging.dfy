/** Four-level page tables (include/paging.h) and the walk that the hardware does over them (section 4.5 of the Intel
    SDM, volume 3A). Addresses are counted in 4-KB pages, and a virtual address by its 48 translated bits. */
module Paging {
  import opened Options
  import opened Arith

  const ENTRIES := 512

  /** The present bit and the page frame of a table entry. */
  datatype Entry = Absent | Present(pfn: nat)

  type Table = seq<Entry>

  type Tables = map<nat, Table>

  /** How many pages a table of level `l` maps; an entry of it maps Span(l - 1). */
  function Span(l: nat): nat
    requires l <= 4
  {
    if l == 0 then 1 else if l == 1 then 512 else if l == 2 then 262144 else if l == 3 then 134217728 else 68719476736
  }

  /** pml1_index() .. pml4_index() */
  function Index(v: nat, l: nat): (i: nat)
    requires 1 <= l <= 4
    ensures i < ENTRIES
  {
    (v / Span(l - 1)) % ENTRIES
  }

  /** The four indices are the base-512 digits of a page number, the lowest at level 1. */
  lemma IndexDigits(v: nat)
    requires v < 0x10_0000_0000
    ensures v == Index(v, 1) + 0x200 * Index(v, 2) + 0x4_0000 * Index(v, 3) + 0x800_0000 * Index(v, 4)
  {
    assert v / 0x200 == (v / 1) / 512 && v / 0x4_0000 == (v / 0x200) / 512 && v / 0x800_0000 == (v / 0x4_0000) / 512;
  }

  /** The walk from a table of level `l`. */
  function Walk(m: Tables, base: nat, l: nat, v: nat): Option<nat>
    requires l <= 4
    decreases l
  {
    if l == 0 || base !in m || |m[base]| != ENTRIES then None
    else match m[base][Index(v, l)] {
           case Absent => None
           case Present(p) => if l == 1 then Some(p) else Walk(m, p, l - 1, v)
         }
  }

  /** Where a table stands: its level and the first page that it maps. */
  datatype Pos = Pos(level: nat, start: nat)

  /** The first page behind entry `i`. */
  function Child(start: nat, l: nat, i: nat): nat
    requires 1 <= l <= 4
  {
    start + i * Span(l - 1)
  }

  predicate PosOk(p: Pos) { 1 <= p.level <= 4 && p.start % Span(p.level) == 0 }

  /** Every table has one place in the tree: tables are not shared. */
  ghost predicate Tree(m: Tables, pos: map<nat, Pos>) {
    && pos.Keys == m.Keys
    && (forall t :: t in m ==> |m[t]| == ENTRIES && PosOk(pos[t]))
    && (forall t, i :: t in m && 0 <= i < ENTRIES && pos[t].level > 1 && m[t][i].Present? ==>
                         m[t][i].pfn in m &&
                         pos[m[t][i].pfn] == Pos(pos[t].level - 1, Child(pos[t].start, pos[t].level, i)))
  }

  predicate Inside(v: nat, p: Pos)
    requires p.level <= 4
  {
    p.start <= v < p.start + Span(p.level)
  }

  /** The index of a page, from the number of entries before it. */
  lemma IndexOf(v: nat, c: nat, i: nat, size: nat)
    requires i < ENTRIES && 0 < size && (ENTRIES * c + i) * size <= v < (ENTRIES * c + i) * size + size
    ensures (v / size) % ENTRIES == i
  {
    var q := ENTRIES * c + i;
    DivModUnique(size, q, v - q * size);
    assert q % ENTRIES == i;
  }

  /** Only the pages behind entry `i` have index `i`. */
  lemma IndexIs(v: nat, p: Pos, i: nat)
    requires PosOk(p) && i < ENTRIES && Child(p.start, p.level, i) <= v < Child(p.start, p.level, i) + Span(p.level - 1)
    ensures Inside(v, p) && Index(v, p.level) == i
  {
    var c := p.start / Span(p.level);
    if p.level == 1 {
      IndexOf(v, c, i, 1);
    } else if p.level == 2 {
      IndexOf(v, c, i, 512);
    } else if p.level == 3 {
      IndexOf(v, c, i, 262144);
    } else {
      IndexOf(v, c, i, 134217728);
    }
  }

  /** Inside a table, the index counts the entries from its start. */
  lemma IndexInside(v: nat, p: Pos, i: nat)
    requires PosOk(p) && Inside(v, p) && i == Index(v, p.level)
    ensures i == (v - p.start) / Span(p.level - 1)
    ensures Child(p.start, p.level, i) <= v < Child(p.start, p.level, i) + Span(p.level - 1)
  {
    var k := (v - p.start) / Span(p.level - 1);
    EntryOf(v, p, k);
    IndexIs(v, p, k);
  }

  lemma EntryOf(v: nat, p: Pos, k: nat)
    requires PosOk(p) && Inside(v, p) && k == (v - p.start) / Span(p.level - 1)
    ensures k < ENTRIES && Child(p.start, p.level, k) <= v < Child(p.start, p.level, k) + Span(p.level - 1)
  {
    var r := v - p.start;
    if p.level == 1 {
      assert r / 1 == k;
    } else if p.level == 2 {
      assert r / 512 == k;
    } else if p.level == 3 {
      assert r / 262144 == k;
    } else {
      assert r / 134217728 == k;
    }
  }

  lemma ChildOk(p: Pos, i: nat)
    requires PosOk(p) && 2 <= p.level && i < ENTRIES
    ensures PosOk(Pos(p.level - 1, Child(p.start, p.level, i)))
    ensures p.start <= Child(p.start, p.level, i) &&
            Child(p.start, p.level, i) + Span(p.level - 1) <= p.start + Span(p.level)
  {
    var c := p.start / Span(p.level);
    DivModUnique(Span(p.level - 1), c * 512 + i, 0);
    if p.level == 2 {
      assert Child(p.start, p.level, i) == (c * 512 + i) * 512;
    } else if p.level == 3 {
      assert Child(p.start, p.level, i) == (c * 512 + i) * 262144;
    } else {
      assert Child(p.start, p.level, i) == (c * 512 + i) * 134217728;
    }
  }

  /** Table `q` lies below table `p`, or is it. */
  predicate Under(q: Pos, p: Pos)
    requires p.level <= 4
  {
    q.level <= p.level && p.start <= q.start < p.start + Span(p.level)
  }

  /** Tables keep their places, and those that do not lie below `p` keep their entries. */
  ghost predicate Kept(m: Tables, pos: map<nat, Pos>, m': Tables, pos': map<nat, Pos>, p: Pos)
    requires p.level <= 4
  {
    forall t :: t in m && t in pos ==>
                  t in m' && t in pos' && pos'[t] == pos[t] && (!Under(pos[t], p) ==> m'[t] == m[t])
  }

  /** A walk that stays outside of `p` is not affected by changes below `p`. */
  lemma {:induction false} WalkKept(m: Tables, pos: map<nat, Pos>, m': Tables, pos': map<nat, Pos>, p: Pos, base: nat,
                                    v: nat)
    requires Tree(m, pos) && PosOk(p) && Kept(m, pos, m', pos', p) && !Inside(v, p)
    requires base in m && Inside(v, pos[base])
    ensures Walk(m', base, pos[base].level, v) == Walk(m, base, pos[base].level, v)
    decreases pos[base].level
  {
    var q := pos[base];
    assert PosOk(q);
    NotUnder(v, q, p);
    var i := Index(v, q.level);
    IndexInside(v, q, i);
    if q.level > 1 && m[base][i].Present? {
      WalkKept(m, pos, m', pos', p, m[base][i].pfn, v);
    }
  }

  /** A table that maps a page outside of `p` does not lie below `p`. */
  lemma NotUnder(v: nat, q: Pos, p: Pos)
    requires PosOk(p) && PosOk(q) && Inside(v, q) && !Inside(v, p)
    ensures !Under(q, p)
  {
    if Under(q, p) {
      WholeInside(q, p);
    }
  }

  lemma WholeInside(q: Pos, p: Pos)
    requires PosOk(p) && PosOk(q) && Under(q, p)
    ensures q.start + Span(q.level) <= p.start + Span(p.level)
  {
    var k := EndMultiple(q.level, p);
    NextMultiple(q.start / Span(q.level), k, Span(q.level));
  }

  lemma NextMultiple(a: nat, k: nat, x: nat)
    requires 0 < x && a * x < k * x
    ensures a * x + x <= k * x
  {
    MulOrder(x, a, k);
    TimesIsMul(a, x);
    TimesIsMul(k, x);
    TimesMonotone(a + 1, k, x);
  }

  /** The end of a table in units of a lower level. */
  lemma EndMultiple(l: nat, p: Pos) returns (k: nat)
    requires PosOk(p) && 1 <= l <= p.level
    ensures p.start + Span(p.level) == k * Span(l)
  {
    var b := p.start / Span(p.level) + 1;
    if l == p.level {
      k := b;
    } else if l == p.level - 1 {
      k := b * 512;
    } else if l == p.level - 2 {
      k := b * 262144;
    } else {
      k := b * 134217728;
    }
  }

  /** The walks from `base` after [from, to) was mapped to `p` upwards. */
  ghost predicate Linear(m: Tables, m': Tables, base: nat, q: Pos, from: nat, to: nat, p: nat)
    requires q.level <= 4
  {
    forall v :: Inside(v, q) ==> Walk(m', base, q.level, v) == MapsTo(m, base, q, from, to, p, v)
  }

  function MapsTo(m: Tables, base: nat, q: Pos, from: nat, to: nat, p: nat, v: nat): Option<nat>
    requires q.level <= 4
  {
    if from <= v < to then Some(p + (v - from)) else Walk(m, base, q.level, v)
  }

  /** Walks agree if the tables of the lower levels do. */
  lemma {:induction false} WalkAgrees(m: Tables, pos: map<nat, Pos>, m': Tables, base: nat, v: nat)
    requires Tree(m, pos) && base in m && base in pos
    requires forall t :: t in m && t in pos && pos[t].level <= pos[base].level ==> t in m' && m'[t] == m[t]
    ensures pos[base].level <= 4 && Walk(m', base, pos[base].level, v) == Walk(m, base, pos[base].level, v)
    decreases pos[base].level
  {
    assert PosOk(pos[base]);
    var i := Index(v, pos[base].level);
    if pos[base].level > 1 && m[base][i].Present? {
      WalkAgrees(m, pos, m', m[base][i].pfn, v);
    }
  }

  function EmptyTable(): Table { seq(ENTRIES, _ => Absent) }

  /** The tables after a new one was hung below entry `i` of `base`. */
  function WithTable(m: Tables, base: nat, i: nat, page: nat): Tables
    requires base in m && i < |m[base]|
  {
    m[base := m[base][i := Present(page)]][page := EmptyTable()]
  }

  ghost predicate CanHang(m: Tables, pos: map<nat, Pos>, base: nat, i: nat, page: nat) {
    Tree(m, pos) && base in m && base in pos && 2 <= pos[base].level && i < ENTRIES && m[base][i].Absent? && page !in m
  }

  lemma HangTree(m: Tables, pos: map<nat, Pos>, base: nat, i: nat, page: nat)
    requires CanHang(m, pos, base, i, page)
    ensures pos[base].level <= 4
    ensures var q := pos[base];
            Tree(WithTable(m, base, i, page), pos[page := Pos(q.level - 1, Child(q.start, q.level, i))])
    ensures var q := pos[base];
            Kept(m, pos, WithTable(m, base, i, page), pos[page := Pos(q.level - 1, Child(q.start, q.level, i))], q)
  {
    assert PosOk(pos[base]);
    ChildOk(pos[base], i);
  }

  /** A new, empty table changes no walk. */
  lemma HangWalk(m: Tables, pos: map<nat, Pos>, base: nat, i: nat, page: nat, v: nat)
    requires CanHang(m, pos, base, i, page)
    ensures pos[base].level <= 4
    ensures Walk(WithTable(m, base, i, page), base, pos[base].level, v) == Walk(m, base, pos[base].level, v)
  {
    var m', l := WithTable(m, base, i, page), pos[base].level;
    assert PosOk(pos[base]);
    var j := Index(v, l);
    if j == i {
      assert m'[page][Index(v, l - 1)] == Absent;
    } else if m[base][j].Present? {
      WalkAgrees(m, pos, m', m[base][j].pfn, v);
    }
  }

  lemma KeptTrans(m: Tables, pos: map<nat, Pos>, m': Tables, pos': map<nat, Pos>, m'': Tables, pos'': map<nat, Pos>,
                  p: Pos)
    requires p.level <= 4 && Kept(m, pos, m', pos', p) && Kept(m', pos', m'', pos'', p)
    ensures Kept(m, pos, m'', pos'', p)
  {
  }

  /** Changes below an entry are changes below the table. */
  lemma KeptChild(m: Tables, pos: map<nat, Pos>, m': Tables, pos': map<nat, Pos>, p: Pos, i: nat)
    requires PosOk(p) && 2 <= p.level && i < ENTRIES
    requires Kept(m, pos, m', pos', Pos(p.level - 1, Child(p.start, p.level, i)))
    ensures Kept(m, pos, m', pos', p)
  {
    ChildOk(p, i);
  }

  /** Entry `i` of table `base` leads to table `child`. */
  ghost predicate Leads(m: Tables, pos: map<nat, Pos>, base: nat, i: nat, child: nat) {
    && Tree(m, pos) && base in m && base in pos && 2 <= pos[base].level <= 4 && i < ENTRIES
    && m[base][i] == Present(child) && child in m && child in pos
    && pos[child] == Pos(pos[base].level - 1, Child(pos[base].start, pos[base].level, i))
  }

  /** What changes below an entry do to the walks from the table. */
  lemma EntryWalk(m: Tables, pos: map<nat, Pos>, m': Tables, pos': map<nat, Pos>, base: nat, i: nat, child: nat, v: nat)
    requires Leads(m, pos, base, i, child) && PosOk(pos[child]) && Kept(m, pos, m', pos', pos[child]) &&
             Inside(v, pos[base])
    ensures Index(v, pos[base].level) == i <==> Inside(v, pos[child])
    ensures Inside(v, pos[child]) ==> Walk(m', base, pos[base].level, v) == Walk(m', child, pos[child].level, v)
    ensures Inside(v, pos[child]) ==> Walk(m, base, pos[base].level, v) == Walk(m, child, pos[child].level, v)
    ensures !Inside(v, pos[child]) ==> Walk(m', base, pos[base].level, v) == Walk(m, base, pos[base].level, v)
  {
    var q := pos[base];
    assert PosOk(q);
    IndexInside(v, q, Index(v, q.level));
    assert m'[base] == m[base];
    if Inside(v, pos[child]) {
      IndexIs(v, q, i);
    } else {
      WalkKept(m, pos, m', pos', pos[child], base, v);
    }
  }

  /** A range mapped below an entry is mapped. */
  lemma EntryLinear(m: Tables, pos: map<nat, Pos>, m': Tables, pos': map<nat, Pos>, base: nat, i: nat, child: nat,
                    from: nat, to: nat, p: nat)
    requires Leads(m, pos, base, i, child) && PosOk(pos[child]) && Kept(m, pos, m', pos', pos[child])
    requires Linear(m, m', child, pos[child], from, to, p)
    requires pos[child].start <= from && to <= pos[child].start + Span(pos[child].level)
    ensures Linear(m, m', base, pos[base], from, to, p)
  {
    forall v | Inside(v, pos[base])
      ensures Walk(m', base, pos[base].level, v) == MapsTo(m, base, pos[base], from, to, p, v)
    {
      EntryWalk(m, pos, m', pos', base, i, child, v);
    }
  }

  lemma LinearTrans(m: Tables, m': Tables, m'': Tables, base: nat, q: Pos, from: nat, mid: nat, to: nat, p: nat,
                    p': nat)
    requires q.level <= 4 && from <= mid <= to && p' == p + (mid - from)
    requires Linear(m, m', base, q, from, mid, p) && Linear(m', m'', base, q, mid, to, p')
    ensures Linear(m, m'', base, q, from, to, p)
  {
    forall v | Inside(v, q)
      ensures Walk(m'', base, q.level, v) == MapsTo(m, base, q, from, to, p, v)
    {
      assert Walk(m'', base, q.level, v) == MapsTo(m', base, q, mid, to, p', v);
      assert Walk(m', base, q.level, v) == MapsTo(m, base, q, from, mid, p, v);
    }
  }
}
