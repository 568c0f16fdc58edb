/** Ranges of pages and the entries that map_pml4_range() .. map_pml1_range() of mm/vm_map.c visit for them. */
module PagingRange {
  import opened Arith
  import opened Paging

  /** At each level the range stays inside one entry, or starts where an entry starts. */
  predicate Good(l: nat, from: nat, to: nat)
    requires l <= 4 && 0 < to
    decreases l
  {
    if l <= 1 then true
    else if from / Span(l - 1) == (to - 1) / Span(l - 1) then Good(l - 1, from, to)
    else from % Span(l - 1) == 0
  }

  /** The range is not empty and the table maps it. */
  predicate Proper(q: Pos, from: nat, to: nat)
    requires q.level <= 4
  {
    q.start <= from < to <= q.start + Span(q.level)
  }

  /** The range of a whole table that starts in the middle of one. */
  predicate Shifted(l: nat, from: nat, to: nat)
    requires l <= 4
  {
    to == from + Span(l) && from % Span(l) != 0
  }

  /** The range is cut off at its start. */
  predicate Faulty(q: Pos, from: nat, to: nat)
    requires q.level <= 4 && 0 < to
  {
    Inside(from, q) && ((Proper(q, from, to) && !Good(q.level, from, to)) || Shifted(q.level, from, to))
  }

  /** A range that starts where a table starts. */
  lemma {:induction false} AlignedGood(l: nat, from: nat, to: nat)
    requires 1 <= l <= 4 && from % Span(l) == 0 && from < to <= from + Span(l)
    ensures Good(l, from, to)
    decreases l
  {
    if l > 1 {
      AlignedBelow(l, from);
      if from / Span(l - 1) == (to - 1) / Span(l - 1) {
        SameEntry(l, from, to);
        AlignedGood(l - 1, from, to);
      }
    }
  }

  lemma AlignedBelow(l: nat, from: nat)
    requires 1 <= l <= 4 && from % Span(l) == 0
    ensures from % Span(l - 1) == 0
  {
    var c := from / Span(l);
    DivModUnique(Span(l - 1), 512 * c, 0);
    if l == 1 {
    } else if l == 2 {
    } else if l == 3 {
    } else {
    }
  }

  lemma SameEntry(l: nat, from: nat, to: nat)
    requires 1 <= l <= 4 && from < to && from / Span(l - 1) == (to - 1) / Span(l - 1)
    ensures to <= from + Span(l - 1)
  {
    if l == 1 {
    } else if l == 2 {
    } else if l == 3 {
    } else {
    }
  }

  /** The entries that the loop visits for a proper range. */
  lemma Entries(q: Pos, from: nat, to: nat, i0: nat, i1: nat)
    requires PosOk(q) && Proper(q, from, to) && i0 == Index(from, q.level) && i1 == Index(to - 1, q.level)
    ensures i0 <= i1 < ENTRIES
    ensures Child(q.start, q.level, i0) <= from < Child(q.start, q.level, i0) + Span(q.level - 1)
    ensures Child(q.start, q.level, i1) < to <= Child(q.start, q.level, i1) + Span(q.level - 1)
    ensures i0 == i1 <==> from / Span(q.level - 1) == (to - 1) / Span(q.level - 1)
  {
    IndexInside(from, q, i0);
    IndexInside(to - 1, q, i1);
    DivMonotone(Span(q.level - 1), from - q.start, to - 1 - q.start);
    EntryNumber(q, from, i0);
    EntryNumber(q, to - 1, i1);
  }

  /** The number of an entry, counted from address 0. */
  lemma EntryNumber(q: Pos, v: nat, i: nat)
    requires PosOk(q) && i < ENTRIES
    requires Child(q.start, q.level, i) <= v < Child(q.start, q.level, i) + Span(q.level - 1)
    ensures v / Span(q.level - 1) == ENTRIES * (q.start / Span(q.level)) + i
  {
    var c := q.start / Span(q.level);
    var s := Span(q.level - 1);
    DivModUnique(s, ENTRIES * c + i, v - (ENTRIES * c + i) * s);
    if q.level == 1 {
    } else if q.level == 2 {
    } else if q.level == 3 {
    } else {
    }
  }

  /** A shifted range wraps: its last index is not above its first. */
  lemma ShiftedEntries(q: Pos, from: nat, to: nat, i0: nat, i1: nat)
    requires PosOk(q) && Inside(from, q) && Shifted(q.level, from, to)
    requires i0 == Index(from, q.level) && i1 == Index(to - 1, q.level)
    ensures i1 <= i0
  {
    IndexInside(from, q, i0);
    var next := Pos(q.level, q.start + Span(q.level));
    NextAligned(q);
    var v := to - 1;
    assert Inside(v, next);
    IndexInside(v, next, i1);
    DivMonotone(Span(q.level - 1), v - next.start, from - q.start);
  }

  lemma NextAligned(q: Pos)
    requires PosOk(q)
    ensures (q.start + Span(q.level)) % Span(q.level) == 0
  {
    DivModUnique(Span(q.level), q.start / Span(q.level) + 1, 0);
  }

  /** Where the part of the range for entry `i` starts. */
  function PartStart(from: nat, i: nat, i0: nat, l: nat): nat
    requires 1 <= l <= 4 && i0 <= i
  {
    from + (i - i0) * Span(l - 1)
  }

  /** Where it ends: the last entry takes the rest. */
  function PartEnd(from: nat, to: nat, i: nat, i1: nat, l: nat): nat
    requires 1 <= l <= 4
  {
    if i == i1 then to else from + Span(l - 1)
  }

  /** What has been mapped once the loop reaches a part. */
  function Done(cur: nat, to: nat): nat { Min(cur, to) }

  lemma GoodCases(l: nat, from: nat, to: nat)
    requires 2 <= l <= 4 && 0 < to && Good(l, from, to)
    ensures if from / Span(l - 1) == (to - 1) / Span(l - 1) then Good(l - 1, from, to) else from % Span(l - 1) == 0
  {
  }

  /** In a good range, each entry is handed a good range of its own, and the parts follow one another. */
  lemma GoodPart(q: Pos, from: nat, to: nat, i0: nat, i1: nat, i: nat, cur: nat, end: nat)
    requires PosOk(q) && 2 <= q.level && Proper(q, from, to) && Good(q.level, from, to)
    requires i0 == Index(from, q.level) && i1 == Index(to - 1, q.level) && i0 <= i <= i1 < ENTRIES
    requires cur == PartStart(from, i, i0, q.level) && end == PartEnd(cur, to, i, i1, q.level)
    ensures Proper(Pos(q.level - 1, Child(q.start, q.level, i)), cur, end) && Good(q.level - 1, cur, end)
    ensures cur == Done(cur, to) && end == Done(cur + Span(q.level - 1), to)
  {
    Entries(q, from, to, i0, i1);
    GoodCases(q.level, from, to);
    hide Span, Child, Index, Good;
    if i0 == i1 {
      SameEntry(q.level, from, to);
      SinglePart(q, from, to, i, cur, end);
    } else {
      hide PartStart, PartEnd, Proper;
      AlignedPart(q, from, to, i0, i1, i, cur, end, Span(q.level - 1));
    }
  }

  lemma SinglePart(q: Pos, from: nat, to: nat, i: nat, cur: nat, end: nat)
    requires 2 <= q.level <= 4 && i < ENTRIES && cur == PartStart(from, i, i, q.level) && end == to && from < to
    requires Child(q.start, q.level, i) <= from && to <= Child(q.start, q.level, i) + Span(q.level - 1)
    requires to <= from + Span(q.level - 1)
    ensures cur == from && Proper(Pos(q.level - 1, Child(q.start, q.level, i)), cur, end)
    ensures cur == Done(cur, to) && end == Done(cur + Span(q.level - 1), to)
  {
    hide Span, Child;
    assert (i - i) * Span(q.level - 1) == 0;
  }

  lemma AlignedPart(q: Pos, from: nat, to: nat, i0: nat, i1: nat, i: nat, cur: nat, end: nat, s: nat)
    requires PosOk(q) && 2 <= q.level && i0 <= i <= i1 < ENTRIES && s == Span(q.level - 1) && from % s == 0
    requires cur == PartStart(from, i, i0, q.level) && end == PartEnd(cur, to, i, i1, q.level)
    requires Child(q.start, q.level, i0) <= from < Child(q.start, q.level, i0) + s
    requires Child(q.start, q.level, i1) < to <= Child(q.start, q.level, i1) + s
    ensures Proper(Pos(q.level - 1, Child(q.start, q.level, i)), cur, end) && Good(q.level - 1, cur, end)
    ensures cur == Done(cur, to) && end == Done(cur + s, to)
  {
    AlignedEntry(q, from, i0);
    Steps(q, i0, i, i1);
    ChildOk(q, i);
    hide Span, Child, Index, Good;
    assert cur == Child(q.start, q.level, i);
    AlignedGood(q.level - 1, cur, end);
  }

  /** A range that starts where an entry starts. */
  lemma AlignedEntry(q: Pos, from: nat, i: nat)
    requires PosOk(q) && 2 <= q.level && i < ENTRIES && from % Span(q.level - 1) == 0
    requires Child(q.start, q.level, i) <= from < Child(q.start, q.level, i) + Span(q.level - 1)
    ensures from == Child(q.start, q.level, i)
  {
    EntryNumber(q, from, i);
    var c := q.start / Span(q.level);
    if q.level == 2 {
    } else if q.level == 3 {
    } else {
    }
  }

  lemma Steps(q: Pos, i0: nat, i: nat, i1: nat)
    requires 2 <= q.level <= 4 && i0 <= i <= i1
    ensures Child(q.start, q.level, i) == Child(q.start, q.level, i0) + (i - i0) * Span(q.level - 1)
    ensures i < i1 ==> Child(q.start, q.level, i) + Span(q.level - 1) <= Child(q.start, q.level, i1)
  {
    if q.level == 2 {
    } else if q.level == 3 {
    } else {
    }
  }

  /** In a faulty range, the first entry is handed a faulty range, or one that is too long for it. */
  lemma FaultyPart(q: Pos, from: nat, to: nat, i0: nat, i1: nat, end: nat)
    requires PosOk(q) && 2 <= q.level && 0 < to && Faulty(q, from, to)
    requires i0 == Index(from, q.level) && i1 == Index(to - 1, q.level) && i0 <= i1 < ENTRIES
    requires end == PartEnd(from, to, i0, i1, q.level)
    ensures 0 < end && (Faulty(Pos(q.level - 1, Child(q.start, q.level, i0)), from, end) ||
                        from + Span(q.level - 1) < end)
  {
    IndexInside(from, q, i0);
    if Proper(q, from, to) && !Good(q.level, from, to) {
      Entries(q, from, to, i0, i1);
    } else {
      ShiftedEntries(q, from, to, i0, i1);
    }
  }

  /** No part of the range ends before it starts or is longer than a table maps: where the source does not panic. */
  predicate Returns(l: nat, from: nat, to: nat)
    requires l <= 4
    decreases l, 0
  {
    && 0 < to && from <= to <= from + Span(l)
    && (l <= 1 || forall i: nat :: Index(from, l) <= i <= Index(to - 1, l) ==> PartReturns(l, from, to, i))
  }

  predicate PartReturns(l: nat, from: nat, to: nat, i: nat)
    requires 2 <= l <= 4 && 0 < to && Index(from, l) <= i
    decreases l - 1, 1
  {
    var cur := PartStart(from, i, Index(from, l), l);
    Returns(l - 1, cur, PartEnd(cur, to, i, Index(to - 1, l), l))
  }

  lemma {:induction false} GoodReturns(q: Pos, from: nat, to: nat)
    requires PosOk(q) && Proper(q, from, to) && Good(q.level, from, to)
    ensures Returns(q.level, from, to)
    decreases q.level
  {
    if q.level > 1 {
      var i0, i1 := Index(from, q.level), Index(to - 1, q.level);
      Entries(q, from, to, i0, i1);
      forall i: nat | i0 <= i <= i1
        ensures PartReturns(q.level, from, to, i)
      {
        var cur := PartStart(from, i, i0, q.level);
        var end := PartEnd(cur, to, i, i1, q.level);
        GoodPart(q, from, to, i0, i1, i, cur, end);
        ChildOk(q, i);
        GoodReturns(Pos(q.level - 1, Child(q.start, q.level, i)), cur, end);
      }
    }
  }

  /** How many new tables the range may need below a table of level `l`. */
  function TablesFor(l: nat, from: nat, to: nat): nat
    requires l <= 4
    decreases l, 1, 0
  {
    if l <= 1 || to == 0 || Index(to - 1, l) < Index(from, l) then 0
    else TablesBelow(l, from, to, Index(to - 1, l) + 1 - Index(from, l))
  }

  /** The same for its first `k` parts. */
  function TablesBelow(l: nat, from: nat, to: nat, k: nat): nat
    requires 2 <= l <= 4 && 0 < to
    decreases l, 0, k
  {
    if k == 0 then 0
    else
      var i := Index(from, l) + k - 1;
      var cur := PartStart(from, i, Index(from, l), l);
      TablesBelow(l, from, to, k - 1) + 1 + TablesFor(l - 1, cur, PartEnd(cur, to, i, Index(to - 1, l), l))
  }

  lemma {:induction false} TablesMonotone(l: nat, from: nat, to: nat, j: nat, k: nat)
    requires 2 <= l <= 4 && 0 < to && j <= k
    ensures TablesBelow(l, from, to, j) <= TablesBelow(l, from, to, k)
  {
    hide Index, Span, PartStart, PartEnd, TablesFor;
    if j < k {
      TablesMonotone(l, from, to, j, k - 1);
    }
  }

  /** Entry `i` of the loop: its part of the range, and the tables up to its end. */
  lemma TurnTables(l: nat, from: nat, to: nat, i0: nat, i1: nat, i: nat, cur: nat, end: nat)
    requires 2 <= l <= 4 && 0 < to && i0 == Index(from, l) && i1 == Index(to - 1, l) && i0 <= i <= i1
    requires cur == PartStart(from, i, i0, l) && end == PartEnd(cur, to, i, i1, l)
    ensures TablesBelow(l, from, to, i + 1 - i0) == TablesBelow(l, from, to, i - i0) + 1 + TablesFor(l - 1, cur, end)
    ensures TablesBelow(l, from, to, i + 1 - i0) <= TablesFor(l, from, to)
    ensures Returns(l, from, to) ==> Returns(l - 1, cur, end)
  {
    hide Index, Span, PartStart, TablesFor, TablesBelow, Returns, PartEnd;
    TablesMonotone(l, from, to, i + 1 - i0, i1 + 1 - i0);
    WholeTables(l, from, to);
    PartTables(l, from, to, i0, i1, i, cur, end);
    if Returns(l, from, to) {
      PartOf(l, from, to, i);
      assert PartReturns(l, from, to, i) == Returns(l - 1, cur, end);
    }
  }

  lemma WholeTables(l: nat, from: nat, to: nat)
    requires 2 <= l <= 4 && 0 < to && Index(from, l) <= Index(to - 1, l)
    ensures TablesFor(l, from, to) == TablesBelow(l, from, to, Index(to - 1, l) + 1 - Index(from, l))
  {
    hide Index, Span, PartStart, TablesBelow;
  }

  lemma PartTables(l: nat, from: nat, to: nat, i0: nat, i1: nat, i: nat, cur: nat, end: nat)
    requires 2 <= l <= 4 && 0 < to && i0 == Index(from, l) && i1 == Index(to - 1, l) && i0 <= i <= i1
    requires cur == PartStart(from, i, i0, l) && end == PartEnd(cur, to, i, i1, l)
    ensures TablesBelow(l, from, to, i + 1 - i0) == TablesBelow(l, from, to, i - i0) + 1 + TablesFor(l - 1, cur, end)
  {
    hide Index, Span, PartStart, TablesFor;
    assert i0 + (i + 1 - i0) - 1 == i;
  }

  lemma PartOf(l: nat, from: nat, to: nat, i: nat)
    requires 2 <= l <= 4 && Returns(l, from, to) && Index(from, l) <= i <= Index(to - 1, l)
    ensures PartReturns(l, from, to, i)
  {
    hide Index, Span, PartReturns;
  }

  lemma AllTables(l: nat, from: nat, to: nat, i: nat)
    requires 2 <= l <= 4 && 0 < to && Index(from, l) <= i
    requires i == if Index(from, l) <= Index(to - 1, l) then Index(to - 1, l) + 1 else Index(from, l)
    ensures TablesBelow(l, from, to, i - Index(from, l)) == TablesFor(l, from, to)
  {
    hide Index, Span, PartStart;
  }
}
