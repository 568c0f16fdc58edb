/** get_free_page(), free_page(), addr_to_page() and pfdtable_add_range() of mm/page_alloc.c. */
module PageAlloc {
  import opened Options
  import opened Arith
  import opened FreePages

  /** The descriptor table with its limit, the zones and the reverse map with its limit. */
  datatype State = State(pfd: seq<Page>, heads: seq<int>, counts: seq<nat>, lists: seq<seq<nat>>, rmap: seq<Rmap>)

  ghost predicate Zone(s: State, z: nat)
    requires |s.heads| == |s.counts| == |s.lists| == NR_ZONES && z < NR_ZONES
  {
    ZoneOk(s.pfd, z, s.heads[z], s.counts[z], s.lists[z])
  }

  /** What every operation keeps. */
  ghost predicate Ok(s: State) {
    && |s.heads| == |s.counts| == |s.lists| == NR_ZONES
    && PagesOk(s.pfd) && Zone(s, ZONE_1GB) && Zone(s, ZONE_ANY) && Described(s.pfd, s.rmap)
  }

  lemma ZoneFacts(s: State, z: nat)
    requires Ok(s) && z < NR_ZONES
    ensures Zone(s, z)
  {
  }

  /** Changing flags and links of a descriptor keeps the reverse map. */
  lemma DescribedAfter(pfd: seq<Page>, rmap: seq<Rmap>, d: nat, p: Page)
    requires Described(pfd, rmap) && d < |pfd| && p.pfn == pfd[d].pfn
    ensures Described(pfd[d := p], rmap)
  {
    var pfd' := pfd[d := p];
    forall i | 0 <= i < |rmap|
      ensures RangeOk(pfd', rmap[i])
    {
      assert RangeOk(pfd, rmap[i]);
      forall k | 0 <= k < PagesIn(rmap[i])
        ensures Describes(pfd', rmap[i], k)
      {
        assert Describes(pfd, rmap[i], k);
      }
    }
  }

  /** Zone `z` with another list, after descriptor `d` of that zone was replaced. */
  function With(s: State, z: nat, d: nat, p: Page, head: int, count: nat, list: seq<nat>): State
    requires |s.heads| == |s.counts| == |s.lists| == NR_ZONES && z < NR_ZONES && d < |s.pfd|
  {
    s.(pfd := s.pfd[d := p], heads := s.heads[z := head], counts := s.counts[z := count], lists := s.lists[z := list])
  }

  lemma WithOk(s: State, z: nat, d: nat, p: Page, head: int, count: nat, list: seq<nat>)
    requires Ok(s) && z < NR_ZONES && d < |s.pfd| && p.zone == s.pfd[d].zone == z && p.pfn == s.pfd[d].pfn
    requires ZoneOk(s.pfd[d := p], z, head, count, list)
    ensures Ok(With(s, z, d, p, head, count, list))
  {
    DescribedAfter(s.pfd, s.rmap, d, p);
    var o := 1 - z;
    ZoneFacts(s, o);
    ZoneFrame(s.pfd, o, s.heads[o], s.counts[o], s.lists[o], d, p);
    assert PageOk(s.pfd[d]);
  }

  class PageAllocator {
    var pfd: seq<Page>
    var heads: seq<int>
    var counts: seq<nat>
    ghost var lists: seq<seq<nat>>
    var rmap: seq<Rmap>
    const pfdEnd: nat
    const rmapEnd: nat

    ghost function View(): State
      reads this
    {
      State(pfd, heads, counts, lists, rmap)
    }

    /** pagealloc_init() and zones_init() */
    constructor (ranges: nat, pages: nat)
      ensures Ok(View()) && pfdEnd == pages && rmapEnd == ranges && pfd == [] && rmap == []
    {
      pfd, rmap, heads, counts := [], [], [NULL, NULL], [0, 0];
      lists := [[], []];
      pfdEnd, rmapEnd := pages, ranges;
    }

    /** __get_free_page(): the first free page of a zone, or None exactly when the zone has no free page. */
    method GetFromZone(z: nat) returns (page: Option<nat>)
      requires Ok(View()) && z < NR_ZONES
      modifies this`pfd, this`heads, this`counts, this`lists
      ensures Ok(View()) && |pfd| == |old(pfd)|
      ensures page.None? <==> old(counts[z]) == 0
      ensures page.None? ==> View() == old(View())
      ensures page.Some? ==> page.value < |pfd| && old(pfd)[page.value].free && old(pfd)[page.value].zone == z
      ensures page.Some? ==> pfd == old(pfd)[page.value := old(pfd)[page.value].(free := false)] && 0 < old(counts[z])
      ensures page.Some? ==> counts == old(counts)[z := old(counts[z]) - 1] && page.value == old(heads[z])
    {
      ghost var s := View();
      HeadFree(s, z);
      var d := heads[z];
      // Without reservations no page on a freelist is in use: the source's loop that skips such pages does not turn.
      assert d == NULL || pfd[d].free;
      if d == NULL {
        assert heads[z := NULL] == heads;
        heads := heads[z := NULL];
        return None;
      }
      PopOk(s, z);
      hide Ok, ZoneOk;
      heads := heads[z := pfd[d].next];
      counts := counts[z := counts[z] - 1];
      lists := lists[z := lists[z][1..]];
      pfd := pfd[d := pfd[d].(free := false)];
      assert View() == With(s, z, d, s.pfd[d].(free := false), s.pfd[d].next, s.counts[z] - 1, s.lists[z][1..]);
      return Some(d);
    }

    /** get_free_page(): None where the source panics, exactly when no zone of the request has a free page. */
    method GetFreePage(z: nat) returns (page: Option<nat>)
      requires Ok(View()) && z < NR_ZONES
      modifies this`pfd, this`heads, this`counts, this`lists
      ensures Ok(View()) && |pfd| == |old(pfd)|
      ensures page.None? <==> old(counts[z]) == 0 && (z == ZONE_ANY ==> old(counts[ZONE_1GB]) == 0)
      ensures page.None? ==> View() == old(View())
      ensures page.Some? ==> page.value < |pfd| && old(pfd)[page.value].free && InZone(pfd[page.value].pfn, z)
      ensures page.Some? ==> pfd == old(pfd)[page.value := old(pfd)[page.value].(free := false)]
      ensures page.Some? && z == ZONE_ANY && old(counts[ZONE_ANY]) > 0 ==> pfd[page.value].zone == ZONE_ANY
      ensures page.Some? ==> page.value == old(heads[if counts[z] > 0 then z else ZONE_1GB])
    {
      page := GetFromZone(z);
      if page == None && z == ZONE_ANY {
        page := GetFromZone(ZONE_1GB);
      }
      if page.Some? {
        assert PageOk(pfd[page.value]);
      }
    }

    /** free_page(): false where the source panics, exactly when the page is already free. */
    method FreePage(d: nat) returns (ok: bool)
      requires Ok(View()) && d < |pfd|
      modifies this`pfd, this`heads, this`counts, this`lists
      ensures ok <==> !old(pfd)[d].free
      ensures ok ==>
                Ok(View()) &&
                pfd == old(pfd)[d := Page(old(pfd)[d].pfn, true, old(pfd)[d].zone, old(heads)[old(pfd)[d].zone])]
      ensures ok ==> old(pfd)[d].zone < NR_ZONES && counts == old(counts)[pfd[d].zone := old(counts)[pfd[d].zone] + 1]
      ensures ok ==> old(pfd)[d].zone < |old(heads)| && heads == old(heads)[pfd[d].zone := d]
    {
      ghost var s := View();
      assert PageOk(pfd[d]);
      var z := pfd[d].zone;
      ok := !pfd[d].free;
      if ok {
        PushOk(s, z, d);
      }
      hide Ok, ZoneOk;
      pfd := pfd[d := pfd[d].(next := heads[z])];
      heads, counts := heads[z := d], counts[z := counts[z] + 1];
      lists := lists[z := [d] + lists[z]];
      if !ok {
        return;
      }
      pfd := pfd[d := pfd[d].(free := true)];
      assert View() == With(s, z, d, Page(s.pfd[d].pfn, true, z, s.heads[z]), d, s.counts[z] + 1, [d] + s.lists[z]);
    }

    /** addr_to_page(): the descriptor of the page that holds a physical address, or None where the source panics. */
    method AddrToPage(addr: nat) returns (page: Option<nat>)
      requires Ok(View())
      ensures page.Some? ==> page.value < |pfd| && pfd[page.value].pfn == addr / PAGE
      ensures page.None? ==> forall d :: 0 <= d < |pfd| ==> pfd[d].pfn != addr / PAGE
      ensures RangesApart(rmap) ==> forall d :: 0 <= d < |pfd| && pfd[d].pfn == addr / PAGE ==> page == Some(d)
    {
      ghost var s := View();
      var paddr := RoundDown(addr, PAGE);
      RoundedPage(addr);
      for i := 0 to |rmap|
        invariant forall j :: 0 <= j < i ==> !Covers(rmap[j], paddr)
      {
        var r := rmap[i];
        if r.base <= paddr < r.base + r.len {
          FoundPage(s, i, paddr, addr);
          return Some(r.start + (paddr - r.base) / PAGE);
        }
      }
      NotFound(s, paddr, addr);
      return None;
    }
  }

  lemma HeadFree(s: State, z: nat)
    requires Ok(s) && z < NR_ZONES
    ensures s.heads[z] == NULL <==> s.lists[z] == []
    ensures s.heads[z] == NULL <==> s.counts[z] == 0
    ensures s.heads[z] != NULL ==> 0 <= s.heads[z] < |s.pfd| && s.pfd[s.heads[z]].free
  {
    ZoneFacts(s, z);
    assert s.lists[z] != [] ==> LinkedAt(s.pfd, z, s.lists[z], 0);
  }

  lemma PopOk(s: State, z: nat)
    requires Ok(s) && z < NR_ZONES && s.heads[z] != NULL
    ensures 0 <= s.heads[z] < |s.pfd| && s.lists[z] != [] && s.pfd[s.heads[z]].zone == z && 0 < s.counts[z]
    ensures Ok(With(s, z, s.heads[z], s.pfd[s.heads[z]].(free := false), s.pfd[s.heads[z]].next, s.counts[z] - 1,
                    s.lists[z][1..]))
  {
    HeadFree(s, z);
    ZoneFacts(s, z);
    ZonePop(s.pfd, z, s.heads[z], s.counts[z], s.lists[z]);
    WithOk(s, z, s.heads[z], s.pfd[s.heads[z]].(free := false), s.pfd[s.heads[z]].next, s.counts[z] - 1,
           s.lists[z][1..]);
  }

  lemma PushOk(s: State, z: nat, d: nat)
    requires Ok(s) && z < NR_ZONES && d < |s.pfd| && !s.pfd[d].free && s.pfd[d].zone == z
    ensures Ok(With(s, z, d, Page(s.pfd[d].pfn, true, z, s.heads[z]), d, s.counts[z] + 1, [d] + s.lists[z]))
  {
    ZoneFacts(s, z);
    ZonePush(s.pfd, z, s.heads[z], s.counts[z], s.lists[z], d, s.pfd[d].pfn);
    WithOk(s, z, d, Page(s.pfd[d].pfn, true, z, s.heads[z]), d, s.counts[z] + 1, [d] + s.lists[z]);
  }

  lemma RoundedPage(addr: nat)
    ensures RoundDown(addr, PAGE) == (addr / PAGE) * PAGE
  {
  }

  /** A range that covers the page has its descriptor; no other range does. */
  lemma FoundPage(s: State, i: nat, paddr: nat, addr: nat)
    requires Ok(s) && i < |s.rmap| && Covers(s.rmap[i], paddr) && paddr == (addr / PAGE) * PAGE
    ensures var d := s.rmap[i].start + (paddr - s.rmap[i].base) / PAGE;
            && d < |s.pfd| && s.pfd[d].pfn == addr / PAGE
            && (RangesApart(s.rmap) ==> forall e :: 0 <= e < |s.pfd| && s.pfd[e].pfn == addr / PAGE ==> e == d)
  {
    var r := s.rmap[i];
    assert RangeOk(s.pfd, r);
    var k := (paddr - r.base) / PAGE;
    assert k < PagesIn(r) && Describes(s.pfd, r, k);
    if RangesApart(s.rmap) {
      forall e | 0 <= e < |s.pfd| && s.pfd[e].pfn == addr / PAGE
        ensures e == r.start + k
      {
        var j := RangeOf(s, e, paddr);
        assert j == i;
      }
    }
  }

  /** The range of a descriptor covers its page. */
  lemma RangeOf(s: State, d: nat, paddr: nat) returns (i: nat)
    requires Ok(s) && d < |s.pfd| && paddr == s.pfd[d].pfn * PAGE
    ensures i < |s.rmap| && Covers(s.rmap[i], paddr) && d == s.rmap[i].start + (paddr - s.rmap[i].base) / PAGE
  {
    assert HasRange(s.rmap, d);
    i :| 0 <= i < |s.rmap| && Belongs(s.rmap[i], d);
    assert RangeOk(s.pfd, s.rmap[i]);
    RangePage(s.pfd, s.rmap[i], d - s.rmap[i].start, paddr);
  }

  /** A page has one descriptor. */
  lemma OneDescriptor(s: State, d: nat, e: nat)
    requires Ok(s) && RangesApart(s.rmap) && d < |s.pfd| && e < |s.pfd| && s.pfd[d].pfn == s.pfd[e].pfn
    ensures d == e
  {
    var pfn := s.pfd[d].pfn;
    var addr := pfn * PAGE;
    assert addr / PAGE == pfn;
    var i := RangeOf(s, d, addr);
    FoundPage(s, i, addr, addr);
  }

  lemma NotFound(s: State, paddr: nat, addr: nat)
    requires Ok(s) && paddr == (addr / PAGE) * PAGE && forall j :: 0 <= j < |s.rmap| ==> !Covers(s.rmap[j], paddr)
    ensures forall d :: 0 <= d < |s.pfd| ==> s.pfd[d].pfn != addr / PAGE
  {
    forall d | 0 <= d < |s.pfd|
      ensures s.pfd[d].pfn != addr / PAGE
    {
      var i := RangeOf(s, d, s.pfd[d].pfn * PAGE);
    }
  }

  /** A new descriptor, assigned to its zone and put in front of the zone's freelist. */
  function Grown(s: State, pfn: nat): State
    requires |s.heads| == |s.counts| == |s.lists| == NR_ZONES && pfn * PAGE + PAGE <= PHYS_END_MAX
  {
    var z, d := ZoneOf(pfn), |s.pfd|;
    s.(pfd := s.pfd + [Page(pfn, true, z, s.heads[z])], heads := s.heads[z := d],
    counts := s.counts[z := s.counts[z] + 1],
    lists := s.lists[z := [d] + s.lists[z]])
  }

  /** All but the reverse map is in order. */
  ghost predicate ZonesOk(s: State) {
    |s.heads| == |s.counts| == |s.lists| == NR_ZONES && PagesOk(s.pfd) && Zone(s, ZONE_1GB) && Zone(s, ZONE_ANY)
  }

  lemma GrownOk(s: State, pfn: nat)
    requires ZonesOk(s) && pfn * PAGE + PAGE <= PHYS_END_MAX
    ensures ZonesOk(Grown(s, pfn))
  {
    var z, d := ZoneOf(pfn), |s.pfd|;
    var used := s.pfd + [Page(pfn, false, z, s.heads[z])];
    var o := 1 - z;
    ZoneExtend(s.pfd, z, s.heads[z], s.counts[z], s.lists[z], used[d]);
    ZonePush(used, z, s.heads[z], s.counts[z], s.lists[z], d, pfn);
    assert used[d := Page(pfn, true, z, s.heads[z])] == Grown(s, pfn).pfd;
    ZoneExtend(s.pfd, o, s.heads[o], s.counts[o], s.lists[o], Page(pfn, true, z, s.heads[z]));
  }

  /** The descriptors from `from` on are those of consecutive pages. */
  predicate Consecutive(pfd: seq<Page>, from: nat, pfn: nat) {
    forall d :: from <= d < |pfd| ==> pfd[d].pfn == pfn + (d - from)
  }

  /** Adding the range to the reverse map describes the new descriptors. */
  lemma RangeAdded(pfd: seq<Page>, rmap: seq<Rmap>, pfd': seq<Page>, r: Rmap)
    requires Described(pfd, rmap) && |pfd| <= |pfd'| && (forall d :: 0 <= d < |pfd| ==> pfd'[d].pfn == pfd[d].pfn)
    requires r.start == |pfd| && r.base % PAGE == 0 && r.len % PAGE == 0 && |pfd'| == r.start + PagesIn(r)
    requires Consecutive(pfd', r.start, r.base / PAGE)
    ensures Described(pfd', rmap + [r])
  {
    var all := rmap + [r];
    forall i | 0 <= i < |all|
      ensures RangeOk(pfd', all[i])
    {
      if i < |rmap| {
        assert RangeOk(pfd, rmap[i]);
      }
      forall k | 0 <= k < PagesIn(all[i])
        ensures Describes(pfd', all[i], k)
      {
        if i < |rmap| {
          assert Describes(pfd, rmap[i], k);
        }
      }
    }
    forall d | 0 <= d < |pfd'|
      ensures HasRange(all, d)
    {
      if d < |pfd| {
        assert HasRange(rmap, d);
        var i :| 0 <= i < |rmap| && Belongs(rmap[i], d);
        assert Belongs(all[i], d);
      } else {
        assert Belongs(all[|rmap|], d);
      }
    }
  }

  /** One page of pfdtable_add_range(): page_init(), page_assign_zone() and the freelist. */
  method AddPage(a: PageAllocator, pfn: nat)
    requires ZonesOk(a.View()) && pfn * PAGE + PAGE <= PHYS_END_MAX && |a.pfd| < a.pfdEnd
    modifies a`pfd, a`heads, a`counts, a`lists
    ensures ZonesOk(a.View()) && a.View() == Grown(old(a.View()), pfn) && a.rmap == old(a.rmap)
  {
    ghost var s := a.View();
    GrownOk(s, pfn);
    hide ZonesOk, ZoneOf;
    var z, d := ZoneOf(pfn), |a.pfd|;
    a.pfd := a.pfd + [Page(pfn, true, z, a.heads[z])];
    a.heads, a.counts := a.heads[z := d], a.counts[z := a.counts[z] + 1];
    a.lists := a.lists[z := [d] + a.lists[z]];
    assert a.View() == Grown(s, pfn);
  }

  /** pfdtable_add_range() and rmap_add_range(): the pages of a range get descriptors, all free, and the range enters
      the reverse map. */
  method AddRange(a: PageAllocator, base: nat, len: nat)
    requires Ok(a.View()) && base % PAGE == 0 && len % PAGE == 0 && 0 < len && base + len <= PHYS_END_MAX
    requires |a.pfd| + len / PAGE <= a.pfdEnd && |a.rmap| < a.rmapEnd
    modifies a`pfd, a`heads, a`counts, a`lists, a`rmap
    ensures Ok(a.View()) && |a.pfd| == |old(a.pfd)| + len / PAGE &&
            a.rmap == old(a.rmap) + [Rmap(base, len, |old(a.pfd)|)]
    ensures a.pfd[..|old(a.pfd)|] == old(a.pfd) && forall d :: |old(a.pfd)| <= d < |a.pfd| ==> a.pfd[d].free
    ensures Consecutive(a.pfd, |old(a.pfd)|, base / PAGE)
  {
    ghost var pfd := a.pfd;
    var r := Rmap(base, len, |a.pfd|);
    a.rmap := a.rmap + [r];
    var start, end := base, base + len;
    ghost var k := 0;
    while start != end
      invariant ZonesOk(a.View()) && k <= len / PAGE && start == base + k * PAGE && |a.pfd| == |pfd| + k
      invariant a.pfd[..|pfd|] == pfd && Consecutive(a.pfd, |pfd|, base / PAGE) && a.rmap == old(a.rmap) + [r]
      invariant forall d :: |pfd| <= d < |a.pfd| ==> a.pfd[d].free
    {
      NextPage(base, len, k);
      ghost var before := a.pfd;
      AddPage(a, start / PAGE);
      assert a.pfd == before + [a.pfd[|before|]];
      start := start + PAGE;
      k := k + 1;
    }
    assert forall d :: 0 <= d < |pfd| ==> a.pfd[d] == a.pfd[..|pfd|][d];
    RangeAdded(pfd, old(a.rmap), a.pfd, r);
  }

  lemma NextPage(base: nat, len: nat, k: nat)
    requires base % PAGE == 0 && len % PAGE == 0 && k <= len / PAGE && base + k * PAGE != base + len &&
             base + len <= PHYS_END_MAX
    ensures k < len / PAGE && (base + k * PAGE) / PAGE == base / PAGE + k
    ensures ((base + k * PAGE) / PAGE) * PAGE + PAGE <= PHYS_END_MAX
  {
  }
}
