/** The page frame descriptors of mm/page_alloc.c: zone freelists threaded through the descriptors, and the reverse
    map from addresses to descriptors. */
module FreePages {

  const PAGE := 4096
  const ZONE_1GB := 0
  const ZONE_ANY := 1
  const NR_ZONES := 2

  /** KERN_PHYS_END_MAX */
  const PHYS_END_MAX := 0x40_0000_0000

  /** The index that stands for a NULL pointer. */
  const NULL := -1

  /** struct page: `next` is the index of another descriptor. */
  datatype Page = Page(pfn: nat, free: bool, zone: nat, next: int)

  function ZoneStart(z: nat): nat { if z == ZONE_1GB then 0x10_0000 else 0 }

  function ZoneEnd(z: nat): nat { if z == ZONE_1GB then 0x4000_0000 else PHYS_END_MAX }

  predicate InZone(pfn: nat, z: nat) { ZoneStart(z) <= pfn * PAGE && pfn * PAGE + PAGE <= ZoneEnd(z) }

  /** page_assign_zone(): the zone of highest priority, which is the one with the lowest number, that covers the
      page. */
  function ZoneOf(pfn: nat): (z: nat)
    requires pfn * PAGE + PAGE <= PHYS_END_MAX
    ensures z < NR_ZONES && InZone(pfn, z) && forall y: nat :: y < NR_ZONES && InZone(pfn, y) ==> z <= y
  {
    if InZone(pfn, ZONE_1GB) then ZONE_1GB else ZONE_ANY
  }

  /** Pages from 1 MB up to 1 GB are in the first zone, the others up to 256 GB in the second. */
  lemma ZonesSplit(pfn: nat)
    requires pfn < 0x400_0000
    ensures ZoneOf(pfn) == if 0x100 <= pfn < 0x4_0000 then 0 else 1
  {
  }

  predicate Distinct(s: seq<nat>) { forall j, k :: 0 <= j < k < |s| ==> s[j] != s[k] }

  predicate LinkedAt(pfd: seq<Page>, z: nat, list: seq<nat>, k: nat)
    requires k < |list|
  {
    && list[k] < |pfd| && pfd[list[k]].free && pfd[list[k]].zone == z
    && pfd[list[k]].next == if k + 1 < |list| then list[k + 1] else NULL
  }

  /** One zone: its freelist is acyclic and holds exactly its free pages, each once; the counter is its length. */
  ghost predicate ZoneOk(pfd: seq<Page>, z: nat, head: int, count: nat, list: seq<nat>) {
    && head == (if list == [] then NULL else list[0])
    && (forall k :: 0 <= k < |list| ==> LinkedAt(pfd, z, list, k))
    && Distinct(list) && count == |list|
    && (forall d :: 0 <= d < |pfd| && pfd[d].free && pfd[d].zone == z ==> d in list)
  }

  /** Descriptors with zones that cover their pages. */
  predicate PagesOk(pfd: seq<Page>) {
    forall d :: 0 <= d < |pfd| ==> PageOk(pfd[d])
  }

  predicate PageOk(p: Page) { p.zone < NR_ZONES && InZone(p.pfn, p.zone) }

  /** Changing a descriptor that a zone neither lists nor gains. */
  lemma ZoneFrame(pfd: seq<Page>, z: nat, head: int, count: nat, list: seq<nat>, d: nat, p: Page)
    requires ZoneOk(pfd, z, head, count, list) && d < |pfd| && p.zone == pfd[d].zone != z
    ensures ZoneOk(pfd[d := p], z, head, count, list)
  {
    var pfd' := pfd[d := p];
    forall k | 0 <= k < |list|
      ensures LinkedAt(pfd', z, list, k)
    {
      assert LinkedAt(pfd, z, list, k);
    }
  }

  /** Taking the first page. */
  lemma ZonePop(pfd: seq<Page>, z: nat, head: int, count: nat, list: seq<nat>)
    requires ZoneOk(pfd, z, head, count, list) && list != []
    ensures list[0] < |pfd| && head == list[0] && pfd[list[0]].free && pfd[list[0]].zone == z && 0 < count
    ensures ZoneOk(pfd[list[0] := pfd[list[0]].(free := false)], z, pfd[list[0]].next, count - 1, list[1..])
  {
    var d, rest := list[0], list[1..];
    assert LinkedAt(pfd, z, list, 0);
    var pfd' := pfd[d := pfd[d].(free := false)];
    forall k | 0 <= k < |rest|
      ensures LinkedAt(pfd', z, rest, k)
    {
      assert LinkedAt(pfd, z, list, k + 1) && list[k + 1] != d;
    }
    assert list == [d] + rest;
  }

  /** Putting a page in front. */
  lemma ZonePush(pfd: seq<Page>, z: nat, head: int, count: nat, list: seq<nat>, d: nat, pfn: nat)
    requires ZoneOk(pfd, z, head, count, list) && d < |pfd| && !pfd[d].free && pfd[d].zone == z
    ensures ZoneOk(pfd[d := Page(pfn, true, z, head)], z, d, count + 1, [d] + list)
  {
    var all, pfd' := [d] + list, pfd[d := Page(pfn, true, z, head)];
    forall k | 0 <= k < |all|
      ensures LinkedAt(pfd', z, all, k) && (k > 0 ==> all[k] == list[k - 1] != d)
    {
      if k > 0 {
        assert LinkedAt(pfd, z, list, k - 1);
      }
    }
    hide LinkedAt;
    forall e | 0 <= e < |pfd'| && pfd'[e].free && pfd'[e].zone == z
      ensures e in all
    {
      if e != d {
        assert e in list;
      }
    }
  }

  /** A new descriptor at the end of the table, in use until it is put into a freelist. */
  lemma ZoneExtend(pfd: seq<Page>, z: nat, head: int, count: nat, list: seq<nat>, p: Page)
    requires ZoneOk(pfd, z, head, count, list) && (p.zone != z || !p.free)
    ensures ZoneOk(pfd + [p], z, head, count, list)
  {
    var pfd' := pfd + [p];
    forall k | 0 <= k < |list|
      ensures LinkedAt(pfd', z, list, k)
    {
      assert LinkedAt(pfd, z, list, k);
    }
  }

  /** struct rmap: a range of memory and its first descriptor. */
  datatype Rmap = Rmap(base: nat, len: nat, start: nat)

  function PagesIn(r: Rmap): nat { r.len / PAGE }

  /** The descriptors of a range are consecutive. */
  predicate RangeOk(pfd: seq<Page>, r: Rmap) {
    && r.base % PAGE == 0 && r.len % PAGE == 0 && r.start + PagesIn(r) <= |pfd|
    && forall k :: 0 <= k < PagesIn(r) ==> Describes(pfd, r, k)
  }

  /** Descriptor `k` of a range is that of its page `k`. */
  predicate Describes(pfd: seq<Page>, r: Rmap, k: nat) {
    r.start + k < |pfd| && pfd[r.start + k].pfn == r.base / PAGE + k
  }

  predicate Belongs(r: Rmap, d: nat) { r.start <= d < r.start + PagesIn(r) }

  predicate Covers(r: Rmap, paddr: nat) { r.base <= paddr < r.base + r.len }

  /** No two ranges overlap. */
  predicate RangesApart(rmap: seq<Rmap>) {
    forall i, j :: 0 <= i < j < |rmap| ==>
                     rmap[i].base + rmap[i].len <= rmap[j].base || rmap[j].base + rmap[j].len <= rmap[i].base
  }

  /** Every descriptor belongs to a range. */
  ghost predicate Described(pfd: seq<Page>, rmap: seq<Rmap>) {
    && (forall i :: 0 <= i < |rmap| ==> RangeOk(pfd, rmap[i]))
    && (forall d :: 0 <= d < |pfd| ==> HasRange(rmap, d))
  }

  predicate HasRange(rmap: seq<Rmap>, d: nat) { exists i :: 0 <= i < |rmap| && Belongs(rmap[i], d) }

  /** The page of descriptor `k` of a range lies in the range. */
  lemma RangePage(pfd: seq<Page>, r: Rmap, k: nat, paddr: nat)
    requires RangeOk(pfd, r) && k < PagesIn(r) && paddr == pfd[r.start + k].pfn * PAGE
    ensures Describes(pfd, r, k)
    ensures Covers(r, paddr) && (paddr - r.base) / PAGE == k && paddr + PAGE <= r.base + r.len
  {
    assert Describes(pfd, r, k);
    assert r.base == (r.base / PAGE) * PAGE && r.len == PagesIn(r) * PAGE;
  }
}
