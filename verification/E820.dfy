/** The memory map of the firmware (chapter 14 of the ACPI 4.0 specification) as arch/ia64/e820.c and
    arch/ia64/memory.c use it: size the page allocator's tables in a first pass and fill them in a second. */
module E820 {
  import opened Arith
  import opened FreePages
  import opened PageAlloc

  datatype Kind = Avail | Reserved | ErrorMem

  datatype MemRange = MemRange(base: nat, len: nat, kind: Kind)

  /** The available bytes and ranges among the first `k` ranges. */
  function AvailLen(rs: seq<MemRange>, k: nat): nat
    requires k <= |rs|
  {
    if k == 0 then 0 else AvailLen(rs, k - 1) + if rs[k - 1].kind == Avail then rs[k - 1].len else 0
  }

  function AvailCount(rs: seq<MemRange>, k: nat): nat
    requires k <= |rs|
  {
    if k == 0 then 0 else AvailCount(rs, k - 1) + if rs[k - 1].kind == Avail then 1 else 0
  }

  datatype Setup = Setup(ranges: nat, pages: nat, physEnd: nat)

  /** build_memory_setup() */
  method BuildMemorySetup(rs: seq<MemRange>) returns (setup: Setup)
    ensures setup.ranges == AvailCount(rs, |rs|) && setup.pages == AvailLen(rs, |rs|) / PAGE
    ensures forall i :: 0 <= i < |rs| && rs[i].kind == Avail ==> rs[i].base + rs[i].len <= setup.physEnd
    ensures setup.physEnd != 0 ==>
              exists i :: 0 <= i < |rs| && rs[i].kind == Avail && rs[i].base + rs[i].len == setup.physEnd
  {
    var physEnd, availLen, availRanges := 0, 0, 0;
    for i := 0 to |rs|
      invariant availRanges == AvailCount(rs, i) && availLen == AvailLen(rs, i)
      invariant forall j :: 0 <= j < i && rs[j].kind == Avail ==> rs[j].base + rs[j].len <= physEnd
      invariant physEnd != 0 ==> exists j :: 0 <= j < i && rs[j].kind == Avail && rs[j].base + rs[j].len == physEnd
    {
      if rs[i].kind == Avail {
        availLen := availLen + rs[i].len;
        availRanges := availRanges + 1;
        var end := rs[i].base + rs[i].len;
        if end > physEnd {
          physEnd := end;
        }
      }
    }
    setup := Setup(availRanges, availLen / PAGE, physEnd);
  }

  /** Page `f` lies wholly in the range and not in the kernel's memory, which ends at `kmem`. */
  predicate WholePage(r: MemRange, kmem: nat, f: nat) {
    r.base <= f * PAGE && f * PAGE + PAGE <= r.base + r.len && kmem <= f * PAGE
  }

  /** e820_sanitize_range(): cut an available range down to its whole pages above the kernel, or drop it. */
  method Sanitize(r: MemRange, kmem: nat) returns (ok: bool, s: MemRange)
    requires r.kind == Avail && kmem % PAGE == 0
    ensures ok <==> exists f :: WholePage(r, kmem, f)
    ensures ok ==> s == Sane(r, kmem) && 0 < s.len
    ensures !ok ==>
              Left(r, kmem) == 0 &&
              s == (if RoundUp(r.base, PAGE) < RoundDown(r.base + r.len, PAGE) then r else r.(kind := ErrorMem))
  {
    var start, end := RoundUp(r.base, PAGE), RoundDown(r.base + r.len, PAGE);
    NoPage(r, kmem);
    if end <= start {
      return false, r.(kind := ErrorMem);
    }
    if end <= kmem {
      return false, r;
    }
    if start < kmem {
      start := kmem;
    }
    FirstPage(r, kmem, start, end);
    return true, r.(base := start, len := end - start);
  }

  /** What is left of an available range. */
  function Sane(r: MemRange, kmem: nat): MemRange {
    var start, end := Max(RoundUp(r.base, PAGE), kmem), RoundDown(r.base + r.len, PAGE);
    if end <= start || end <= RoundUp(r.base, PAGE) then r.(len := 0) else r.(base := start, len := end - start)
  }

  lemma NoPage(r: MemRange, kmem: nat)
    requires kmem % PAGE == 0
    ensures RoundDown(r.base + r.len, PAGE) <= RoundUp(r.base, PAGE) || RoundDown(r.base + r.len, PAGE) <= kmem ==>
              forall f :: !WholePage(r, kmem, f)
  {
    var start, end := RoundUp(r.base, PAGE), RoundDown(r.base + r.len, PAGE);
    assert start % PAGE == 0 && end % PAGE == 0;
    forall f: nat | WholePage(r, kmem, f)
      ensures start <= f * PAGE && f * PAGE + PAGE <= end && kmem <= f * PAGE
    {
      assert (f * PAGE) % PAGE == 0 && (f * PAGE + PAGE) % PAGE == 0;
    }
  }

  lemma FirstPage(r: MemRange, kmem: nat, start: nat, end: nat)
    requires kmem % PAGE == 0 && start == Max(RoundUp(r.base, PAGE), kmem) && end == RoundDown(r.base + r.len, PAGE) &&
             start < end
    ensures WholePage(r, kmem, start / PAGE)
  {
    assert start % PAGE == 0 && end % PAGE == 0;
  }

  /** The pages that a range contributes. */
  function Left(r: MemRange, kmem: nat): nat {
    if r.kind == Avail then Sane(r, kmem).len / PAGE else 0
  }

  /** A sanitised range has whole pages, above the kernel and inside the range. */
  lemma SaneFacts(r: MemRange, kmem: nat)
    requires kmem % PAGE == 0
    ensures Sane(r, kmem).len % PAGE == 0 && Sane(r, kmem).len <= r.len && Left(r, kmem) * PAGE <= r.len
    ensures 0 < Sane(r, kmem).len ==>
              && Sane(r, kmem).base % PAGE == 0 && kmem <= Sane(r, kmem).base
              && r.base <= Sane(r, kmem).base && Sane(r, kmem).base + Sane(r, kmem).len <= r.base + r.len
  {
    var start, end := Max(RoundUp(r.base, PAGE), kmem), RoundDown(r.base + r.len, PAGE);
    assert start % PAGE == 0 && end % PAGE == 0;
  }

  function LeftPages(rs: seq<MemRange>, kmem: nat, k: nat): nat
    requires k <= |rs|
  {
    if k == 0 then 0 else LeftPages(rs, kmem, k - 1) + Left(rs[k - 1], kmem)
  }

  /** Sizing is sufficient: what is left after sanitising never exceeds what was counted. */
  lemma {:induction false} Sufficient(rs: seq<MemRange>, kmem: nat, k: nat)
    requires k <= |rs| && kmem % PAGE == 0
    ensures LeftPages(rs, kmem, k) * PAGE <= AvailLen(rs, k)
  {
    if k > 0 {
      Sufficient(rs, kmem, k - 1);
      SaneFacts(rs[k - 1], kmem);
    }
  }

  lemma {:induction false} LeftMonotone(rs: seq<MemRange>, kmem: nat, j: nat, k: nat)
    requires j <= k <= |rs|
    ensures LeftPages(rs, kmem, j) <= LeftPages(rs, kmem, k) && AvailCount(rs, j) <= AvailCount(rs, k)
  {
    if j < k {
      LeftMonotone(rs, kmem, j, k - 1);
    }
  }

  /** There is room for the next range. */
  lemma RoomForNext(rs: seq<MemRange>, kmem: nat, i: nat)
    requires i < |rs| && kmem % PAGE == 0 && rs[i].kind == Avail
    ensures LeftPages(rs, kmem, i) + Left(rs[i], kmem) <= AvailLen(rs, |rs|) / PAGE
    ensures AvailCount(rs, i) < AvailCount(rs, |rs|)
  {
    LeftMonotone(rs, kmem, i + 1, |rs|);
    Sufficient(rs, kmem, |rs|);
  }

  predicate MemDisjoint(rs: seq<MemRange>) {
    forall i, j :: 0 <= i < j < |rs| && rs[i].kind == Avail && rs[j].kind == Avail ==>
                     rs[i].base + rs[i].len <= rs[j].base || rs[j].base + rs[j].len <= rs[i].base
  }

  /** Range `r` of the reverse map comes from range `i` of the memory map. */
  predicate From(rs: seq<MemRange>, r: Rmap, i: nat) {
    i < |rs| && rs[i].kind == Avail && rs[i].base <= r.base && r.base + r.len <= rs[i].base + rs[i].len
  }

  /** Each range of the reverse map comes from its own range of the memory map. */
  predicate Origins(rs: seq<MemRange>, rmap: seq<Rmap>, origin: seq<nat>, k: nat) {
    && |origin| == |rmap|
    && (forall j :: 0 <= j < |rmap| ==> From(rs, rmap[j], origin[j]) && origin[j] < k)
    && (forall i, j :: 0 <= i < j < |rmap| ==> origin[i] < origin[j])
  }

  lemma OriginsApart(rs: seq<MemRange>, rmap: seq<Rmap>, origin: seq<nat>, k: nat)
    requires Origins(rs, rmap, origin, k) && MemDisjoint(rs)
    ensures RangesApart(rmap)
  {
    forall i, j | 0 <= i < j < |rmap|
      ensures rmap[i].base + rmap[i].len <= rmap[j].base || rmap[j].base + rmap[j].len <= rmap[i].base
    {
      assert From(rs, rmap[i], origin[i]) && From(rs, rmap[j], origin[j]) && origin[i] < origin[j];
    }
  }

  /** Some descriptor stands for page `f`. */
  ghost predicate HasPage(pfd: seq<Page>, f: nat) { exists d :: 0 <= d < |pfd| && pfd[d].pfn == f }

  /** Page `f` lies wholly in one of the first `k` available ranges, above the kernel. */
  ghost predicate Usable(rs: seq<MemRange>, kmem: nat, k: nat, f: nat) {
    exists i :: 0 <= i < k && i < |rs| && rs[i].kind == Avail && WholePage(rs[i], kmem, f)
  }

  /** The descriptors stand for exactly the pages that lie wholly in the first `k` available ranges. */
  ghost predicate PagesExact(pfd: seq<Page>, rs: seq<MemRange>, kmem: nat, k: nat) {
    forall f: nat :: HasPage(pfd, f) <==> Usable(rs, kmem, k, f)
  }

  /** The whole pages of a range are those of its sanitised part. */
  lemma SanePages(r: MemRange, kmem: nat, f: nat)
    requires kmem % PAGE == 0 && 0 < Sane(r, kmem).len
    ensures var s := Sane(r, kmem);
            WholePage(r, kmem, f) <==> s.base / PAGE <= f < s.base / PAGE + s.len / PAGE
  {
    SaneFacts(r, kmem);
    var start, end := Max(RoundUp(r.base, PAGE), kmem), RoundDown(r.base + r.len, PAGE);
    assert start % PAGE == 0 && end % PAGE == 0;
    assert (f * PAGE) % PAGE == 0 && (f * PAGE + PAGE) % PAGE == 0;
  }

  /** A range that contributes nothing. */
  lemma PagesSkip(pfd: seq<Page>, rs: seq<MemRange>, kmem: nat, k: nat)
    requires k < |rs| && PagesExact(pfd, rs, kmem, k)
    requires rs[k].kind == Avail ==> !exists f :: WholePage(rs[k], kmem, f)
    ensures PagesExact(pfd, rs, kmem, k + 1)
  {
    forall f: nat
      ensures HasPage(pfd, f) <==> Usable(rs, kmem, k + 1, f)
    {
      assert HasPage(pfd, f) <==> Usable(rs, kmem, k, f);
    }
  }

  /** A range whose pages were added. */
  lemma PagesAdded(before: seq<Page>, pfd: seq<Page>, rs: seq<MemRange>, kmem: nat, k: nat)
    requires k < |rs| && kmem % PAGE == 0 && PagesExact(before, rs, kmem, k) && before <= pfd
    requires rs[k].kind == Avail && 0 < Sane(rs[k], kmem).len && |pfd| == |before| + Sane(rs[k], kmem).len / PAGE
    requires Consecutive(pfd, |before|, Sane(rs[k], kmem).base / PAGE)
    ensures PagesExact(pfd, rs, kmem, k + 1)
  {
    hide Sane, WholePage;
    forall f: nat
      ensures HasPage(pfd, f) <==> Usable(rs, kmem, k + 1, f)
    {
      SanePages(rs[k], kmem, f);
      assert HasPage(before, f) <==> Usable(rs, kmem, k, f);
      var first := Sane(rs[k], kmem).base / PAGE;
      if WholePage(rs[k], kmem, f) {
        assert pfd[|before| + (f - first)].pfn == f;
      }
      if HasPage(before, f) {
        var d :| 0 <= d < |before| && before[d].pfn == f;
        assert pfd[d].pfn == f;
      }
    }
  }

  /** The tables hold the ranges before number `k`. */
  ghost predicate Filled(a: PageAllocator, rs: seq<MemRange>, kmem: nat, k: nat, origin: seq<nat>)
    requires k <= |rs|
    reads a
  {
    && Ok(a.View()) && |a.pfd| == LeftPages(rs, kmem, k) && |a.rmap| <= AvailCount(rs, k)
    && PagesExact(a.pfd, rs, kmem, k) && Origins(rs, a.rmap, origin, k) && forall d :: 0 <= d < |a.pfd| ==>
                                                                                         a.pfd[d].free
  }

  /** One range of the second pass: its sanitised part fits into the tables. */
  method FillRange(a: PageAllocator, rs: seq<MemRange>, kmem: nat, i: nat, ghost origin: seq<nat>)
    returns (ghost origin': seq<nat>)
    requires kmem % PAGE == 0 && i < |rs| && (rs[i].kind == Avail ==> rs[i].base + rs[i].len <= PHYS_END_MAX)
    requires Filled(a, rs, kmem, i, origin) && a.pfdEnd == AvailLen(rs, |rs|) / PAGE &&
             a.rmapEnd == AvailCount(rs, |rs|)
    modifies a
    ensures Filled(a, rs, kmem, i + 1, origin')
  {
    origin' := origin;
    if rs[i].kind != Avail {
      PagesSkip(a.pfd, rs, kmem, i);
      return;
    }
    var ok, s := Sanitize(rs[i], kmem);
    if !ok {
      PagesSkip(a.pfd, rs, kmem, i);
      return;
    }
    SaneFacts(rs[i], kmem);
    RoomForNext(rs, kmem, i);
    ghost var pfd := a.pfd;
    assert kmem <= s.base && |a.pfd| + s.len / PAGE <= a.pfdEnd && |a.rmap| + 1 <= a.rmapEnd;
    hide Ok;
    AddRange(a, s.base, s.len);
    assert forall d :: 0 <= d < |pfd| ==> a.pfd[d] == a.pfd[..|pfd|][d];
    PagesAdded(pfd, a.pfd, rs, kmem, i);
    origin' := origin + [i];
  }

  /** arch_memory_init(): no alignment or table-overflow assertion can fail, for any memory map below the supported end
      of physical memory; `kmem` is where the kernel's own memory ends. */
  method ArchMemoryInit(rs: seq<MemRange>, kmem: nat) returns (a: PageAllocator)
    requires kmem % PAGE == 0 &&
             forall i :: 0 <= i < |rs| && rs[i].kind == Avail ==> rs[i].base + rs[i].len <= PHYS_END_MAX
    ensures fresh(a) && Ok(a.View()) && |a.pfd| == LeftPages(rs, kmem, |rs|)
    ensures |a.pfd| <= a.pfdEnd && |a.rmap| <= a.rmapEnd
    ensures MemDisjoint(rs) ==>
              RangesApart(a.rmap) && forall d, e :: 0 <= d < e < |a.pfd| ==> a.pfd[d].pfn != a.pfd[e].pfn
    ensures forall d :: 0 <= d < |a.pfd| ==> a.pfd[d].free && kmem <= a.pfd[d].pfn * 4096
    ensures forall f: nat :: HasPage(a.pfd, f) <==>
                             exists i :: 0 <= i < |rs| && rs[i].kind == Avail && WholePage(rs[i], kmem, f)
  {
    var setup := BuildMemorySetup(rs);
    a := new PageAllocator(setup.ranges, setup.pages);
    ghost var origin: seq<nat> := [];
    hide Ok;
    for i := 0 to |rs|
      invariant fresh(a) && Filled(a, rs, kmem, i, origin)
    {
      origin := FillRange(a, rs, kmem, i, origin);
    }
    Sufficient(rs, kmem, |rs|);
    forall d | 0 <= d < |a.pfd|
      ensures kmem <= a.pfd[d].pfn * 4096
    {
      assert HasPage(a.pfd, a.pfd[d].pfn) && Usable(rs, kmem, |rs|, a.pfd[d].pfn);
    }
    if MemDisjoint(rs) {
      OriginsApart(rs, a.rmap, origin, |rs|);
      forall d, e | 0 <= d < e < |a.pfd|
        ensures a.pfd[d].pfn != a.pfd[e].pfn
      {
        if a.pfd[d].pfn == a.pfd[e].pfn {
          OneDescriptor(a.View(), d, e);
        }
      }
    }
  }
}
