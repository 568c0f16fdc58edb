/** map_range_kernel(), vaddr_is_mapped(), vm_kmap() and vm_init() of mm/vm_map.c: the kernel's address space. */
module VmKernel {
  import opened Options
  import opened Arith
  import opened Paging
  import opened PagingRange
  import opened VmMap

  const PAGE_SIZE := 4096
  const PAGE_SIZE_2MB := 0x20_0000

  /** KERN_PAGE_OFFSET and KTEXT_PAGE_OFFSET, as page numbers of the 48 translated bits. */
  const KERN_PAGE: nat := 0xF_F800_0000
  const KTEXT_PAGE: nat := 0xF_FFF8_0000
  const KTEXT_PAGES := 0x2_0000
  const GRANULE := 512

  /** KERN_PHYS_END_MAX, in bytes and in pages. */
  const PHYS_END_MAX := 0x40_0000_0000
  const WINDOW_PAGES := 0x400_0000

  const ROOT_POS := Pos(4, 0)

  /** The range is mapped linearly and all other walks are as before, if and only if it is good; otherwise its first
      page is not mapped. */
  lemma LinearIffGood(m: Tables, pos: map<nat, Pos>, m': Tables, pos': map<nat, Pos>, root: nat, from: nat, to: nat,
                      p: nat)
    requires Effect(m, pos, m', pos', root, from, to, to, p) && pos[root] == ROOT_POS && from < to <= Span(4)
    requires Walk(m, root, 4, from) != Some(p)
    ensures Linear(m, m', root, ROOT_POS, from, to, p) <==> Good(4, from, to)
  {
    if !Good(4, from, to) {
      assert Faulty(ROOT_POS, from, to) && Inside(from, ROOT_POS);
      assert Walk(m', root, 4, from) != MapsTo(m, root, ROOT_POS, from, to, p, from);
    }
  }

  /** A range that crosses a 2-MB boundary without starting on one is not good. */
  lemma CrossingIsBad(from: nat, to: nat)
    requires from < to && from / 512 != (to - 1) / 512 && from % 512 != 0 && from / 262144 == (to - 1) / 262144
    requires from / 134217728 == (to - 1) / 134217728
    ensures !Good(4, from, to)
  {
    assert !Good(2, from, to);
    assert !Good(3, from, to);
  }

  /** A call on such a range that returns has not mapped its first page. */
  lemma CrossingUnmapped(m: Tables, pos: map<nat, Pos>, m': Tables, pos': map<nat, Pos>, root: nat, from: nat, to: nat,
                         p: nat)
    requires Effect(m, pos, m', pos', root, from, to, to, p) && pos[root] == ROOT_POS && from < to <= Span(4)
    requires from / 512 != (to - 1) / 512 && from % 512 != 0 && from / 262144 == (to - 1) / 262144
    requires from / 134217728 == (to - 1) / 134217728
    ensures Walk(m', root, 4, from) == Walk(m, root, 4, from)
  {
    CrossingIsBad(from, to);
    hide Good, Walk, Kept, Linear;
    assert Faulty(ROOT_POS, from, to);
  }

  /** Pages 256 to 799: the call returns if there are four pages for tables. */
  lemma CrossingReturns()
    ensures Returns(4, 256, 800) && TablesFor(4, 256, 800) == 4
  {
    hide Returns, TablesFor;
    LevelTwo();
    assert Index(256, 3) == 0 == Index(799, 3) && Index(256, 4) == 0 == Index(799, 4);
    OnePart(3, 256, 800);
    OnePart(4, 256, 800);
  }

  lemma OnePart(l: nat, from: nat, to: nat)
    requires 2 <= l <= 4 && 0 < to && Index(from, l) == Index(to - 1, l) && from <= to <= from + Span(l)
    requires Returns(l - 1, from, to)
    ensures Returns(l, from, to)
    ensures TablesFor(l, from, to) == 1 + TablesFor(l - 1, from, to)
  {
    hide Index, TablesFor, TablesBelow;
    var i := Index(from, l);
    FirstPart(from, i, l);
    TurnTables(l, from, to, i, i, i, from, to);
    WholeTables(l, from, to);
    NoTables(l, from, to);
    OnlyPart(l, from, to, i);
  }

  lemma OnlyPart(l: nat, from: nat, to: nat, i: nat)
    requires 2 <= l <= 4 && 0 < to && i == Index(from, l) == Index(to - 1, l) && from <= to <= from + Span(l)
    requires from == PartStart(from, i, i, l) && Returns(l - 1, from, to)
    ensures Returns(l, from, to)
  {
    hide Index, Span, PartStart;
    assert PartReturns(l, from, to, i) == Returns(l - 1, from, to);
  }

  lemma LevelOne()
    ensures Returns(1, 256, 768) && Returns(1, 768, 800) && TablesFor(1, 256, 768) == 0 == TablesFor(1, 768, 800)
  {
  }

  lemma LevelTwo()
    ensures Returns(2, 256, 800) && TablesFor(2, 256, 800) == 2
  {
    hide TablesFor, TablesBelow, Returns, PartReturns;
    LevelOne();
    TwoEntries();
    TwoReturn();
    hide Index, PartStart;
    TurnTables(2, 256, 800, 0, 1, 0, 256, 768);
    TurnTables(2, 256, 800, 0, 1, 1, 768, 800);
    WholeTables(2, 256, 800);
    NoTables(2, 256, 800);
  }

  lemma TwoEntries()
    ensures Index(256, 2) == 0 && Index(799, 2) == 1
    ensures PartStart(256, 0, 0, 2) == 256 && PartStart(256, 1, 0, 2) == 768
  {
  }

  lemma TwoReturn()
    ensures Returns(2, 256, 800)
  {
    LevelOne();
    TwoEntries();
    hide Index, PartStart;
    assert PartReturns(2, 256, 800, 0) == Returns(1, 256, 768);
    assert PartReturns(2, 256, 800, 1) == Returns(1, 768, 800);
    assert Span(2) == 262144;
  }

  /** On empty tables that call returns, and its first page is not mapped. */
  method MapMisaligned(root: nat, pool: seq<nat>, p: nat) returns (vm: PageTables, ok: bool)
    requires Fresh(map[root := EmptyTable()], pool) && 4 <= |pool|
    ensures ok && vm.Valid() && Walk(vm.tables, root, 4, 256) == None
  {
    CrossingReturns();
    hide Returns, TablesFor, Walk, Kept, Linear;
    vm := new PageTables(root, pool);
    ghost var m, pos := vm.tables, vm.pos;
    ok := vm.MapRange(4, root, 256, 800, p);
    CrossingUnmapped(m, pos, vm.tables, vm.pos, root, 256, 800, p);
  }

  /** The kernel's two ranges are good. */
  lemma KernelRangesGood(pages: nat)
    requires 0 < pages <= WINDOW_PAGES
    ensures Good(4, KERN_PAGE, KERN_PAGE + pages) && Good(4, KTEXT_PAGE, KTEXT_PAGE + KTEXT_PAGES)
  {
    AlignedGood(3, KERN_PAGE, KERN_PAGE + pages);
    AlignedGood(2, KTEXT_PAGE, KTEXT_PAGE + KTEXT_PAGES);
    assert Good(3, KTEXT_PAGE, KTEXT_PAGE + KTEXT_PAGES);
  }

  /** A granule lies in one entry of each level. */
  lemma WithinOne(k: nat, n: nat)
    requires n == 1 || n == 512 || n == 262144
    ensures (512 * k) / (512 * n) == (512 * k + 511) / (512 * n)
  {
    var a, b := k / n, k % n;
    DivModSplit(n, k);
    assert 512 * k == a * (512 * n) + 512 * b && 512 * b + 511 < 512 * n;
    DivModUnique(512 * n, a, 512 * b);
    DivModUnique(512 * n, a, 512 * b + 511);
  }

  /** One 2-MB granule of the physical window is a good range. */
  lemma GranuleGood(g: nat)
    requires g * GRANULE < WINDOW_PAGES
    ensures Good(4, KERN_PAGE + g * GRANULE, KERN_PAGE + g * GRANULE + GRANULE)
    ensures KERN_PAGE + g * GRANULE + GRANULE <= KTEXT_PAGE
  {
    var from := KERN_PAGE + g * GRANULE;
    var k := g + KERN_PAGE / GRANULE;
    assert from == 512 * k;
    WithinOne(k, 1);
    WithinOne(k, 512);
    WithinOne(k, 262144);
    AlignedGood(1, from, from + GRANULE);
    assert Good(2, from, from + GRANULE);
    assert Good(3, from, from + GRANULE);
  }

  /** A page of the physical window walks to its own physical page, or to nothing. */
  predicate IsOwn(m: Tables, root: nat, page: nat) { Walk(m, root, 4, KERN_PAGE + page) == Some(page) }

  predicate IsNone(m: Tables, root: nat, page: nat) { Walk(m, root, 4, KERN_PAGE + page) == None }

  /** The granule is wholly mapped, or wholly unmapped. */
  ghost predicate GranuleOwn(m: Tables, root: nat, g: nat) {
    forall page :: g * GRANULE <= page < g * GRANULE + GRANULE ==> IsOwn(m, root, page)
  }

  ghost predicate GranuleNone(m: Tables, root: nat, g: nat) {
    forall page :: g * GRANULE <= page < g * GRANULE + GRANULE ==> IsNone(m, root, page)
  }

  /** What vm_init() establishes and vm_kmap() keeps. */
  ghost predicate Granular(m: Tables, root: nat) {
    forall g: nat :: g * GRANULE < WINDOW_PAGES ==> GranuleOwn(m, root, g) || GranuleNone(m, root, g)
  }

  /** Mapping one granule keeps the others. */
  lemma GranuleMapped(m: Tables, m': Tables, root: nat, g: nat)
    requires Granular(m, root) && g * GRANULE < WINDOW_PAGES
    requires Linear(m, m', root, ROOT_POS, KERN_PAGE + g * GRANULE, KERN_PAGE + g * GRANULE + GRANULE, g * GRANULE)
    ensures Granular(m', root) && GranuleOwn(m', root, g)
    ensures forall h: nat :: h * GRANULE < WINDOW_PAGES && GranuleOwn(m, root, h) ==> GranuleOwn(m', root, h)
  {
    forall h: nat | h * GRANULE < WINDOW_PAGES
      ensures h == g ==> GranuleOwn(m', root, h)
      ensures h != g && GranuleOwn(m, root, h) ==> GranuleOwn(m', root, h)
      ensures h != g && GranuleNone(m, root, h) ==> GranuleNone(m', root, h)
    {
      forall page | h * GRANULE <= page < h * GRANULE + GRANULE
        ensures Walk(m', root, 4, KERN_PAGE + page) == if h == g then Some(page) else Walk(m, root, 4, KERN_PAGE + page)
        ensures h != g ==>
                  IsOwn(m', root, page) == IsOwn(m, root, page) && IsNone(m', root, page) == IsNone(m, root, page)
      {
        assert Inside(KERN_PAGE + page, ROOT_POS);
      }
    }
  }

  /** The tables are in order and `root` is the top-level one. */
  ghost predicate Rooted(vm: PageTables, root: nat)
    reads vm
  {
    vm.Valid() && root in vm.tables && root in vm.pos && vm.pos[root] == ROOT_POS
  }

  /** vaddr_is_mapped(): the walk of the four levels, and the check of what it finds. */
  method VaddrIsMapped(vm: PageTables, root: nat, v: nat) returns (mapped: bool, frame: nat)
    requires Rooted(vm, root) && v < Span(4)
    ensures mapped == Walk(vm.tables, root, 4, v).Some? && (mapped ==> Walk(vm.tables, root, 4, v) == Some(frame))
  {
    frame := root;
    for l := 4 downto 0
      invariant l > 0 ==>
          frame in vm.tables && vm.pos[frame].level == l &&
          Walk(vm.tables, root, 4, v) == Walk(vm.tables, frame, l, v)
      invariant l == 0 ==> Walk(vm.tables, root, 4, v) == Some(frame)
    {
      var e := vm.tables[frame][Index(v, l + 1)];
      if e.Absent? {
        return false, 0;
      }
      frame := e.pfn;
    }
    return true, frame;
  }

  /** Walks of pages outside [from, to) are as before. */
  ghost predicate SameOutside(m: Tables, m': Tables, root: nat, from: nat, to: nat) {
    forall v: nat :: v < Span(4) && !(from <= v < to) ==> Walk(m', root, 4, v) == Walk(m, root, 4, v)
  }

  lemma LinearOutside(m: Tables, m': Tables, root: nat, from: nat, to: nat, p: nat, lo: nat, hi: nat)
    requires Linear(m, m', root, ROOT_POS, from, to, p) && lo <= from && to <= hi
    ensures SameOutside(m, m', root, lo, hi)
  {
    forall v: nat | v < Span(4) && !(lo <= v < hi)
      ensures Walk(m', root, 4, v) == Walk(m, root, 4, v)
    {
      assert Inside(v, ROOT_POS);
    }
  }

  lemma OutsideTrans(m: Tables, m1: Tables, m2: Tables, root: nat, lo: nat, hi: nat)
    requires SameOutside(m, m1, root, lo, hi) && SameOutside(m1, m2, root, lo, hi)
    ensures SameOutside(m, m2, root, lo, hi)
  {
  }

  /** map_range_kernel() of one granule of the physical window. */
  method MapGranule(vm: PageTables, root: nat, g: nat, ghost lo: nat, ghost hi: nat) returns (ok: bool)
    requires lo <= KERN_PAGE + g * GRANULE && KERN_PAGE + g * GRANULE + GRANULE <= hi
    requires Rooted(vm, root) && g * GRANULE < WINDOW_PAGES && Granular(vm.tables, root)
    modifies vm
    ensures vm.Valid() && (!ok ==> vm.pool == [])
    ensures ok ==> Rooted(vm, root) && Granular(vm.tables, root) && GranuleOwn(vm.tables, root, g)
    ensures ok ==> forall h: nat :: h * GRANULE < WINDOW_PAGES && GranuleOwn(old(vm.tables), root, h) ==>
                                      GranuleOwn(vm.tables, root, h)
    ensures ok ==> SameOutside(old(vm.tables), vm.tables, root, lo, hi)
  {
    GranuleGood(g);
    var from := KERN_PAGE + g * GRANULE;
    hide Good, Walk, Granular;
    ok := vm.MapRange(4, root, from, from + GRANULE, g * GRANULE);
    if ok {
      GranuleMapped(old(vm.tables), vm.tables, root, g);
      LinearOutside(old(vm.tables), vm.tables, root, from, from + GRANULE, g * GRANULE, lo, hi);
    }
  }

  /** The loop of vm_kmap() over the granules gs .. ge - 1: map those that are not. */
  method MapGranules(vm: PageTables, root: nat, gs: nat, ge: nat) returns (ok: bool)
    requires Rooted(vm, root) && Granular(vm.tables, root)
    requires ge * GRANULE <= WINDOW_PAGES
    modifies vm
    ensures vm.Valid() && (!ok ==> vm.pool == [])
    ensures ok ==> Rooted(vm, root) && Granular(vm.tables, root)
    ensures ok ==> forall g: nat :: gs <= g < ge ==> GranuleOwn(vm.tables, root, g)
    ensures (forall g: nat :: gs <= g < ge ==> GranuleOwn(old(vm.tables), root, g)) ==>
              ok && vm.tables == old(vm.tables) && vm.pool == old(vm.pool)
    ensures ok ==> SameOutside(old(vm.tables), vm.tables, root, KERN_PAGE + gs * GRANULE, KERN_PAGE + ge * GRANULE)
  {
    var g := gs;
    ghost var lo, hi := KERN_PAGE + gs * GRANULE, KERN_PAGE + ge * GRANULE;
    hide Walk, Tree, GranuleOwn, GranuleNone, Granular;
    while g < ge
      invariant Rooted(vm, root) && Granular(vm.tables, root)
      invariant forall h: nat :: gs <= h < g ==> GranuleOwn(vm.tables, root, h)
      invariant (forall h: nat :: gs <= h < ge ==> GranuleOwn(old(vm.tables), root, h)) ==>
                  vm.tables == old(vm.tables) && vm.pool == old(vm.pool)
      invariant gs <= g && SameOutside(old(vm.tables), vm.tables, root, lo, hi)
    {
      ghost var m := vm.tables;
      var mapped, frame := VaddrIsMapped(vm, root, KERN_PAGE + g * GRANULE);
      ProbeTells(vm.tables, root, g);
      if !mapped {
        ok := MapGranule(vm, root, g, lo, hi);
        if !ok {
          return false;
        }
        OutsideTrans(old(vm.tables), m, vm.tables, root, lo, hi);
      } else {
        assert frame == g * GRANULE;
      }
      g := g + 1;
    }
    return true;
  }

  /** Probing one address of a granule tells about the whole granule. */
  lemma ProbeTells(m: Tables, root: nat, g: nat)
    requires Granular(m, root) && g * GRANULE < WINDOW_PAGES
    ensures Walk(m, root, 4, KERN_PAGE + g * GRANULE).Some? <==> GranuleOwn(m, root, g)
    ensures GranuleOwn(m, root, g) ==> Walk(m, root, 4, KERN_PAGE + g * GRANULE) == Some(g * GRANULE)
  {
    var page := g * GRANULE;
    assert GranuleOwn(m, root, g) ==> IsOwn(m, root, page);
    assert GranuleNone(m, root, g) ==> IsNone(m, root, page);
  }

  /** vm_kmap(): map the 2-MB granules of a physical range, in bytes, into the window. Returns None where the source
      panics: the range is beyond the window, or no page is left for a table. */
  method VmKmap(vm: PageTables, root: nat, pstart: nat, len: nat) returns (ret: Option<nat>)
    requires Rooted(vm, root) && Granular(vm.tables, root) && 0 < len
    modifies vm
    ensures vm.Valid()
    ensures ret.None? ==> pstart + len >= PHYS_END_MAX || vm.pool == []
    ensures ret.Some? ==> pstart + len < PHYS_END_MAX && ret == Some(KERN_PAGE * PAGE_SIZE + pstart)
    ensures ret.Some? ==> Rooted(vm, root) && Granular(vm.tables, root)
    ensures ret.Some? ==> forall page :: pstart / PAGE_SIZE <= page <= (pstart + len - 1) / PAGE_SIZE ==>
                                           IsOwn(vm.tables, root, page)
    ensures ret.Some? ==> SameOutside(old(vm.tables), vm.tables, root, KERN_PAGE, KERN_PAGE + WINDOW_PAGES)
    ensures pstart + len < PHYS_END_MAX && Requested(old(vm.tables), root, pstart, len) ==>
              ret.Some? && vm.tables == old(vm.tables) && vm.pool == old(vm.pool)
    ensures ret.Some? ==> Requested(vm.tables, root, pstart, len)
  {
    var pend := pstart + len;
    if pend >= PHYS_END_MAX {
      return None;
    }
    var gs, ge := RoundDown(pstart, PAGE_SIZE_2MB) / PAGE_SIZE_2MB, RoundUp(pend, PAGE_SIZE_2MB) / PAGE_SIZE_2MB;
    GranulesOf(pstart, pend, gs, ge);
    hide Walk, Tree, GranuleNone, Granular;
    var ok := MapGranules(vm, root, gs, ge);
    if !ok {
      return None;
    }
    OwnPages(vm.tables, root, pstart, len, gs, ge);
    return Some(KERN_PAGE * PAGE_SIZE + pstart);
  }

  /** All granules that the request touches are mapped. */
  ghost predicate Requested(m: Tables, root: nat, pstart: nat, len: nat)
    requires 0 < len
  {
    forall g: nat :: pstart / PAGE_SIZE_2MB <= g <= (pstart + len - 1) / PAGE_SIZE_2MB ==> GranuleOwn(m, root, g)
  }

  lemma GranulesOf(pstart: nat, pend: nat, gs: nat, ge: nat)
    requires pstart < pend < PHYS_END_MAX
    requires gs == RoundDown(pstart, PAGE_SIZE_2MB) / PAGE_SIZE_2MB &&
             ge == RoundUp(pend, PAGE_SIZE_2MB) / PAGE_SIZE_2MB
    ensures gs == pstart / PAGE_SIZE_2MB && ge == (pend - 1) / PAGE_SIZE_2MB + 1 && ge * GRANULE <= WINDOW_PAGES
  {
    var a, b := RoundDown(pstart, PAGE_SIZE_2MB), RoundUp(pend, PAGE_SIZE_2MB);
    assert a % PAGE_SIZE_2MB == 0 && a <= pstart < a + PAGE_SIZE_2MB;
    assert b % PAGE_SIZE_2MB == 0 && pend <= b < pend + PAGE_SIZE_2MB;
  }

  lemma OwnPages(m: Tables, root: nat, pstart: nat, len: nat, gs: nat, ge: nat)
    requires 0 < len && gs == pstart / PAGE_SIZE_2MB && ge == (pstart + len - 1) / PAGE_SIZE_2MB + 1
    requires forall g: nat :: gs <= g < ge ==> GranuleOwn(m, root, g)
    ensures forall page :: pstart / PAGE_SIZE <= page <= (pstart + len - 1) / PAGE_SIZE ==> IsOwn(m, root, page)
  {
    forall page | pstart / PAGE_SIZE <= page <= (pstart + len - 1) / PAGE_SIZE
      ensures IsOwn(m, root, page)
    {
      var g := page / GRANULE;
      PageGranule(pstart, len, page, g);
      assert GranuleOwn(m, root, g);
    }
  }

  lemma PageGranule(pstart: nat, len: nat, page: nat, g: nat)
    requires 0 < len && pstart / PAGE_SIZE <= page <= (pstart + len - 1) / PAGE_SIZE && g == page / GRANULE
    ensures pstart / PAGE_SIZE_2MB <= g <= (pstart + len - 1) / PAGE_SIZE_2MB &&
            g * GRANULE <= page < g * GRANULE + GRANULE
  {
  }

  /** vm_init(): on empty tables, map the kernel text and `pages` pages of physical memory, rounded up to 2 MB. */
  method VmInit(vm: PageTables, root: nat, physEnd: nat) returns (ok: bool)
    requires Rooted(vm, root) && (forall v :: Walk(vm.tables, root, 4, v) == None) && 0 < physEnd < PHYS_END_MAX
    modifies vm
    ensures vm.Valid() && (!ok ==> vm.pool == [])
    ensures ok ==> Rooted(vm, root) && Granular(vm.tables, root)
    ensures ok ==> forall v: nat :: v < Span(4) ==>
                                      Walk(vm.tables, root, 4, v) ==
                                      Booted(v, RoundUp(physEnd, PAGE_SIZE_2MB) / PAGE_SIZE)
  {
    hide Good, Walk, Granular, Returns, TablesFor;
    var pages := RoundUp(physEnd, PAGE_SIZE_2MB) / PAGE_SIZE;
    WholeGranules(physEnd, pages);
    KernelRangesGood(pages);
    ghost var m := vm.tables;
    hide Tree, RoundUp;
    ok := vm.MapRange(4, root, KTEXT_PAGE, KTEXT_PAGE + KTEXT_PAGES, 0);
    if !ok {
      return;
    }
    ghost var m1 := vm.tables;
    ok := vm.MapRange(4, root, KERN_PAGE, KERN_PAGE + pages, 0);
    if ok {
      BootedWalks(m, m1, vm.tables, root, pages);
      BootedGranular(vm.tables, root, pages);
    }
  }

  /** The address space that vm_init() builds. */
  function Booted(v: nat, pages: nat): Option<nat> {
    if KERN_PAGE <= v < KERN_PAGE + pages then Some(v - KERN_PAGE)
    else if KTEXT_PAGE <= v < KTEXT_PAGE + KTEXT_PAGES then Some(v - KTEXT_PAGE)
    else None
  }

  lemma WholeGranules(physEnd: nat, pages: nat)
    requires 0 < physEnd < PHYS_END_MAX && pages == RoundUp(physEnd, PAGE_SIZE_2MB) / PAGE_SIZE
    ensures 0 < pages <= WINDOW_PAGES && pages % GRANULE == 0
  {
    var b := RoundUp(physEnd, PAGE_SIZE_2MB);
    assert b % PAGE_SIZE_2MB == 0 && physEnd <= b < physEnd + PAGE_SIZE_2MB;
  }

  lemma BootedWalks(m: Tables, m1: Tables, m2: Tables, root: nat, pages: nat)
    requires pages <= WINDOW_PAGES && forall v :: Walk(m, root, 4, v) == None
    requires Linear(m, m1, root, ROOT_POS, KTEXT_PAGE, KTEXT_PAGE + KTEXT_PAGES, 0)
    requires Linear(m1, m2, root, ROOT_POS, KERN_PAGE, KERN_PAGE + pages, 0)
    ensures forall v: nat :: v < Span(4) ==> Walk(m2, root, 4, v) == Booted(v, pages)
  {
    forall v: nat | v < Span(4)
      ensures Walk(m2, root, 4, v) == Booted(v, pages)
    {
      assert Inside(v, ROOT_POS);
    }
  }

  lemma BootedGranular(m: Tables, root: nat, pages: nat)
    requires pages % GRANULE == 0 && pages <= WINDOW_PAGES
    requires forall v: nat :: v < Span(4) ==> Walk(m, root, 4, v) == Booted(v, pages)
    ensures Granular(m, root)
  {
    forall g: nat | g * GRANULE < WINDOW_PAGES
      ensures GranuleOwn(m, root, g) || GranuleNone(m, root, g)
    {
      assert g * GRANULE < pages ==> g * GRANULE + GRANULE <= pages;
      forall page | g * GRANULE <= page < g * GRANULE + GRANULE
        ensures if g * GRANULE < pages then IsOwn(m, root, page) else IsNone(m, root, page)
      {
        var v: nat := KERN_PAGE + page;
        assert Walk(m, root, 4, v) == Booted(v, pages);
      }
    }
  }
}
