/** The free lists of mm/kmalloc.c and include/kmalloc.h, which live inside the freed buffers. Memory is a map of
    8-byte cells. */
module Buckets {
  import opened Arith

  const PAGE := 4096
  const MIN_IDX := 4
  const MAX_IDX := 12
  const FREE_SIG := 0xcafe_babe
  const ALLOC_SIG := 0xdead_beef
  const WORD := 0x1_0000_0000

  type Memory = map<nat, nat>

  function Cell(m: Memory, a: nat): nat { if a in m then m[a] else 0 }

  /** The low 32 bits of the second cell of a buffer. */
  function Signature(m: Memory, a: nat): nat { Cell(m, a + 8) % WORD }

  /** sign_buf() */
  function Sign(m: Memory, a: nat, sig: nat): Memory
    requires sig < WORD
  {
    m[a + 8 := (Cell(m, a + 8) / WORD) * WORD + sig]
  }

  lemma Signed(m: Memory, a: nat, sig: nat)
    requires sig < WORD
    ensures Signature(Sign(m, a, sig), a) == sig
    ensures forall c :: c != a + 8 ==> Cell(Sign(m, a, sig), c) == Cell(m, c)
  {
    DivModUnique(WORD, Cell(m, a + 8) / WORD, sig);
  }

  /** 1 << idx */
  function Size(i: nat): (s: nat)
    requires MIN_IDX <= i <= MAX_IDX
    ensures 16 <= s <= PAGE
  {
    if i == 4 then 16 else if i == 5 then 32 else if i == 6 then 64 else if i == 7 then 128 else if i == 8 then 256
    else if i == 9 then 512 else if i == 10 then 1024 else if i == 11 then 2048 else 4096
  }

  /** Sixteen bytes in bucket 4, and twice the size in each next one. */
  lemma Doubling(i: nat)
    requires MIN_IDX <= i < MAX_IDX
    ensures Size(4) == 16 && Size(i + 1) == 2 * Size(i) && Size(12) == 4096
  {
  }

  /** PAGE_SIZE / (1 << idx) */
  function Per(i: nat): (n: nat)
    requires MIN_IDX <= i <= MAX_IDX
    ensures 0 < n && n * Size(i) == PAGE
  {
    if i == 4 then 256 else if i == 5 then 128 else if i == 6 then 64 else if i == 7 then 32 else if i == 8 then 16
    else if i == 9 then 8 else if i == 10 then 4 else if i == 11 then 2 else 1
  }

  /** kmalloc(): the bucket for a size; none above a page. */
  function BucketFor(size: nat): (i: nat)
    requires 0 < size <= PAGE
    ensures MIN_IDX <= i <= MAX_IDX && size <= Size(i) && (i > MIN_IDX ==> Size(i - 1) < size)
  {
    if size <= 16 then 4 else if size <= 32 then 5 else if size <= 64 then 6 else if size <= 128 then 7
    else if size <= 256 then 8 else if size <= 512 then 9 else if size <= 1024 then 10 else if size <= 2048 then 11
    else 12
  }

  /** The pages that the allocator owns, with the bucket of each. */
  type Owners = map<nat, nat>

  predicate OwnersOk(owner: Owners) {
    forall p :: p in owner ==> 0 < p && MIN_IDX <= owner[p] <= MAX_IDX
  }

  /** A buffer of bucket `i` starts at `a`. */
  predicate IsSlot(owner: Owners, a: nat, i: nat)
    requires MIN_IDX <= i <= MAX_IDX
  {
    a / PAGE in owner && owner[a / PAGE] == i && a % Size(i) == 0
  }

  /** A buffer lies inside its page. */
  lemma SizeDivides(i: nat)
    requires MIN_IDX <= i <= MAX_IDX
    ensures 0 < PAGE / Size(i) && (PAGE / Size(i)) * Size(i) == PAGE && Size(i) % 8 == 0
  {
  }

  lemma Spread(b: nat, n: nat, r: nat, s: nat)
    ensures (b * n + r) * s == b * (n * s) + r * s
  {
    calc {
      (b * n + r) * s;
      (b * n) * s + r * s;
      b * (n * s) + r * s;
    }
  }

  lemma MulUp(r: nat, n: nat, s: nat)
    requires r < n
    ensures r * s + s <= n * s
  {
    TimesMonotone(r + 1, n, s);
    TimesIsMul(r + 1, s);
    TimesIsMul(n, s);
    assert (r + 1) * s == r * s + s;
  }

  lemma Parts(a: nat, s: nat, n: nat) returns (b: nat, r: nat)
    requires 0 < s && 0 < n && a % s == 0
    ensures r < n && a == b * (n * s) + r * s
  {
    var q := a / s;
    DivModSplit(s, a);
    DivModSplit(n, q);
    b, r := q / n, q % n;
    Spread(b, n, r, s);
  }

  /** A multiple of `s` lies in one page together with the `s` bytes from it on, if `n` times `s` is a page. */
  lemma InPage(a: nat, s: nat, n: nat)
    requires 0 < s && 0 < n && n * s == PAGE && a % s == 0
    ensures (a / PAGE) * PAGE <= a && a + s <= (a / PAGE) * PAGE + PAGE
  {
    var b, r := Parts(a, s, n);
    MulUp(r, n, s);
    DivModUnique(PAGE, b, r * s);
  }

  lemma EightDivides(a: nat, s: nat)
    requires 0 < s && a % s == 0 && s % 8 == 0
    ensures a % 8 == 0
  {
    var q, t := a / s, s / 8;
    DivModSplit(s, a);
    DivModSplit(8, s);
    assert a == q * (t * 8) == (q * t) * 8;
    DivModUnique(8, q * t, 0);
  }

  lemma SlotInPage(a: nat, i: nat)
    requires MIN_IDX <= i <= MAX_IDX && a % Size(i) == 0
    ensures (a / PAGE) * PAGE <= a && a + Size(i) <= (a / PAGE) * PAGE + PAGE && a % 8 == 0
  {
    hide Size;
    SizeDivides(i);
    InPage(a, Size(i), PAGE / Size(i));
    EightDivides(a, Size(i));
  }

  predicate Apart(a: nat, i: nat, b: nat, j: nat)
    requires MIN_IDX <= i <= MAX_IDX && MIN_IDX <= j <= MAX_IDX
  {
    a + Size(i) <= b || b + Size(j) <= a
  }

  /** Two buffers do not overlap. */
  lemma SlotsApart(owner: Owners, a: nat, i: nat, b: nat, j: nat)
    requires MIN_IDX <= i <= MAX_IDX && MIN_IDX <= j <= MAX_IDX
    requires IsSlot(owner, a, i) && IsSlot(owner, b, j) && a != b
    ensures Apart(a, i, b, j)
  {
    SlotInPage(a, i);
    SlotInPage(b, j);
    if a / PAGE == b / PAGE {
      MultiplesApart(a, b, Size(i));
    }
  }

  lemma MultiplesApart(a: nat, b: nat, s: nat)
    requires 0 < s && a % s == 0 && b % s == 0 && a != b
    ensures a + s <= b || b + s <= a
  {
    DivModSplit(s, a);
    DivModSplit(s, b);
    TimesIsMul(a / s, s);
    TimesIsMul(b / s, s);
    if a / s < b / s {
      TimesMonotone(a / s + 1, b / s, s);
    } else if b / s < a / s {
      TimesMonotone(b / s + 1, a / s, s);
    }
  }

  /** `list` is the free list from `head`: each buffer holds the address of the next one and the free signature. */
  predicate Chain(m: Memory, head: nat, list: seq<nat>) {
    head == (if list == [] then 0 else list[0]) && forall k :: 0 <= k < |list| ==> Linked(m, list, k)
  }

  predicate Linked(m: Memory, list: seq<nat>, k: nat)
    requires k < |list|
  {
    && list[k] != 0 && Signature(m, list[k]) == FREE_SIG
    && Cell(m, list[k]) == if k + 1 < |list| then list[k + 1] else 0
  }

  predicate Distinct(s: seq<nat>) { forall j, k :: 0 <= j < k < |s| ==> s[j] != s[k] }

  /** One bucket: its counters, its free list (acyclic) and its live buffers; every buffer is one or the other. */
  ghost predicate BucketOk(m: Memory, owner: Owners, i: nat, head: nat, pages: nat, free: nat, list: seq<nat>,
                           live: set<nat>)
    requires MIN_IDX <= i <= MAX_IDX
  {
    && Chain(m, head, list) && Distinct(list)
    && free == |list| && |live| + |list| == pages * Per(i)
    && (forall a :: a in list ==> IsSlot(owner, a, i) && a !in live)
    && (forall a :: a in live ==> IsSlot(owner, a, i))
    && (forall a :: IsSlot(owner, a, i) ==> a in live || a in list)
  }

  /** A change of memory that spares the first two cells of the free buffers. */
  lemma BucketFrame(m: Memory, m': Memory, owner: Owners, i: nat, head: nat, pages: nat, free: nat, list: seq<nat>,
                    live: set<nat>)
    requires MIN_IDX <= i <= MAX_IDX && BucketOk(m, owner, i, head, pages, free, list, live)
    requires forall a :: a in list ==> Cell(m', a) == Cell(m, a) && Cell(m', a + 8) == Cell(m, a + 8)
    ensures BucketOk(m', owner, i, head, pages, free, list, live)
  {
    forall k | 0 <= k < |list|
      ensures Linked(m', list, k)
    {
      assert list[k] in list && Linked(m, list, k);
    }
  }

  /** A new page for bucket `j` does not concern bucket `i`. */
  lemma BucketOther(m: Memory, owner: Owners, page: nat, j: nat, i: nat, head: nat, pages: nat, free: nat,
                    list: seq<nat>, live: set<nat>)
    requires MIN_IDX <= i <= MAX_IDX && BucketOk(m, owner, i, head, pages, free, list, live) && page !in owner && i != j
    ensures BucketOk(m, owner[page := j], i, head, pages, free, list, live)
  {
    assert forall a: nat :: IsSlot(owner[page := j], a, i) == IsSlot(owner, a, i);
  }

  /** A buffer of the same bucket does not share the cells of another one. */
  lemma OtherCells(owner: Owners, i: nat, a: nat, b: nat)
    requires MIN_IDX <= i <= MAX_IDX && IsSlot(owner, a, i) && IsSlot(owner, b, i) && a != b
    ensures b != a + 8 && b + 8 != a && b + 8 != a + 8
  {
    SlotsApart(owner, a, i, b, i);
  }

  lemma PopChain(m: Memory, m': Memory, owner: Owners, i: nat, list: seq<nat>)
    requires MIN_IDX <= i <= MAX_IDX && list != [] && Chain(m, list[0], list) && Distinct(list) &&
             m' == Sign(m, list[0], ALLOC_SIG)
    requires forall a :: a in list ==> IsSlot(owner, a, i)
    ensures Chain(m', Cell(m, list[0]), list[1..]) && Distinct(list[1..])
  {
    var rest := list[1..];
    Signed(m, list[0], ALLOC_SIG);
    assert Linked(m, list, 0);
    forall k | 0 <= k < |rest|
      ensures Linked(m', rest, k)
    {
      assert list[0] in list && list[k + 1] in list && Linked(m, list, k + 1);
      OtherCells(owner, i, list[0], list[k + 1]);
    }
  }

  /** Taking the first free buffer. */
  lemma BucketPop(m: Memory, m': Memory, owner: Owners, i: nat, head: nat, pages: nat, free: nat, list: seq<nat>,
                  live: set<nat>)
    requires MIN_IDX <= i <= MAX_IDX && BucketOk(m, owner, i, head, pages, free, list, live) && list != []
    requires m' == Sign(m, list[0], ALLOC_SIG)
    ensures head == list[0] && Signature(m, head) == FREE_SIG && 0 < free && IsSlot(owner, head, i) && head !in live
    ensures BucketOk(m', owner, i, Cell(m, head), pages, free - 1, list[1..], live + {head})
  {
    var rest := list[1..];
    assert list[0] in list && Linked(m, list, 0);
    PopChain(m, m', owner, i, list);
    hide Chain, IsSlot, Sign, Cell, Signature, Per;
    assert list == [head] + rest;
    assert forall a :: a in rest ==> a in list && a != head;
    assert |live + {head}| == |live| + 1;
  }

  lemma PushChain(m: Memory, m': Memory, owner: Owners, i: nat, head: nat, list: seq<nat>, a: nat)
    requires MIN_IDX <= i <= MAX_IDX && Chain(m, head, list) && Distinct(list) && a != 0 && a !in list
    requires m' == Sign(m, a, FREE_SIG)[a := head] && IsSlot(owner, a, i) &&
             forall b :: b in list ==> IsSlot(owner, b, i)
    ensures Chain(m', a, [a] + list) && Distinct([a] + list)
  {
    var all := [a] + list;
    Signed(m, a, FREE_SIG);
    forall k | 0 <= k < |all|
      ensures Linked(m', all, k)
    {
      if k > 0 {
        assert all[k] == list[k - 1] && list[k - 1] in list && Linked(m, list, k - 1);
        OtherCells(owner, i, a, list[k - 1]);
      }
    }
    assert forall k :: 0 < k < |all| ==> all[k] == list[k - 1] && list[k - 1] in list;
  }

  /** Giving a live buffer back. */
  lemma BucketPush(m: Memory, m': Memory, owner: Owners, i: nat, head: nat, pages: nat, free: nat, list: seq<nat>,
                   live: set<nat>, a: nat)
    requires MIN_IDX <= i <= MAX_IDX && BucketOk(m, owner, i, head, pages, free, list, live) && a in live && a != 0
    requires m' == Sign(m, a, FREE_SIG)[a := head]
    ensures BucketOk(m', owner, i, a, pages, free + 1, [a] + list, live - {a})
  {
    PushChain(m, m', owner, i, head, list, a);
    hide Chain, IsSlot, Sign, Cell, Signature, Per;
    assert |live - {a}| == |live| - 1;
  }

  /** Buffer `k` of a page that starts at `start`. */
  function Slot(start: nat, size: nat, k: nat): nat { start + Times(k, size) }

  /** The first `n` buffers of a page. */
  function Slots(start: nat, size: nat, n: nat): seq<nat> {
    seq(n, k requires 0 <= k < n => Slot(start, size, k))
  }

  lemma SlotOrder(start: nat, size: nat, j: nat, k: nat)
    requires j < k
    ensures Slot(start, size, j) + size <= Slot(start, size, k)
  {
    TimesMonotone(j + 1, k, size);
  }

  /** get_tokenized_page() has linked and signed the first `k` buffers. */
  predicate Tokens(m: Memory, start: nat, size: nat, k: nat) {
    forall j :: 0 <= j < k ==> Token(m, start, size, j)
  }

  predicate Token(m: Memory, start: nat, size: nat, j: nat) {
    var b := Slot(start, size, j);
    Cell(m, b) == b + size && Signature(m, b) == FREE_SIG
  }

  /** Link buffer `b` to `next` and sign it free. */
  function LinkFree(m: Memory, b: nat, next: nat): Memory { Sign(m[b := next], b, FREE_SIG) }

  lemma LinkedFree(m: Memory, b: nat, next: nat)
    ensures Cell(LinkFree(m, b, next), b) == next && Signature(LinkFree(m, b, next), b) == FREE_SIG
    ensures forall c :: c != b && c != b + 8 ==> Cell(LinkFree(m, b, next), c) == Cell(m, c)
  {
    Signed(m[b := next], b, FREE_SIG);
  }

  /** Writing buffer `k` keeps the ones before it. */
  lemma TokensKept(m: Memory, start: nat, size: nat, k: nat, next: nat)
    requires 16 <= size && Tokens(m, start, size, k)
    ensures Tokens(LinkFree(m, Slot(start, size, k), next), start, size, k)
  {
    var b := Slot(start, size, k);
    LinkedFree(m, b, next);
    forall j | 0 <= j < k
      ensures Token(LinkFree(m, b, next), start, size, j)
    {
      assert Token(m, start, size, j);
      SlotOrder(start, size, j, k);
    }
  }

  lemma TokenStep(m: Memory, start: nat, size: nat, k: nat, m': Memory)
    requires 16 <= size && Tokens(m, start, size, k)
    requires m' == LinkFree(m, Slot(start, size, k), Slot(start, size, k) + size)
    ensures Tokens(m', start, size, k + 1)
  {
    TokensKept(m, start, size, k, Slot(start, size, k) + size);
    LinkedFree(m, Slot(start, size, k), Slot(start, size, k) + size);
  }

  /** The finished page is a free list of all its buffers. */
  lemma TokensChain(m: Memory, start: nat, size: nat, n: nat, m': Memory)
    requires 16 <= size && 0 < n && 0 < start && Tokens(m, start, size, n - 1) &&
             m' == LinkFree(m, Slot(start, size, n - 1), 0)
    ensures Chain(m', start, Slots(start, size, n)) && Distinct(Slots(start, size, n))
  {
    var list := Slots(start, size, n);
    TokensKept(m, start, size, n - 1, 0);
    LinkedFree(m, Slot(start, size, n - 1), 0);
    forall k | 0 <= k < n
      ensures Linked(m', list, k)
    {
      assert k < n - 1 ==> Token(m', start, size, k) && list[k + 1] == Slot(start, size, k) + size;
    }
    forall j, k | 0 <= j < k < n
      ensures list[j] != list[k]
    {
      SlotOrder(start, size, j, k);
    }
  }

  /** The buffers of a page are its slots, and nothing else is. */
  lemma PageSlots(page: nat, i: nat, a: nat)
    requires MIN_IDX <= i <= MAX_IDX
    ensures a in Slots(page * PAGE, Size(i), Per(i)) <==> a / PAGE == page && a % Size(i) == 0
  {
    var start, s, n := page * PAGE, Size(i), Per(i);
    if a in Slots(start, s, n) {
      var k :| 0 <= k < n && a == Slot(start, s, k);
      SlotOrder(start, s, k, n);
      TimesIsMul(n, s);
      TimesIsMul(k, s);
      PageMultiple(page, i, k);
    }
    if a / PAGE == page && a % s == 0 {
      var k := PageIndex(page, i, a);
      assert Slots(start, s, n)[k] == a;
    }
  }

  lemma PageMultiple(page: nat, i: nat, k: nat)
    requires MIN_IDX <= i <= MAX_IDX
    ensures (page * PAGE + k * Size(i)) % Size(i) == 0
  {
    var s, n := Size(i), Per(i);
    assert page * PAGE + k * s == (page * n + k) * s by {
      assert page * (n * s) == (page * n) * s;
    }
    DivModUnique(s, page * n + k, 0);
  }

  lemma PageIndex(page: nat, i: nat, a: nat) returns (k: nat)
    requires MIN_IDX <= i <= MAX_IDX && a / PAGE == page && a % Size(i) == 0
    ensures k < Per(i) && a == Slot(page * PAGE, Size(i), k)
  {
    var s, n := Size(i), Per(i);
    DivModSplit(s, a);
    k := a / s - page * n;
    IndexInPage(page, i, a);
    TimesIsMul(k, s);
    assert (a / s - page * n) * s == (a / s) * s - (page * n) * s && (page * n) * s == page * (n * s);
  }

  lemma IndexInPage(page: nat, i: nat, a: nat)
    requires MIN_IDX <= i <= MAX_IDX && a / PAGE == page
    ensures page * Per(i) <= a / Size(i) < page * Per(i) + Per(i)
  {
    if i == 4 {
    } else if i == 5 {
    } else if i == 6 {
    } else if i == 7 {
    } else if i == 8 {
    } else if i == 9 {
    } else if i == 10 {
    } else if i == 11 {
    } else {
    }
  }
}
