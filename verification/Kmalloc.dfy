/** kmalloc() and kfree() of mm/kmalloc.c over whole runs. */
module Kmalloc {
  import opened Options
  import opened Arith
  import opened Buckets

  const NR_BUCKETS := 13

  /** Memory, the pages with their buckets, the free pages, and the buckets: head, totalpages, totalfree, the free list
      that memory holds, and the live buffers. */
  datatype Heap = Heap(mem: Memory, owner: Owners, pool: seq<nat>, heads: seq<nat>, pages: seq<nat>, frees: seq<nat>,
                       lists: seq<seq<nat>>, lives: seq<set<nat>>)

  predicate Sized(h: Heap) {
    |h.heads| == |h.pages| == |h.frees| == |h.lists| == |h.lives| == NR_BUCKETS
  }

  predicate IsBucket(i: nat) { MIN_IDX <= i <= MAX_IDX }

  ghost predicate Bucket(h: Heap, i: nat)
    requires Sized(h) && IsBucket(i)
  {
    BucketOk(h.mem, h.owner, i, h.heads[i], h.pages[i], h.frees[i], h.lists[i], h.lives[i])
  }

  ghost predicate PoolOk(owner: Owners, pool: seq<nat>) {
    OwnersOk(owner) && Distinct(pool) && forall p :: p in pool ==> 0 < p && p !in owner
  }

  /** What every operation keeps. */
  ghost predicate HeapOk(h: Heap) {
    Sized(h) && PoolOk(h.owner, h.pool) && forall i :: IsBucket(i) ==> Bucket(h, i)
  }

  /** A live buffer of bucket `i`. */
  predicate Live(h: Heap, a: nat, i: nat) { Sized(h) && IsBucket(i) && a in h.lives[i] }

  /** Live buffers are large enough, aligned, and disjoint from one another and from the free buffers. */
  lemma LiveBuffers(h: Heap, a: nat, i: nat, b: nat, j: nat)
    requires HeapOk(h) && Live(h, a, i) && IsBucket(j) && (b in h.lives[j] || b in h.lists[j]) && (a != b || i != j)
    ensures a % Size(i) == 0 && a != 0 && Apart(a, i, b, j)
    ensures h.frees[i] + |h.lives[i]| == h.pages[i] * Per(i) && h.frees[i] == |h.lists[i]| && Distinct(h.lists[i])
  {
    assert Bucket(h, i) && Bucket(h, j);
    assert IsSlot(h.owner, a, i) && IsSlot(h.owner, b, j);
    SlotsApart(h.owner, a, i, b, j);
    SlotNotZero(h.owner, a, i);
  }

  lemma SlotNotZero(owner: Owners, a: nat, i: nat)
    requires OwnersOk(owner) && IsBucket(i) && IsSlot(owner, a, i)
    ensures a != 0
  {
  }

  /** The same memory at all cells of buffer `b`. */
  predicate SameBuffer(m: Memory, m': Memory, b: nat, size: nat) {
    forall c :: b <= c < b + size ==> Cell(m', c) == Cell(m, c)
  }

  /** Buffers of other places are not touched by a change of the two cells of buffer `a`. */
  ghost predicate OnlyBuffer(m: Memory, m': Memory, a: nat, size: nat) {
    forall c: nat :: c < a || a + size <= c ==> Cell(m', c) == Cell(m, c)
  }

  /** A change inside buffer `a` of bucket `i` spares the free lists of the other buckets. */
  lemma OtherBucket(h: Heap, m': Memory, a: nat, i: nat, j: nat)
    requires HeapOk(h) && IsBucket(i) && IsBucket(j) && IsSlot(h.owner, a, i) && a !in h.lists[j]
    requires OnlyBuffer(h.mem, m', a, Size(i))
    ensures BucketOk(m', h.owner, j, h.heads[j], h.pages[j], h.frees[j], h.lists[j], h.lives[j])
  {
    assert Bucket(h, j);
    forall b | b in h.lists[j]
      ensures Cell(m', b) == Cell(h.mem, b) && Cell(m', b + 8) == Cell(h.mem, b + 8)
    {
      assert IsSlot(h.owner, b, j);
      SlotsApart(h.owner, a, i, b, j);
    }
    BucketFrame(h.mem, m', h.owner, j, h.heads[j], h.pages[j], h.frees[j], h.lists[j], h.lives[j]);
  }

  lemma NotInOther(h: Heap, a: nat, i: nat, j: nat)
    requires HeapOk(h) && IsBucket(i) && IsBucket(j) && IsSlot(h.owner, a, i) && i != j
    ensures a !in h.lists[j] && a !in h.lives[j]
  {
    assert Bucket(h, j);
  }

  /** Bucket `i` with other contents. */
  function With(h: Heap, m: Memory, i: nat, head: nat, free: nat, list: seq<nat>, live: set<nat>): Heap
    requires Sized(h) && i < NR_BUCKETS
  {
    h.(mem := m, heads := h.heads[i := head], frees := h.frees[i := free], lists := h.lists[i := list],
    lives := h.lives[i := live])
  }

  lemma WithOk(h: Heap, m: Memory, i: nat, a: nat, head: nat, free: nat, list: seq<nat>, live: set<nat>)
    requires HeapOk(h) && IsBucket(i) && IsSlot(h.owner, a, i) && OnlyBuffer(h.mem, m, a, Size(i))
    requires BucketOk(m, h.owner, i, head, h.pages[i], free, list, live)
    ensures HeapOk(With(h, m, i, head, free, list, live))
  {
    var h' := With(h, m, i, head, free, list, live);
    forall j | IsBucket(j)
      ensures Bucket(h', j)
    {
      if j != i {
        NotInOther(h, a, i, j);
        OtherBucket(h, m, a, i, j);
      }
    }
  }

  /** The heap after the first free buffer of bucket `i` was handed out. */
  function Popped(h: Heap, i: nat): Heap
    requires Sized(h) && IsBucket(i) && h.lists[i] != [] && 0 < h.frees[i]
  {
    var a := h.heads[i];
    With(h, Sign(h.mem, a, ALLOC_SIG), i, Cell(h.mem, a), h.frees[i] - 1, h.lists[i][1..], h.lives[i] + {a})
  }

  lemma SignOnly(m: Memory, a: nat, sig: nat, size: nat)
    requires sig < WORD && 16 <= size
    ensures OnlyBuffer(m, Sign(m, a, sig), a, size)
  {
    Signed(m, a, sig);
  }

  lemma PoppedOk(h: Heap, i: nat)
    requires HeapOk(h) && IsBucket(i) && h.lists[i] != []
    ensures 0 < h.frees[i] && HeapOk(Popped(h, i)) && Signature(h.mem, h.heads[i]) == FREE_SIG
    ensures h.heads[i] == h.lists[i][0] && IsSlot(h.owner, h.heads[i], i) && h.heads[i] !in h.lives[i] &&
            h.heads[i] != 0
    ensures OnlyBuffer(h.mem, Popped(h, i).mem, h.heads[i], Size(i))
  {
    assert Bucket(h, i);
    var a, m := h.heads[i], Sign(h.mem, h.lists[i][0], ALLOC_SIG);
    BucketPop(h.mem, m, h.owner, i, a, h.pages[i], h.frees[i], h.lists[i], h.lives[i]);
    SignOnly(h.mem, a, ALLOC_SIG, Size(i));
    SlotNotZero(h.owner, a, i);
    WithOk(h, m, i, a, Cell(h.mem, a), h.frees[i] - 1, h.lists[i][1..], h.lives[i] + {a});
  }

  /** The heap after live buffer `a` of bucket `i` was freed. */
  function Pushed(h: Heap, i: nat, a: nat): Heap
    requires Sized(h) && IsBucket(i)
  {
    With(h, Sign(h.mem, a, FREE_SIG)[a := h.heads[i]], i, a, h.frees[i] + 1, [a] + h.lists[i], h.lives[i] - {a})
  }

  lemma PushedOk(h: Heap, i: nat, a: nat)
    requires HeapOk(h) && IsBucket(i) && a in h.lives[i]
    ensures HeapOk(Pushed(h, i, a)) && OnlyBuffer(h.mem, Pushed(h, i, a).mem, a, Size(i))
  {
    assert Bucket(h, i) && IsSlot(h.owner, a, i);
    var m := Sign(h.mem, a, FREE_SIG)[a := h.heads[i]];
    SlotNotZero(h.owner, a, i);
    SignOnly(h.mem, a, FREE_SIG, Size(i));
    BucketPush(h.mem, m, h.owner, i, h.heads[i], h.pages[i], h.frees[i], h.lists[i], h.lives[i], a);
    assert OnlyBuffer(h.mem, m, a, Size(i));
    WithOk(h, m, i, a, a, h.frees[i] + 1, [a] + h.lists[i], h.lives[i] - {a});
  }

  /** A client writes a cell of its own buffer. */
  lemma WrittenOk(h: Heap, a: nat, i: nat, c: nat, x: nat)
    requires HeapOk(h) && Live(h, a, i) && a <= c < a + Size(i)
    ensures HeapOk(h.(mem := h.mem[c := x])) && OnlyBuffer(h.mem, h.mem[c := x], a, Size(i))
  {
    var m := h.mem[c := x];
    assert Bucket(h, i) && IsSlot(h.owner, a, i);
    forall j | IsBucket(j)
      ensures Bucket(h.(mem := m), j)
    {
      if j != i {
        NotInOther(h, a, i, j);
      }
      OtherBucket(h, m, a, i, j);
    }
  }

  /** A change inside one buffer spares every other live buffer. */
  lemma SparesOthers(h: Heap, m': Memory, a: nat, i: nat, b: nat, j: nat)
    requires HeapOk(h) && IsBucket(i) && IsSlot(h.owner, a, i) && OnlyBuffer(h.mem, m', a, Size(i)) && Live(h, b, j) &&
             b != a
    ensures SameBuffer(h.mem, m', b, Size(j))
  {
    assert Bucket(h, j) && IsSlot(h.owner, b, j);
    SlotsApart(h.owner, a, i, b, j);
  }

  /** kfree() tells live buffers apart: an aligned address in a page of ours without the free signature is live. */
  lemma SlotStatus(h: Heap, a: nat, i: nat)
    requires HeapOk(h) && IsBucket(i) && IsSlot(h.owner, a, i)
    ensures a in h.lives[i] || Signature(h.mem, a) == FREE_SIG
  {
    assert Bucket(h, i);
    if a !in h.lives[i] {
      var k :| 0 <= k < |h.lists[i]| && h.lists[i][k] == a;
      assert Linked(h.mem, h.lists[i], k);
    }
  }

  /** The memory outside of a page is the same. */
  ghost predicate OnlyPage(m: Memory, m': Memory, page: nat) {
    forall c: nat :: c / PAGE != page ==> Cell(m', c) == Cell(m, c)
  }

  /** The heap after bucket `i` was refilled with a page that memory `m` holds as a free list. */
  function Refilled(h: Heap, m: Memory, i: nat, page: nat): Heap
    requires Sized(h) && IsBucket(i) && h.pool != []
  {
    h.(mem := m, owner := h.owner[page := i], pool := h.pool[1..], heads := h.heads[i := page * PAGE],
    pages := h.pages[i := h.pages[i] + 1], frees := h.frees[i := Per(i)],
    lists := h.lists[i := Slots(page * PAGE, Size(i), Per(i))])
  }

  lemma RefilledBucket(h: Heap, m: Memory, i: nat, page: nat)
    requires HeapOk(h) && IsBucket(i) && h.pool != [] && page == h.pool[0] && h.lists[i] == []
    requires Chain(m, page * PAGE, Slots(page * PAGE, Size(i), Per(i))) && Distinct(Slots(page * PAGE, Size(i), Per(i)))
    ensures Bucket(Refilled(h, m, i, page), i)
  {
    assert Bucket(h, i) && page in h.pool;
    var list, owner := Slots(page * PAGE, Size(i), Per(i)), h.owner[page := i];
    forall a: nat
      ensures IsSlot(owner, a, i) <==> IsSlot(h.owner, a, i) || a in list
      ensures a in list ==> !IsSlot(h.owner, a, i)
    {
      PageSlots(page, i, a);
    }
    hide Chain, Slots, IsSlot, Per;
    assert (h.pages[i] + 1) * Per(i) == h.pages[i] * Per(i) + Per(i);
  }

  lemma RefilledOther(h: Heap, m: Memory, i: nat, page: nat, j: nat)
    requires HeapOk(h) && IsBucket(i) && IsBucket(j) && j != i && h.pool != [] && page == h.pool[0] &&
             OnlyPage(h.mem, m, page)
    ensures Bucket(Refilled(h, m, i, page), j)
  {
    assert Bucket(h, j) && page in h.pool;
    forall a | a in h.lists[j]
      ensures Cell(m, a) == Cell(h.mem, a) && Cell(m, a + 8) == Cell(h.mem, a + 8)
    {
      assert IsSlot(h.owner, a, j);
      SlotInPage(a, j);
      SamePage(a, j);
    }
    BucketFrame(h.mem, m, h.owner, j, h.heads[j], h.pages[j], h.frees[j], h.lists[j], h.lives[j]);
    BucketOther(m, h.owner, page, i, j, h.heads[j], h.pages[j], h.frees[j], h.lists[j], h.lives[j]);
  }

  /** The cells of a buffer lie in its page. */
  lemma SamePage(a: nat, i: nat)
    requires IsBucket(i) && (a / PAGE) * PAGE <= a && a + Size(i) <= (a / PAGE) * PAGE + PAGE
    ensures forall c :: a <= c < a + Size(i) ==> c / PAGE == a / PAGE
    ensures (a + 8) / PAGE == a / PAGE
  {
  }

  lemma RefilledOk(h: Heap, m: Memory, i: nat, page: nat)
    requires HeapOk(h) && IsBucket(i) && h.pool != [] && page == h.pool[0] && h.lists[i] == [] &&
             OnlyPage(h.mem, m, page)
    requires Chain(m, page * PAGE, Slots(page * PAGE, Size(i), Per(i))) && Distinct(Slots(page * PAGE, Size(i), Per(i)))
    ensures HeapOk(Refilled(h, m, i, page)) && Refilled(h, m, i, page).lists[i] != []
  {
    var h' := Refilled(h, m, i, page);
    assert page in h.pool;
    forall p | p in h'.pool
      ensures 0 < p && p !in h'.owner
    {
      assert p in h.pool;
    }
    forall j | IsBucket(j)
      ensures Bucket(h', j)
    {
      if j == i {
        RefilledBucket(h, m, i, page);
      } else {
        RefilledOther(h, m, i, page, j);
      }
    }
  }

  /** A new page spares every live buffer. */
  lemma PageSpares(h: Heap, m: Memory, page: nat, b: nat, j: nat)
    requires HeapOk(h) && page !in h.owner && OnlyPage(h.mem, m, page) && Live(h, b, j)
    ensures SameBuffer(h.mem, m, b, Size(j))
  {
    assert Bucket(h, j) && IsSlot(h.owner, b, j);
    SlotInPage(b, j);
    SamePage(b, j);
  }

  class KernelHeap {
    var mem: Memory
    var owner: Owners
    var pool: seq<nat>
    var heads: seq<nat>
    var totalpages: seq<nat>
    var totalfree: seq<nat>
    ghost var lists: seq<seq<nat>>
    ghost var lives: seq<set<nat>>

    ghost function View(): Heap
      reads this
    {
      Heap(mem, owner, pool, heads, totalpages, totalfree, lists, lives)
    }

    /** All buckets are empty. */
    constructor (mem: Memory, pool: seq<nat>)
      requires PoolOk(map[], pool)
      ensures HeapOk(View()) && forall i :: 0 <= i < NR_BUCKETS ==> lives[i] == {}
    {
      this.mem, this.pool, owner := mem, pool, map[];
      heads, totalpages, totalfree := seq(NR_BUCKETS, _ => 0), seq(NR_BUCKETS, _ => 0), seq(NR_BUCKETS, _ => 0);
      lists, lives := seq(NR_BUCKETS, _ => []), seq(NR_BUCKETS, _ => {});
    }

    /** get_tokenized_page(): link the buffers of a page into a free list. */
    method Tokenize(i: nat, page: nat)
      requires IsBucket(i) && 0 < page
      modifies this`mem
      ensures Chain(mem, page * PAGE, Slots(page * PAGE, Size(i), Per(i))) &&
              Distinct(Slots(page * PAGE, Size(i), Per(i)))
      ensures OnlyPage(old(mem), mem, page)
    {
      var start := page * PAGE;
      var len, end := Size(i), start + PAGE;
      var buf := start;
      ghost var k, n := 0, Per(i);
      TimesIsMul(n, len);
      assert Times(n, len) == Times(n - 1, len) + len;
      while buf < end - len
        invariant k <= n - 1 && buf == Slot(start, len, k) && Tokens(mem, start, len, k) &&
                  OnlyPage(old(mem), mem, page)
        decreases n - k
      {
        NextSlot(start, len, k, n);
        ghost var m := mem;
        mem := mem[buf := buf + len];
        mem := Sign(mem, buf, FREE_SIG);
        TokenStep(m, start, len, k, mem);
        WriteInPage(m, buf, buf + len, page, i);
        buf := buf + len;
        k := k + 1;
      }
      if k < n - 1 {
        SlotOrder(start, len, k, n - 1);
        assert false;
      }
      ghost var m := mem;
      mem := mem[buf := 0];
      mem := Sign(mem, buf, FREE_SIG);
      WriteInPage(m, buf, 0, page, i);
      TokensChain(m, start, len, n, mem);
    }

    /** Take a page from the page allocator and make it the free list of an empty bucket. */
    method Refill(i: nat)
      requires HeapOk(View()) && IsBucket(i) && pool != [] && lists[i] == []
      modifies this
      ensures HeapOk(View()) && lists[i] != [] && lives == old(lives)
      ensures owner == old(owner)[old(pool)[0] := i] && pool == old(pool)[1..]
      ensures forall b, j :: Live(old(View()), b, j) ==> SameBuffer(old(mem), mem, b, Size(j))
    {
      ghost var h := View();
      var page := pool[0];
      assert page in pool && Bucket(h, i);
      Tokenize(i, page);
      RefilledOk(h, mem, i, page);
      PageSparesAll(h, mem, page);
      hide HeapOk, Chain, Slots, OnlyPage, SameBuffer;
      owner, pool := owner[page := i], pool[1..];
      heads := heads[i := page * PAGE];
      totalpages := totalpages[i := totalpages[i] + 1];
      totalfree := totalfree[i := Per(i)];
      lists := lists[i := Slots(page * PAGE, Size(i), Per(i))];
      assert View() == Refilled(h, mem, i, page);
    }

    /** Hand out the first buffer of the free list. */
    method Pop(i: nat) returns (buf: nat)
      requires HeapOk(View()) && IsBucket(i) && lists[i] != []
      modifies this
      ensures HeapOk(View()) && View() == Popped(old(View()), i) && buf == old(heads[i])
    {
      ghost var h := View();
      PoppedOk(h, i);
      hide HeapOk;
      buf := heads[i];
      heads := heads[i := Cell(mem, buf)];
      totalfree := totalfree[i := totalfree[i] - 1];
      lists, lives := lists[i := lists[i][1..]], lives[i := lives[i] + {buf}];
      assert Signature(mem, buf) == FREE_SIG;
      mem := Sign(mem, buf, ALLOC_SIG);
      assert View() == Popped(h, i);
    }

    /** __kmalloc(): a buffer of the bucket that was not live, or None where the page allocator panics. */
    method Alloc(i: nat) returns (buf: Option<nat>)
      requires HeapOk(View()) && IsBucket(i)
      modifies this
      ensures HeapOk(View())
      ensures buf.None? ==> old(heads)[i] == 0 && old(pool) == [] && View() == old(View())
      ensures old(heads)[i] != 0 ==> owner == old(owner) && pool == old(pool)
      ensures old(heads)[i] == 0 && buf.Some? ==>
                old(pool) != [] && owner == old(owner)[old(pool)[0] := i] && pool == old(pool)[1..]
      ensures buf.Some? ==> buf.value !in old(lives)[i] && buf.value % Size(i) == 0 && buf.value != 0
      ensures buf.Some? ==>
                lives == old(lives)[i := old(lives)[i] + {buf.value}] && Signature(mem, buf.value) == ALLOC_SIG
      ensures forall b, j :: Live(old(View()), b, j) ==> SameBuffer(old(mem), mem, b, Size(j))
    {
      ghost var h := View();
      if heads[i] == 0 {
        HeadEmpty(h, i);
        if pool == [] {
          return None;
        }
        Refill(i);
      } else {
        HeadEmpty(h, i);
      }
      ghost var h1 := View();
      PoppedOk(h1, i);
      PopSpares(h1, i);
      hide HeapOk, Live, SameBuffer;
      var a := Pop(i);
      AllocSigned(h1.mem, a);
      AllTrans(h, h1, mem);
      return Some(a);
    }

    /** kmalloc(): a live, aligned buffer of at least `size` bytes; None where the source panics. */
    method Kmalloc(size: nat) returns (buf: Option<nat>)
      requires HeapOk(View()) && 0 < size
      modifies this
      ensures HeapOk(View())
      ensures buf.None? ==>
                View() == old(View()) && (size > PAGE || (old(pool) == [] && old(heads)[BucketFor(size)] == 0))
      ensures size <= PAGE && old(heads)[BucketFor(size)] != 0 ==> owner == old(owner) && pool == old(pool)
      ensures size <= PAGE && old(heads)[BucketFor(size)] == 0 && buf.Some? ==>
                old(pool) != [] && owner == old(owner)[old(pool)[0] := BucketFor(size)] && pool == old(pool)[1..]
      ensures buf.Some? ==> size <= PAGE && size <= Size(BucketFor(size)) && buf.value % Size(BucketFor(size)) == 0
      ensures buf.Some? ==> buf.value !in old(lives)[BucketFor(size)] && Live(View(), buf.value, BucketFor(size))
      ensures buf.Some? ==> Signature(mem, buf.value) == ALLOC_SIG
      ensures forall b, j :: Live(old(View()), b, j) ==> Live(View(), b, j) && SameBuffer(old(mem), mem, b, Size(j))
    {
      if size > PAGE {
        return None;
      }
      buf := Alloc(BucketFor(size));
    }

    /** kfree(): succeeds exactly on a live buffer that does not hold the free signature at byte 8; elsewhere the
        source panics. */
    method Kfree(addr: nat) returns (ok: bool)
      requires HeapOk(View())
      modifies this
      ensures HeapOk(View())
      ensures ok <==> Signature(old(mem), addr) != FREE_SIG && exists i :: Live(old(View()), addr, i)
      ensures pool == old(pool) && (!ok ==> View() == old(View()))
      ensures ok ==>
                addr / PAGE in owner && IsBucket(owner[addr / PAGE]) &&
                View() == Pushed(old(View()), owner[addr / PAGE], addr)
      ensures forall b, j :: Live(old(View()), b, j) && b != addr ==>
                               Live(View(), b, j) && SameBuffer(old(mem), mem, b, Size(j))
    {
      hide HeapOk;
      ghost var h := View();
      FreeCheck(h, addr);
      if addr / PAGE !in owner {
        return false;
      }
      var i := owner[addr / PAGE];
      if addr % Size(i) != 0 || Signature(mem, addr) == FREE_SIG {
        return false;
      }
      PushedOk(h, i, addr);
      PushSpares(h, i, addr);
      hide SameBuffer, Size;
      mem := Sign(mem, addr, FREE_SIG);
      mem := mem[addr := heads[i]];
      heads, totalfree := heads[i := addr], totalfree[i := totalfree[i] + 1];
      lists, lives := lists[i := [addr] + lists[i]], lives[i := lives[i] - {addr}];
      assert View() == Pushed(h, i, addr);
      ok := true;
    }

    /** The page allocator hands over a page. */
    method Give(page: nat)
      requires HeapOk(View()) && pool == [] && 0 < page && page !in owner
      modifies this`pool
      ensures HeapOk(View()) && pool == [page]
    {
      GivenOk(View(), page);
      pool := [page];
    }

    /** A client writes into its own buffer. */
    method ClientWrite(a: nat, ghost i: nat, c: nat, x: nat)
      requires HeapOk(View()) && Live(View(), a, i) && a <= c < a + Size(i)
      modifies this`mem
      ensures HeapOk(View()) && mem == old(mem)[c := x]
    {
      WrittenOk(View(), a, i, c, x);
      mem := mem[c := x];
    }
  }

  lemma GivenOk(h: Heap, page: nat)
    requires HeapOk(h) && h.pool == [] && 0 < page && page !in h.owner
    ensures HeapOk(h.(pool := [page]))
  {
    assert forall i :: IsBucket(i) ==> Bucket(h, i);
  }

  /** A client that stores the free signature at byte 8 of its own buffer cannot give the buffer back. */
  method StoreFreeSignature(heap: KernelHeap, size: nat) returns (buf: Option<nat>, ok: bool)
    requires HeapOk(heap.View()) && 0 < size
    modifies heap
    ensures HeapOk(heap.View())
    ensures buf.Some? ==> !ok && exists i :: Live(heap.View(), buf.value, i)
  {
    hide HeapOk, Pushed, BucketFor, Size, SameBuffer;
    ok := false;
    buf := heap.Kmalloc(size);
    if buf.Some? {
      ghost var i := BucketFor(size);
      heap.ClientWrite(buf.value, i, buf.value + 8, FREE_SIG);
      ok := heap.Kfree(buf.value);
      assert Live(heap.View(), buf.value, i);
    }
  }

  lemma PageSparesAll(h: Heap, m: Memory, page: nat)
    requires HeapOk(h) && page !in h.owner && OnlyPage(h.mem, m, page)
    ensures forall b, j :: Live(h, b, j) ==> SameBuffer(h.mem, m, b, Size(j))
  {
    forall b, j | Live(h, b, j)
      ensures SameBuffer(h.mem, m, b, Size(j))
    {
      PageSpares(h, m, page, b, j);
    }
  }

  /** The head tells whether the free list is empty; then nothing is free. */
  lemma HeadEmpty(h: Heap, i: nat)
    requires HeapOk(h) && IsBucket(i)
    ensures h.heads[i] == 0 <==> h.lists[i] == []
    ensures h.heads[i] == 0 ==> h.frees[i] == 0
  {
    assert Bucket(h, i);
    assert h.lists[i] != [] ==> Linked(h.mem, h.lists[i], 0);
  }

  lemma PopSpares(h: Heap, i: nat)
    requires HeapOk(h) && IsBucket(i) && h.lists[i] != [] && 0 < h.frees[i]
    ensures forall b, j :: Live(h, b, j) ==> SameBuffer(h.mem, Popped(h, i).mem, b, Size(j))
  {
    PoppedOk(h, i);
    forall b, j | Live(h, b, j)
      ensures SameBuffer(h.mem, Popped(h, i).mem, b, Size(j))
    {
      if j != i {
        NotInOther(h, h.heads[i], i, j);
      }
      SparesOthers(h, Popped(h, i).mem, h.heads[i], i, b, j);
    }
  }

  lemma PushSpares(h: Heap, i: nat, a: nat)
    requires HeapOk(h) && IsBucket(i) && a in h.lives[i]
    ensures forall b, j :: Live(h, b, j) && b != a ==> SameBuffer(h.mem, Pushed(h, i, a).mem, b, Size(j))
  {
    PushedOk(h, i, a);
    assert Bucket(h, i);
    forall b, j | Live(h, b, j) && b != a
      ensures SameBuffer(h.mem, Pushed(h, i, a).mem, b, Size(j))
    {
      SparesOthers(h, Pushed(h, i, a).mem, a, i, b, j);
    }
  }

  lemma AllocSigned(m: Memory, a: nat)
    ensures Signature(Sign(m, a, ALLOC_SIG), a) == ALLOC_SIG
  {
    Signed(m, a, ALLOC_SIG);
  }

  lemma AllTrans(h: Heap, h1: Heap, m: Memory)
    requires h1.lives == h.lives && Sized(h) && Sized(h1)
    requires forall b, j :: Live(h, b, j) ==> SameBuffer(h.mem, h1.mem, b, Size(j))
    requires forall b, j :: Live(h1, b, j) ==> SameBuffer(h1.mem, m, b, Size(j))
    ensures forall b, j :: Live(h, b, j) ==> SameBuffer(h.mem, m, b, Size(j))
  {
    forall b, j | Live(h, b, j)
      ensures SameBuffer(h.mem, m, b, Size(j))
    {
      assert Live(h1, b, j);
    }
  }

  /** The checks of kfree() single out the live buffers without the free signature. */
  lemma FreeCheck(h: Heap, a: nat)
    requires HeapOk(h)
    ensures (exists i :: Live(h, a, i)) ==>
              a / PAGE in h.owner && IsBucket(h.owner[a / PAGE]) && a % Size(h.owner[a / PAGE]) == 0 &&
              Live(h, a, h.owner[a / PAGE])
    ensures a / PAGE in h.owner ==> IsBucket(h.owner[a / PAGE])
    ensures a / PAGE in h.owner && a % Size(h.owner[a / PAGE]) == 0 && Signature(h.mem, a) != FREE_SIG ==>
              Live(h, a, h.owner[a / PAGE])
  {
    if i :| Live(h, a, i) {
      assert Bucket(h, i);
    }
    if a / PAGE in h.owner && a % Size(h.owner[a / PAGE]) == 0 {
      SlotStatus(h, a, h.owner[a / PAGE]);
    }
  }

  lemma NextSlot(start: nat, len: nat, k: nat, n: nat)
    requires k < n && Slot(start, len, k) < start + Times(n, len) - len
    ensures k < n - 1 && Slot(start, len, k) + len == Slot(start, len, k + 1)
  {
  }

  /** Linking a buffer of a page writes that page only. */
  lemma WriteInPage(m: Memory, buf: nat, next: nat, page: nat, i: nat)
    requires IsBucket(i) && page * PAGE <= buf && buf + Size(i) <= page * PAGE + PAGE
    ensures OnlyPage(m, LinkFree(m, buf, next), page)
  {
    LinkedFree(m, buf, next);
  }
}
