/** Runs of the three allocators: the bitmaps of ext2/ext2.c, the pages of mm/page_alloc.c and the heap of
    mm/kmalloc.c, used by a client that keeps what it was given until it gives it back. */
module AllocRuns {
  import opened Options
  import A = BitmapAlloc
  import B = Buckets
  import F = FreePages
  import K = Kmalloc
  import P = PageAlloc

  /** Take one more item of kind `arg`, or give back the one at position `arg` of those that are held. */
  datatype Op = Take(arg: nat) | Give(arg: nat)

  /** No item is held twice, and what was free before is now either free or held, not both. */
  ghost predicate Conserved(held: seq<nat>, before: set<nat>, now: set<nat>) {
    && (forall j, k :: 0 <= j < k < |held| ==> held[j] != held[k])
    && (forall x :: x in before <==> x in now || x in held)
    && forall x :: x in held ==> x !in now
  }

  lemma Taken(held: seq<nat>, before: set<nat>, now: set<nat>, x: nat)
    requires Conserved(held, before, now) && x in now
    ensures Conserved(held + [x], before, now - {x})
  {
  }

  function Without(held: seq<nat>, k: nat): seq<nat>
    requires k < |held|
  {
    held[..k] + held[k + 1..]
  }

  lemma Given(held: seq<nat>, before: set<nat>, now: set<nat>, k: nat)
    requires Conserved(held, before, now) && k < |held|
    ensures Conserved(Without(held, k), before, now + {held[k]}) && held[k] in before && held[k] !in now
  {
    assert held[k] in held;
    forall x
      ensures x in Without(held, k) <==> x in held && x != held[k]
    {
      if x in held && x != held[k] {
        var j :| 0 <= j < |held| && held[j] == x;
        assert Without(held, k)[if j < k then j else j - 1] == x;
      }
    }
  }

  /** What is held after an operation that answered `r`. */
  function After(held: seq<nat>, op: Op, r: Option<nat>): seq<nat> {
    match op
    case Take(_) => if r.Some? then held + [r.value] else held
    case Give(k) => if k < |held| then Without(held, k) else held
  }

  /** What is given back is not held any more; an answer adds one item; nothing else changes. */
  lemma HeldChanges(held: seq<nat>, op: Op, r: Option<nat>, x: nat)
    requires forall j, k :: 0 <= j < k < |held| ==> held[j] != held[k]
    ensures x in After(held, op, r) <==>
            || (op.Take? && r == Some(x))
            || (x in held && !(op.Give? && op.arg < |held| && held[op.arg] == x))
  {
    if op.Give? && op.arg < |held| && x in held && x != held[op.arg] {
      var k := op.arg;
      var j :| 0 <= j < |held| && held[j] == x;
      assert Without(held, k)[if j < k then j else j - 1] == x;
    }
  }

  /** What is held after a run with the answers `log`. */
  function Replay(ops: seq<Op>, log: seq<Option<nat>>): seq<nat>
    requires |ops| == |log|
  {
    if ops == [] then []
    else After(Replay(ops[..|ops| - 1], log[..|log| - 1]), ops[|ops| - 1], log[|log| - 1])
  }

  lemma ReplayStep(ops: seq<Op>, log: seq<Option<nat>>, n: nat, r: Option<nat>)
    requires n < |ops| && |log| == n
    ensures Replay(ops[..n + 1], log + [r]) == After(Replay(ops[..n], log), ops[n], r)
  {
    assert ops[..n + 1][..n] == ops[..n] && (log + [r])[..n] == log;
  }

  /** An operation that asked for an item got none only when all were held. */
  ghost predicate Refused(ops: seq<Op>, log: seq<Option<nat>>, before: set<nat>, n: nat)
    requires |log| <= |ops| && n < |log|
  {
    ops[n].Take? && log[n].None? ==> forall x :: x in before ==> x in Replay(ops[..n], log[..n])
  }

  lemma RefusedOne(ops: seq<Op>, log: seq<Option<nat>>, before: set<nat>, n: nat, r: Option<nat>)
    requires n < |ops| && |log| == n
    requires ops[n].Take? && r.None? ==> forall x :: x in before ==> x in Replay(ops[..n], log)
    requires forall j :: 0 <= j < n ==> Refused(ops, log, before, j)
    ensures forall j :: 0 <= j <= n ==> Refused(ops, log + [r], before, j)
  {
    hide Replay;
    forall j | 0 <= j <= n
      ensures Refused(ops, log + [r], before, j)
    {
      assert (log + [r])[..j] == log[..j];
      assert j < n ==> Refused(ops, log, before, j);
      assert log[..n] == log;
    }
  }

  method StepBitmaps(a: A.Allocator, op: Op, held: seq<nat>, ghost before: set<nat>) returns (r: Option<nat>)
    requires a.Valid() && Conserved(held, before, a.free) && a.total == |a.free|
    requires forall x :: x in before ==> a.range.first <= x < a.range.limit
    modifies a
    ensures a.Valid() && Conserved(After(held, op, r), before, a.free) && a.total == |a.free|
    ensures op.Take? && r.None? ==> forall x :: x in before ==> x in held
  {
    r := None;
    match op {
      case Take(_) =>
        var found, x := a.Alloc();
        if found {
          Taken(held, before, old(a.free), x);
          r := Some(x);
        }
      case Give(k) =>
        if k < |held| {
          Given(held, before, a.free, k);
          a.Dealloc(held[k]);
        }
    }
  }

  lemma TotalNow(a: A.Allocator)
    requires a.Valid()
    ensures a.total == |a.free|
  {
    A.TotalIsFree(a.bits, a.range, a.counts);
  }

  /** Over every run of block_alloc() and block_dealloc(), or of their inode counterparts, no item is handed out twice,
      none is lost, none is refused while one is free, and the total counter is the number of free ones. */
  method RunBitmaps(a: A.Allocator, ops: seq<Op>) returns (log: seq<Option<nat>>)
    requires a.Valid()
    modifies a
    ensures |log| == |ops| && a.Valid() && Conserved(Replay(ops, log), old(a.free), a.free) && a.total == |a.free|
    ensures forall n :: 0 <= n < |ops| ==> Refused(ops, log, old(a.free), n)
  {
    hide Refused, A.Agree, A.Mirrors, A.Sum, A.ClearBits;
    log := [];
    var held := [];
    ghost var before := a.free;
    TotalNow(a);
    for n := 0 to |ops|
      invariant |log| == n && held == Replay(ops[..n], log)
      invariant a.Valid() && Conserved(held, before, a.free) && a.total == |a.free|
      invariant forall x :: x in before ==> a.range.first <= x < a.range.limit
      invariant forall j :: 0 <= j < n ==> Refused(ops, log, before, j)
    {
      var r := StepBitmaps(a, ops[n], held, before);
      ReplayStep(ops, log, n, r);
      RefusedOne(ops, log, before, n, r);
      held, log := After(held, ops[n], r), log + [r];
    }
    assert ops[..|ops|] == ops;
  }

  /** The numbers of the free page descriptors. */
  ghost function FreePages(pfd: seq<F.Page>): set<nat> { set d: nat | d < |pfd| && pfd[d].free }

  /** The pages that a request for zone `z` may get: those of the first zone, or for the second one all. */
  ghost predicate Asked(pfd: seq<F.Page>, z: nat, d: nat) {
    d < |pfd| && z < 2 && pfd[d].free && (z == 0 ==> pfd[d].zone == 0)
  }

  /** Nothing that was asked for is free if its zones count no free page. */
  lemma NoneAsked(s: P.State, z: nat, d: nat)
    requires P.Ok(s) && z < 2 && s.counts[z] == 0 && (z == 1 ==> s.counts[0] == 0)
    ensures !Asked(s.pfd, z, d)
  {
    P.HeadFree(s, 0);
    P.HeadFree(s, 1);
    if Asked(s.pfd, z, d) {
      P.ZoneFacts(s, s.pfd[d].zone);
    }
  }

  /** A request got no page only when all the pages that it may get were held. */
  ghost predicate PageRefused(ops: seq<Op>, log: seq<Option<nat>>, pfd: seq<F.Page>, n: nat)
    requires |log| <= |ops| && n < |log|
  {
    ops[n].Take? && log[n].None? ==> forall d :: Asked(pfd, ops[n].arg, d) ==> d in Replay(ops[..n], log[..n])
  }

  lemma PageRefusedOne(ops: seq<Op>, log: seq<Option<nat>>, pfd: seq<F.Page>, n: nat, r: Option<nat>)
    requires n < |ops| && |log| == n
    requires ops[n].Take? && r.None? ==> forall d :: Asked(pfd, ops[n].arg, d) ==> d in Replay(ops[..n], log)
    requires forall j :: 0 <= j < n ==> PageRefused(ops, log, pfd, j)
    ensures forall j :: 0 <= j <= n ==> PageRefused(ops, log + [r], pfd, j)
  {
    hide Replay, Asked;
    forall j | 0 <= j <= n
      ensures PageRefused(ops, log + [r], pfd, j)
    {
      assert (log + [r])[..j] == log[..j];
      assert j < n ==> PageRefused(ops, log, pfd, j);
      assert log[..n] == log;
    }
  }

  /** Only whether a page is free changes. */
  predicate SameZones(pfd: seq<F.Page>, pfd': seq<F.Page>) {
    |pfd'| == |pfd| && forall d :: 0 <= d < |pfd| ==> pfd'[d].zone == pfd[d].zone
  }

  lemma AskedHeld(s: P.State, z: nat, held: seq<nat>, pfd0: seq<F.Page>, d: nat)
    requires P.Ok(s) && (z < 2 ==> s.counts[z] == 0 && (z == 1 ==> s.counts[0] == 0)) && SameZones(pfd0, s.pfd)
    requires Conserved(held, FreePages(pfd0), FreePages(s.pfd)) && Asked(pfd0, z, d)
    ensures d in held
  {
    hide P.Ok;
    NoneAsked(s, z, d);
    assert d in FreePages(pfd0);
  }

  method StepPages(a: P.PageAllocator, op: Op, held: seq<nat>, ghost pfd0: seq<F.Page>) returns (r: Option<nat>)
    requires P.Ok(a.View()) && Conserved(held, FreePages(pfd0), FreePages(a.pfd)) && SameZones(pfd0, a.pfd)
    modifies a
    ensures P.Ok(a.View()) && Conserved(After(held, op, r), FreePages(pfd0), FreePages(a.pfd))
    ensures SameZones(pfd0, a.pfd)
    ensures op.Take? && r.None? ==> forall d :: Asked(pfd0, op.arg, d) ==> d in held
    ensures op.Take? && r.Some? ==> op.arg < F.NR_ZONES && r.value < |a.pfd| && F.InZone(a.pfd[r.value].pfn, op.arg)
  {
    hide Conserved, P.Ok;
    ghost var before, s := FreePages(pfd0), a.View();
    r := None;
    match op {
      case Take(z) =>
        if z < F.NR_ZONES {
          r := a.GetFreePage(z);
          if r.Some? {
            Taken(held, before, FreePages(old(a.pfd)), r.value);
            assert FreePages(a.pfd) == FreePages(old(a.pfd)) - {r.value};
          }
        }
        if r.None? {
          forall d | Asked(pfd0, z, d)
            ensures d in held
          {
            AskedHeld(s, z, held, pfd0, d);
          }
        }
      case Give(k) =>
        if k < |held| {
          Given(held, before, FreePages(a.pfd), k);
          var ok := a.FreePage(held[k]);
          assert FreePages(a.pfd) == FreePages(old(a.pfd)) + {held[k]};
        }
    }
  }

  /** Over every run of get_free_page() and free_page(), no page is handed out twice, none is lost and none is refused
      while one that may be handed out is free; free_page() never panics on a page that is held. */
  method RunPages(a: P.PageAllocator, ops: seq<Op>) returns (log: seq<Option<nat>>)
    requires P.Ok(a.View())
    modifies a
    ensures P.Ok(a.View()) && |a.pfd| == |old(a.pfd)| && |log| == |ops|
    ensures Conserved(Replay(ops, log), FreePages(old(a.pfd)), FreePages(a.pfd))
    ensures forall n :: 0 <= n < |ops| ==> PageRefused(ops, log, old(a.pfd), n)
  {
    hide P.Ok, PageRefused, Asked;
    log := [];
    var held := [];
    ghost var pfd0 := a.pfd;
    for n := 0 to |ops|
      invariant |log| == n && held == Replay(ops[..n], log)
      invariant P.Ok(a.View()) && Conserved(held, FreePages(pfd0), FreePages(a.pfd)) && SameZones(pfd0, a.pfd)
      invariant forall j :: 0 <= j < n ==> PageRefused(ops, log, pfd0, j)
    {
      var r := StepPages(a, ops[n], held, pfd0);
      ReplayStep(ops, log, n, r);
      PageRefusedOne(ops, log, pfd0, n, r);
      held, log := After(held, ops[n], r), log + [r];
    }
    assert ops[..|ops|] == ops;
  }

  /** A buffer of the client: its address, its bucket, and the last value written to each offset that was written. */
  datatype Buffer = Buffer(at: nat, idx: nat, data: map<nat, nat>)

  datatype HeapOp = Alloc(size: nat) | Free(k: nat) | Write(k: nat, offset: nat, val: nat)

  /** What the client holds after an operation that answered `r`: an address, or for Free whether it worked. */
  function HeapAfter(held: seq<Buffer>, op: HeapOp, r: Option<nat>): seq<Buffer> {
    match op
    case Alloc(size) => if 0 < size <= B.PAGE && r.Some? then held + [Buffer(r.value, B.BucketFor(size), map[])]
    else held
    case Free(k) => if k < |held| && r.Some? then Dropped(held, k) else held
    case Write(k, offset, val) =>
      if k < |held| && B.MIN_IDX <= held[k].idx <= B.MAX_IDX && offset < B.Size(held[k].idx)
      then held[k := held[k].(data := held[k].data[offset := val])]
      else held
  }

  function HeapReplay(ops: seq<HeapOp>, log: seq<Option<nat>>): seq<Buffer>
    requires |ops| == |log|
  {
    if ops == [] then []
    else HeapAfter(HeapReplay(ops[..|ops| - 1], log[..|log| - 1]), ops[|ops| - 1], log[|log| - 1])
  }

  lemma HeapReplayStep(ops: seq<HeapOp>, log: seq<Option<nat>>, n: nat, r: Option<nat>)
    requires n < |ops| && |log| == n
    ensures HeapReplay(ops[..n + 1], log + [r]) == HeapAfter(HeapReplay(ops[..n], log), ops[n], r)
  {
    hide HeapAfter;
    assert ops[..n + 1][..n] == ops[..n] && (log + [r])[..n] == log;
  }

  /** The buffer is live and holds what was written to it, or at byte 8 the signature that kmalloc() wrote. */
  ghost predicate Keeps(h: K.Heap, b: Buffer) {
    && K.Live(h, b.at, b.idx) && (8 !in b.data ==> B.Signature(h.mem, b.at) == B.ALLOC_SIG)
    && forall o: nat :: o in b.data ==> o < B.Size(b.idx) && B.Cell(h.mem, b.at + o) == b.data[o]
  }

  ghost predicate Owns(h: K.Heap, held: seq<Buffer>) {
    && (forall k :: 0 <= k < |held| ==> Keeps(h, held[k]))
    && forall j, k :: 0 <= j < k < |held| ==> held[j].at != held[k].at
  }

  /** Live buffers stay live with their bytes, but for the one at `at`. */
  ghost predicate Spares(h: K.Heap, h': K.Heap, at: nat) {
    forall b, j :: K.Live(h, b, j) && b != at ==> K.Live(h', b, j) && K.SameBuffer(h.mem, h'.mem, b, B.Size(j))
  }

  /** The buffers that were live at the start belong to others: they are live, with their bytes, and none is held. */
  ghost predicate Others(h0: K.Heap, h: K.Heap, held: seq<Buffer>) {
    forall b, j :: K.Live(h0, b, j) ==>
                     && K.Live(h, b, j) && K.SameBuffer(h0.mem, h.mem, b, B.Size(j))
                     && forall k :: 0 <= k < |held| ==> held[k].at != b
  }

  lemma KeptOver(h: K.Heap, h': K.Heap, at: nat, b: Buffer)
    requires Keeps(h, b) && Spares(h, h', at) && b.at != at
    ensures Keeps(h', b)
  {
    assert K.SameBuffer(h.mem, h'.mem, b.at, B.Size(b.idx));
  }

  lemma OthersOver(h0: K.Heap, h: K.Heap, h': K.Heap, at: nat, held: seq<Buffer>, held': seq<Buffer>)
    requires Others(h0, h, held) && Spares(h, h', at) && forall j :: !K.Live(h0, at, j)
    requires forall b :: b in held' ==> b.at == at || exists k :: 0 <= k < |held| && held[k].at == b.at
    ensures Others(h0, h', held')
  {
    forall b, j | K.Live(h0, b, j)
      ensures K.Live(h', b, j) && K.SameBuffer(h0.mem, h'.mem, b, B.Size(j))
      ensures forall k :: 0 <= k < |held'| ==> held'[k].at != b
    {
      assert K.SameBuffer(h0.mem, h.mem, b, B.Size(j)) && K.SameBuffer(h.mem, h'.mem, b, B.Size(j));
      forall k | 0 <= k < |held'|
        ensures held'[k].at != b
      {
        assert held'[k] in held';
      }
    }
  }

  /** An address that becomes live was not live before, in any bucket. */
  lemma NewApart(h: K.Heap, h': K.Heap, b: nat, j: nat, at: nat, i: nat)
    requires K.HeapOk(h') && K.Live(h, b, j) && K.Live(h', b, j) && K.Live(h', at, i) && at !in h.lives[i]
    ensures b != at
  {
    if b == at {
      K.LiveBuffers(h', at, i, b, j);
    }
  }

  lemma HeapSized(h: K.Heap)
    requires K.HeapOk(h)
    ensures K.Sized(h)
  {
  }

  method HeapAlloc(heap: K.KernelHeap, size: nat, held: seq<Buffer>, ghost h0: K.Heap) returns (r: Option<nat>)
    requires K.HeapOk(heap.View()) && Owns(heap.View(), held) && Others(h0, heap.View(), held) && 0 < size
    modifies heap
    ensures K.HeapOk(heap.View())
    ensures var held' := HeapAfter(held, Alloc(size), r); Owns(heap.View(), held') && Others(h0, heap.View(), held')
    ensures r.Some? ==> size <= B.PAGE && size <= B.Size(B.BucketFor(size))
    ensures |heap.pool| <= |old(heap.pool)| && (r.None? && size <= 4096 ==> heap.pool == [])
  {
    hide K.HeapOk, Owns, Others, B.Size, B.BucketFor, K.SameBuffer;
    ghost var h := heap.View();
    HeapSized(h);
    r := heap.Kmalloc(size);
    if r.Some? {
      Allocated(h0, h, heap.View(), r.value, B.BucketFor(size), held);
    }
  }

  lemma Allocated(h0: K.Heap, h: K.Heap, h': K.Heap, at: nat, i: nat, held: seq<Buffer>)
    requires K.HeapOk(h') && Owns(h, held) && Others(h0, h, held) && K.Sized(h) && K.IsBucket(i)
    requires at !in h.lives[i] && K.Live(h', at, i) && B.Signature(h'.mem, at) == B.ALLOC_SIG
    requires forall b, j :: K.Live(h, b, j) ==> K.Live(h', b, j) && K.SameBuffer(h.mem, h'.mem, b, B.Size(j))
    ensures var held' := held + [Buffer(at, i, map[])]; Owns(h', held') && Others(h0, h', held')
  {
    hide K.HeapOk, B.Size, K.SameBuffer;
    forall k | 0 <= k < |held|
      ensures Keeps(h', held[k]) && held[k].at != at
    {
      NewApart(h, h', held[k].at, held[k].idx, at, i);
      KeptOver(h, h', at, held[k]);
    }
    forall b, j | K.Live(h0, b, j)
      ensures b != at
    {
      NewApart(h, h', b, j, at, i);
    }
    OthersOver(h0, h, h', at, held, held + [Buffer(at, i, map[])]);
  }

  function Dropped(held: seq<Buffer>, k: nat): seq<Buffer>
    requires k < |held|
  {
    held[..k] + held[k + 1..]
  }

  method HeapFree(heap: K.KernelHeap, k: nat, held: seq<Buffer>, ghost h0: K.Heap) returns (r: Option<nat>)
    requires K.HeapOk(heap.View()) && Owns(heap.View(), held) && Others(h0, heap.View(), held) && k < |held|
    modifies heap
    ensures K.HeapOk(heap.View())
    ensures var held' := HeapAfter(held, Free(k), r); Owns(heap.View(), held') && Others(h0, heap.View(), held')
    ensures heap.pool == old(heap.pool) && (r.None? <==> Forged(held[k]))
  {
    hide K.HeapOk, Owns, Others, B.Size, K.SameBuffer, K.Pushed;
    ghost var h := heap.View();
    HeldSignature(h, held, k);
    var ok := heap.Kfree(held[k].at);
    r := None;
    if ok {
      r := Some(0);
      Freed(h0, h, heap.View(), k, held);
    }
  }

  /** The client stored the free signature at byte 8. */
  predicate Forged(b: Buffer) { 8 in b.data && b.data[8] % 0x1_0000_0000 == 0xcafe_babe }

  lemma HeldSignature(h: K.Heap, held: seq<Buffer>, k: nat)
    requires Owns(h, held) && k < |held|
    ensures K.Live(h, held[k].at, held[k].idx) && (B.Signature(h.mem, held[k].at) == B.FREE_SIG <==> Forged(held[k]))
  {
    assert Keeps(h, held[k]);
  }

  lemma Freed(h0: K.Heap, h: K.Heap, h': K.Heap, k: nat, held: seq<Buffer>)
    requires Owns(h, held) && Others(h0, h, held) && k < |held| && Spares(h, h', held[k].at)
    ensures Owns(h', Dropped(held, k)) && Others(h0, h', Dropped(held, k))
  {
    hide B.Size, K.SameBuffer;
    forall m | 0 <= m < |held| && m != k
      ensures Keeps(h', held[m])
    {
      KeptOver(h, h', held[k].at, held[m]);
    }
    OthersOver(h0, h, h', held[k].at, held, Dropped(held, k));
  }

  method HeapWrite(heap: K.KernelHeap, k: nat, offset: nat, val: nat, held: seq<Buffer>, ghost h0: K.Heap)
    requires K.HeapOk(heap.View()) && Owns(heap.View(), held) && Others(h0, heap.View(), held) && k < |held|
    requires K.Live(heap.View(), held[k].at, held[k].idx)
    modifies heap
    ensures K.HeapOk(heap.View()) && heap.pool == old(heap.pool)
    ensures var held' := HeapAfter(held, Write(k, offset, val), None);
            Owns(heap.View(), held') && Others(h0, heap.View(), held')
  {
    hide K.HeapOk, Owns, Others, B.Size, K.SameBuffer;
    ghost var h := heap.View();
    var b := held[k];
    if offset < B.Size(b.idx) {
      heap.ClientWrite(b.at, b.idx, b.at + offset, val);
      Wrote(h0, h, heap.View(), k, offset, val, held);
    }
  }

  /** A write inside one buffer reaches no other. */
  lemma WriteSpares(h: K.Heap, h': K.Heap, at: nat, i: nat, c: nat, val: nat)
    requires K.HeapOk(h) && K.Live(h, at, i) && at <= c < at + B.Size(i) && h' == h.(mem := h.mem[c := val])
    ensures Spares(h, h', at)
  {
    hide K.HeapOk, B.Size;
    forall b, j | K.Live(h, b, j) && b != at
      ensures K.Live(h', b, j) && K.SameBuffer(h.mem, h'.mem, b, B.Size(j))
    {
      K.LiveBuffers(h, at, i, b, j);
    }
  }

  lemma Wrote(h0: K.Heap, h: K.Heap, h': K.Heap, k: nat, offset: nat, val: nat, held: seq<Buffer>)
    requires K.HeapOk(h) && Owns(h, held) && Others(h0, h, held) && k < |held| && K.Live(h, held[k].at, held[k].idx)
    requires offset < B.Size(held[k].idx) && h' == h.(mem := h.mem[held[k].at + offset := val])
    ensures var held' := held[k := held[k].(data := held[k].data[offset := val])];
            Owns(h', held') && Others(h0, h', held')
  {
    hide K.HeapOk, B.Size, K.SameBuffer;
    var b := held[k];
    WriteSpares(h, h', b.at, b.idx, b.at + offset, val);
    forall m | 0 <= m < |held| && m != k
      ensures Keeps(h', held[m])
    {
      KeptOver(h, h', b.at, held[m]);
    }
    assert Keeps(h, b);
    assert Keeps(h', b.(data := b.data[offset := val]));
    OthersOver(h0, h, h', b.at, held, held[k := b.(data := b.data[offset := val])]);
  }

  /** Over every run of kmalloc(), kfree() and writes by a client, its buffers are live, different and hold what was
      last written to them, and the buffers of others, live at the start, are live with all their bytes; and what each
      call answered. */
  method RunHeap(heap: K.KernelHeap, ops: seq<HeapOp>) returns (log: seq<Option<nat>>)
    requires K.HeapOk(heap.View())
    modifies heap
    ensures |log| == |ops| && K.HeapOk(heap.View())
    ensures var held := HeapReplay(ops, log);
            Owns(heap.View(), held) && Others(old(heap.View()), heap.View(), held)
    ensures forall n :: 0 <= n < |ops| ==> Answered(ops, log, n, heap.pool)
  {
    hide K.HeapOk, B.Size, B.BucketFor, Owns, Others, HeapAfter, Answered;
    log := [];
    var held := [];
    ghost var h0 := heap.View();
    NothingHeld(h0);
    for n := 0 to |ops|
      invariant |log| == n && held == HeapReplay(ops[..n], log)
      invariant K.HeapOk(heap.View()) && Owns(heap.View(), held) && Others(h0, heap.View(), held)
      invariant forall j :: 0 <= j < n ==> Answered(ops, log, j, heap.pool)
    {
      ghost var pool := heap.pool;
      var r := StepHeap(heap, ops[n], held, h0);
      AnsweredOne(ops, log, n, r, pool, heap.pool);
      HeapReplayStep(ops, log, n, r);
      held, log := HeapAfter(held, ops[n], r), log + [r];
    }
    assert ops[..|ops|] == ops;
  }

  lemma NothingHeld(h: K.Heap)
    ensures Owns(h, []) && Others(h, h, [])
  {
  }

  /** What an operation answered: an allocation of up to a page fails only if the pool of pages is empty from then on,
      and a held buffer cannot be freed exactly if the client stored the free signature at its byte 8. */
  ghost predicate Answered(ops: seq<HeapOp>, log: seq<Option<nat>>, n: nat, pool: seq<nat>)
    requires |log| <= |ops| && n < |log|
  {
    match ops[n]
    case Alloc(size) => log[n].None? && 0 < size <= 4096 ==> pool == []
    case Free(k) => var held := HeapReplay(ops[..n], log[..n]); k < |held| ==> (log[n].None? <==> Forged(held[k]))
    case Write(_, _, _) => true
  }

  lemma AnsweredOne(ops: seq<HeapOp>, log: seq<Option<nat>>, n: nat, r: Option<nat>, before: seq<nat>,
                    pool: seq<nat>)
    requires n < |ops| && |log| == n && (before == [] ==> pool == [])
    requires forall j :: 0 <= j < n ==> Answered(ops, log, j, before)
    requires ops[n].Alloc? && r.None? && 0 < ops[n].size <= 4096 ==> pool == []
    requires var held := HeapReplay(ops[..n], log);
             ops[n].Free? && ops[n].k < |held| ==> (r.None? <==> Forged(held[ops[n].k]))
    ensures forall j :: 0 <= j <= n ==> Answered(ops, log + [r], j, pool)
  {
    hide HeapReplay;
    forall j | 0 <= j <= n
      ensures Answered(ops, log + [r], j, pool)
    {
      assert (log + [r])[..j] == log[..j];
      assert j < n ==> Answered(ops, log, j, before);
      assert log[..n] == log;
    }
  }

  method StepHeap(heap: K.KernelHeap, op: HeapOp, held: seq<Buffer>, ghost h0: K.Heap) returns (r: Option<nat>)
    requires K.HeapOk(heap.View()) && Owns(heap.View(), held) && Others(h0, heap.View(), held)
    modifies heap
    ensures K.HeapOk(heap.View())
    ensures var held' := HeapAfter(held, op, r); Owns(heap.View(), held') && Others(h0, heap.View(), held')
    ensures |heap.pool| <= |old(heap.pool)|
    ensures op.Alloc? && r.None? && 0 < op.size <= 4096 ==> heap.pool == []
    ensures op.Free? && op.k < |held| ==> (r.None? <==> Forged(held[op.k]))
  {
    hide K.HeapOk, B.Size, B.BucketFor, K.SameBuffer, Others;
    r := None;
    match op {
      case Alloc(size) =>
        if 0 < size {
          r := HeapAlloc(heap, size, held, h0);
        }
      case Free(k) =>
        if k < |held| {
          r := HeapFree(heap, k, held, h0);
        }
      case Write(k, offset, val) =>
        if k < |held| {
          assert Keeps(heap.View(), held[k]);
          HeapWrite(heap, k, offset, val, held, h0);
        }
    }
  }
}
