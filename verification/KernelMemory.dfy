/** kmalloc() of mm/kmalloc.c on top of the page allocator of mm/page_alloc.c. */
module KernelMemory {
  import opened Options
  import B = Buckets
  import F = FreePages
  import K = Kmalloc
  import P = PageAlloc

  /** The page has a descriptor, which says that it is in use. */
  ghost predicate Taken(pfd: seq<F.Page>, page: nat) {
    exists d :: 0 <= d < |pfd| && pfd[d].pfn == page && !pfd[d].free
  }

  /** The heap and the page allocator agree: every page of a bucket is in use. Page 0 belongs to the kernel itself. */
  ghost predicate Joined(h: K.Heap, s: P.State) {
    && K.HeapOk(h) && P.Ok(s) && h.pool == [] && F.RangesApart(s.rmap)
    && (forall d :: 0 <= d < |s.pfd| ==> 0 < s.pfd[d].pfn)
    && forall p :: p in h.owner ==> Taken(s.pfd, p)
  }

  /** A free page belongs to no bucket. */
  lemma FreeUnowned(h: K.Heap, s: P.State, d: nat)
    requires Joined(h, s) && d < |s.pfd| && s.pfd[d].free
    ensures s.pfd[d].pfn !in h.owner
  {
    if s.pfd[d].pfn in h.owner {
      assert Taken(s.pfd, s.pfd[d].pfn);
      var e :| 0 <= e < |s.pfd| && s.pfd[e].pfn == s.pfd[d].pfn && !s.pfd[e].free;
      P.OneDescriptor(s, d, e);
    }
  }

  /** Pages in use stay in use when a page is taken for a bucket, and that page is in use then. */
  lemma JoinedNew(h: K.Heap, h': K.Heap, s: P.State, t: P.State, d: nat, i: nat)
    requires Joined(h, s) && d < |s.pfd| && t.pfd == s.pfd[d := s.pfd[d].(free := false)] && t.rmap == s.rmap && P.Ok(t)
    requires K.HeapOk(h') && h'.pool == [] && h'.owner == h.owner[s.pfd[d].pfn := i]
    ensures Joined(h', t)
  {
    hide K.HeapOk, P.Ok, F.RangesApart;
    forall p | p in h'.owner ensures Taken(t.pfd, p) {
      if p in h.owner {
        var e :| 0 <= e < |s.pfd| && s.pfd[e].pfn == p && !s.pfd[e].free;
        assert t.pfd[e].pfn == p && !t.pfd[e].free;
      } else {
        assert t.pfd[d].pfn == p && !t.pfd[d].free;
      }
    }
  }

  /** `buf` is a fresh, aligned buffer of at least `size` bytes, and live buffers stay live with their bytes. */
  ghost predicate Serves(h: K.Heap, h': K.Heap, size: nat, buf: nat) {
    && 0 < size <= B.PAGE && K.Sized(h) && K.Sized(h')
    && (var i := B.BucketFor(size);
        buf !in h.lives[i] && K.Live(h', buf, i) && buf % B.Size(i) == 0 && size <= B.Size(i))
    && forall b, j :: K.Live(h, b, j) ==> K.Live(h', b, j) && K.SameBuffer(h.mem, h'.mem, b, B.Size(j))
  }

  predicate NoneFree(counts: seq<nat>) {
    |counts| == F.NR_ZONES && counts[F.ZONE_ANY] == 0 == counts[F.ZONE_1GB]
  }

  /** The bucket is empty: a page of the page allocator is taken for it, unless none is free. */
  method FromNewPage(heap: K.KernelHeap, pages: P.PageAllocator, size: nat) returns (buf: Option<nat>)
    requires Joined(heap.View(), pages.View()) && 0 < size <= B.PAGE && heap.heads[B.BucketFor(size)] == 0
    modifies heap, pages
    ensures Joined(heap.View(), pages.View())
    ensures buf.None? <==> NoneFree(old(pages.counts))
    ensures buf.Some? ==> Serves(old(heap.View()), heap.View(), size, buf.value)
  {
    hide K.HeapOk, P.Ok, F.RangesApart, K.SameBuffer, B.Size, B.BucketFor;
    ghost var h, s := heap.View(), pages.View();
    Shapes(h, s);
    var page := pages.GetFreePage(F.ZONE_ANY);
    if page == None {
      return None;
    }
    FreeUnowned(h, s, page.value);
    heap.Give(pages.pfd[page.value].pfn);
    buf := heap.Kmalloc(size);
    JoinedNew(h, heap.View(), s, pages.View(), page.value, B.BucketFor(size));
  }

  lemma Shapes(h: K.Heap, s: P.State)
    requires Joined(h, s)
    ensures K.Sized(h) && |s.counts| == F.NR_ZONES
  {
  }

  /** kmalloc(): None where the source panics, exactly above a page, or when the bucket is empty and no page is free. */
  method Kmalloc(heap: K.KernelHeap, pages: P.PageAllocator, size: nat) returns (buf: Option<nat>)
    requires Joined(heap.View(), pages.View()) && 0 < size
    modifies heap, pages
    ensures Joined(heap.View(), pages.View())
    ensures buf.None? <==> size > B.PAGE || (old(heap.heads)[B.BucketFor(size)] == 0 && NoneFree(old(pages.counts)))
    ensures buf.Some? ==> Serves(old(heap.View()), heap.View(), size, buf.value)
  {
    hide K.HeapOk, P.Ok, F.RangesApart, K.SameBuffer, B.Size, B.BucketFor;
    Shapes(heap.View(), pages.View());
    if size > B.PAGE {
      return None;
    }
    if heap.heads[B.BucketFor(size)] == 0 {
      buf := FromNewPage(heap, pages, size);
    } else {
      buf := heap.Kmalloc(size);
    }
  }
}
