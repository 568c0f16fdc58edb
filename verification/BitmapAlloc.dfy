/** The bitmap allocators of ext2/ext2.c: one bitmap block per group, a free counter per group and a
    volume-wide counter. block_alloc() and inode_alloc() run the same search over their own bitmaps. */
module BitmapAlloc {
  import opened Arith
  import opened Bitmap

  /** Items first .. limit - 1, `per` of them in each group. */
  datatype Range = Range(per: nat, first: nat, limit: nat)

  function ClearBits(bits: seq<bool>): set<nat> {
    set i: nat | i < |bits| && !bits[i]
  }

  lemma ClearBitsAfter(bits: seq<bool>, i: nat, on: bool)
    requires i < |bits| && bits[i] != on
    ensures |ClearBits(bits[i := on])| == |ClearBits(bits)| + if on then -1 else 1
  {
    var after := ClearBits(bits[i := on]);
    assert after == if on then ClearBits(bits) - {i} else ClearBits(bits) + {i};
    assert i in ClearBits(bits) <==> on;
  }

  /** Item number of bit `i` of group `g`. */
  function ItemAt(r: Range, g: nat, i: nat): nat {
    r.first + Times(g, r.per) + i
  }

  predicate Clear(maps: seq<seq<bool>>, r: Range, x: nat)
    requires 0 < r.per && r.first <= x
  {
    var g, i := Quot(x - r.first, r.per), Rem(x - r.first, r.per);
    g < |maps| && i < |maps[g]| && !maps[g][i]
  }

  /** The items that the bitmaps mark as free. */
  function Free(maps: seq<seq<bool>>, r: Range): set<nat>
    requires 0 < r.per
  {
    set x: nat | r.first <= x < r.limit && Clear(maps, r, x)
  }

  /** Bits that stand for no item are set. */
  predicate Padded(maps: seq<seq<bool>>, r: Range) {
    forall g, i: nat :: 0 <= g < |maps| && i < |maps[g]| && !maps[g][i]
                        ==> i < r.per && ItemAt(r, g, i) < r.limit
  }

  lemma ClearItem(maps: seq<seq<bool>>, r: Range, g: nat, i: nat)
    requires 0 < r.per && Padded(maps, r)
    requires g < |maps| && i < |maps[g]| && !maps[g][i]
    ensures Quot(ItemAt(r, g, i) - r.first, r.per) == g && Rem(ItemAt(r, g, i) - r.first, r.per) == i
    ensures ItemAt(r, g, i) in Free(maps, r)
  {
    QuotRemUnique(g, r.per, i);
  }

  function Sum(s: seq<int>): int {
    if s == [] then 0 else Sum(s[..|s| - 1]) + s[|s| - 1]
  }

  lemma {:induction false} SumUpdate(s: seq<int>, i: nat, n: int)
    requires i < |s|
    ensures Sum(s[i := n]) == Sum(s) - s[i] + n
  {
    var l := |s| - 1;
    if i < l {
      assert s[i := n][..l] == s[..l][i := n];
      SumUpdate(s[..l], i, n);
    } else {
      assert s[i := n][..l] == s[..l];
    }
  }

  lemma SumStep(s: seq<int>, n: nat)
    requires n < |s|
    ensures Sum(s[..n + 1]) == Sum(s[..n]) + s[n]
  {
    assert s[..n + 1][..n] == s[..n];
  }

  /** Each group counter counts the clear bits of its bitmap. */
  predicate Counted(maps: seq<seq<bool>>, counts: seq<int>) {
    |counts| == |maps| && forall g :: 0 <= g < |maps| ==> counts[g] == |ClearBits(maps[g])|
  }

  /** The free items of the first `n` groups. */
  function FreeBelow(maps: seq<seq<bool>>, r: Range, n: nat): set<nat>
    requires 0 < r.per
  {
    set x: nat | r.first <= x < r.limit && Clear(maps, r, x) && Quot(x - r.first, r.per) < n
  }

  function Shift(s: set<nat>, base: nat): set<nat> {
    set i | i in s :: base + i
  }

  lemma {:induction false} ShiftCard(s: set<nat>, base: nat)
    ensures |Shift(s, base)| == |s|
  {
    if s != {} {
      var i :| i in s;
      ShiftCard(s - {i}, base);
      assert s == (s - {i}) + {i};
      assert Shift(s, base) == Shift(s - {i}, base) + {base + i};
      assert base + i !in Shift(s - {i}, base);
    }
  }

  /** The free items of a group are its clear bits, shifted. */
  lemma GroupItems(maps: seq<seq<bool>>, r: Range, g: nat)
    requires 0 < r.per && Padded(maps, r) && g < |maps|
    ensures FreeBelow(maps, r, g + 1) == FreeBelow(maps, r, g) + Shift(ClearBits(maps[g]), ItemAt(r, g, 0))
    ensures FreeBelow(maps, r, g) !! Shift(ClearBits(maps[g]), ItemAt(r, g, 0))
  {
    var here := Shift(ClearBits(maps[g]), ItemAt(r, g, 0));
    forall x | x in here
      ensures x in FreeBelow(maps, r, g + 1) && x !in FreeBelow(maps, r, g)
    {
      InGroup(maps, r, g, x);
    }
    forall x | x in FreeBelow(maps, r, g + 1) && x !in FreeBelow(maps, r, g)
      ensures x in here
    {
      NewInGroup(maps, r, g, x);
    }
    assert FreeBelow(maps, r, g) <= FreeBelow(maps, r, g + 1);
  }

  lemma InGroup(maps: seq<seq<bool>>, r: Range, g: nat, x: nat)
    requires 0 < r.per && Padded(maps, r) && g < |maps| && x in Shift(ClearBits(maps[g]), ItemAt(r, g, 0))
    ensures x in FreeBelow(maps, r, g + 1) && x !in FreeBelow(maps, r, g)
  {
    var i :| i in ClearBits(maps[g]) && x == ItemAt(r, g, 0) + i;
    ClearItem(maps, r, g, i);
  }

  lemma NewInGroup(maps: seq<seq<bool>>, r: Range, g: nat, x: nat)
    requires 0 < r.per && g < |maps| && x in FreeBelow(maps, r, g + 1) && x !in FreeBelow(maps, r, g)
    ensures x in Shift(ClearBits(maps[g]), ItemAt(r, g, 0))
  {
    QuotRem(x - r.first, r.per);
    assert Rem(x - r.first, r.per) in ClearBits(maps[g]);
  }

  /** Clear bits and free items are in one-to-one correspondence, so the counters add up. */
  lemma {:induction false} CountsAddUp(maps: seq<seq<bool>>, r: Range, counts: seq<int>, n: nat)
    requires 0 < r.per && Padded(maps, r) && Counted(maps, counts) && n <= |maps|
    ensures |FreeBelow(maps, r, n)| == Sum(counts[..n])
  {
    if n == 0 {
      assert FreeBelow(maps, r, n) == {};
    } else {
      CountsAddUp(maps, r, counts, n - 1);
      SumStep(counts, n - 1);
      GroupCount(maps, r, n - 1);
    }
  }

  lemma GroupCount(maps: seq<seq<bool>>, r: Range, g: nat)
    requires 0 < r.per && Padded(maps, r) && g < |maps|
    ensures |FreeBelow(maps, r, g + 1)| == |FreeBelow(maps, r, g)| + |ClearBits(maps[g])|
  {
    hide *;
    GroupItems(maps, r, g);
    ShiftCard(ClearBits(maps[g]), ItemAt(r, g, 0));
  }

  lemma TotalIsFree(maps: seq<seq<bool>>, r: Range, counts: seq<int>)
    requires 0 < r.per && Padded(maps, r) && Counted(maps, counts)
    ensures |Free(maps, r)| == Sum(counts)
  {
    CountsAddUp(maps, r, counts, |maps|);
    assert counts[..|maps|] == counts;
    assert FreeBelow(maps, r, |maps|) == Free(maps, r);
  }

  /** Writing the bit of item `x` changes the status of `x` alone. */
  lemma FreeAfter(maps: seq<seq<bool>>, r: Range, x: nat, on: bool)
    requires 0 < r.per && r.first <= x < r.limit
    requires Quot(x - r.first, r.per) < |maps|
    requires Rem(x - r.first, r.per) < |maps[Quot(x - r.first, r.per)]|
    ensures var g, i := Quot(x - r.first, r.per), Rem(x - r.first, r.per);
            Free(maps[g := maps[g][i := on]], r) == if on then Free(maps, r) - {x} else Free(maps, r) + {x}
  {
    var g, i := Quot(x - r.first, r.per), Rem(x - r.first, r.per);
    var maps' := maps[g := maps[g][i := on]];
    hide Quot, Rem, Clear;
    forall y: nat | r.first <= y < r.limit
      ensures Clear(maps', r, y) == if y == x then !on else Clear(maps, r, y)
    {
      ClearAfter(maps, r, x, on, g, i, y);
    }
  }

  lemma ClearAfter(maps: seq<seq<bool>>, r: Range, x: nat, on: bool, g: nat, i: nat, y: nat)
    requires 0 < r.per && r.first <= x && r.first <= y
    requires g == Quot(x - r.first, r.per) && i == Rem(x - r.first, r.per) && g < |maps| && i < |maps[g]|
    ensures Clear(maps[g := maps[g][i := on]], r, y) == if y == x then !on else Clear(maps, r, y)
  {
    hide Quot, Rem, Times;
    QuotRem(x - r.first, r.per);
    QuotRem(y - r.first, r.per);
  }

  lemma PaddedAfter(maps: seq<seq<bool>>, r: Range, x: nat, on: bool)
    requires 0 < r.per && r.first <= x < r.limit && Padded(maps, r)
    requires Quot(x - r.first, r.per) < |maps|
    requires Rem(x - r.first, r.per) < |maps[Quot(x - r.first, r.per)]|
    ensures var g, i := Quot(x - r.first, r.per), Rem(x - r.first, r.per);
            Padded(maps[g := maps[g][i := on]], r)
  {
    QuotRem(x - r.first, r.per);
  }

  lemma NoneInGroup(maps: seq<seq<bool>>, r: Range, g: nat)
    requires 0 < r.per && g < |maps| && FreeBelow(maps, r, g) == {}
    requires forall k: nat :: k < |maps[g]| ==> maps[g][k]
    ensures FreeBelow(maps, r, g + 1) == {}
  {
    forall x | x in FreeBelow(maps, r, g + 1)
      ensures x in FreeBelow(maps, r, g)
    {
    }
  }

  lemma FirstInGroup(maps: seq<seq<bool>>, r: Range, g: nat, i: nat)
    requires 0 < r.per && g < |maps| && FreeBelow(maps, r, g) == {}
    requires i < |maps[g]| && i < r.per
    requires forall k: nat :: k < i ==> maps[g][k]
    ensures forall y :: y in Free(maps, r) ==> ItemAt(r, g, i) <= y
  {
    forall y | y in Free(maps, r)
      ensures ItemAt(r, g, i) <= y
    {
      QuotRem(y - r.first, r.per);
      assert y !in FreeBelow(maps, r, g);
      TimesMonotone(g, Quot(y - r.first, r.per), r.per);
      if g < Quot(y - r.first, r.per) {
        TimesMonotone(g + 1, Quot(y - r.first, r.per), r.per);
      }
    }
  }

  /** block_read() of a whole block into a fresh buffer. */
  method CopyBlock(block: seq<byte>) returns (buf: array<byte>)
    ensures fresh(buf) && buf[..] == block
  {
    buf := new byte[|block|](k requires 0 <= k < |block| => block[k]);
  }

  lemma BelowLimit(s: set<nat>, n: nat)
    requires forall x :: x in s ==> x < n
    ensures |s| <= n
  {
    if n == 0 {
      assert s == {};
    } else {
      BelowLimit(s - {n - 1}, n - 1);
    }
  }

  /** Bitmaps and counters agree. */
  predicate Agree(maps: seq<seq<bool>>, r: Range, counts: seq<int>, total: int) {
    0 < r.per && Padded(maps, r) && Counted(maps, counts) && total == Sum(counts)
  }

  /** One bit and its two counters change together; the agreement and the meaning of the total survive. */
  lemma AgreeAfter(maps: seq<seq<bool>>, r: Range, counts: seq<int>, total: int, x: nat, g: nat, i: nat, on: bool,
                   maps': seq<seq<bool>>, counts': seq<int>, total': int)
    requires Agree(maps, r, counts, total) && r.first <= x < r.limit
    requires g == Quot(x - r.first, r.per) && i == Rem(x - r.first, r.per)
    requires g < |maps| && i < |maps[g]| && maps[g][i] != on && g < |counts|
    requires maps' == maps[g := maps[g][i := on]]
    requires counts' == counts[g := counts[g] + if on then -1 else 1] && total' == total + if on then -1 else 1
    ensures Agree(maps', r, counts', total')
    ensures Free(maps', r) == (if on then Free(maps, r) - {x} else Free(maps, r) + {x})
    ensures |Free(maps', r)| == total'
  {
    FreeAfter(maps, r, x, on);
    ClearBitsAfter(maps[g], i, on);
    SumUpdate(counts, g, counts[g] + if on then -1 else 1);
    PaddedAfter(maps, r, x, on);
    TotalIsFree(maps', r, counts');
  }

  /** `bits` are the bits of the bitmap blocks `maps`. */
  predicate Mirrors(maps: seq<seq<byte>>, bits: seq<seq<bool>>, size: nat) {
    |bits| == |maps| && forall g :: 0 <= g < |maps| ==> |maps[g]| == size && bits[g] == Bits(maps[g])
  }

  lemma MirrorsAfter(maps: seq<seq<byte>>, bits: seq<seq<bool>>, size: nat, g: nat, block: seq<byte>, row: seq<bool>)
    requires Mirrors(maps, bits, size) && g < |maps| && |block| == size && Bits(block) == row
    ensures Mirrors(maps[g := block], bits[g := row], size)
  {
  }

  /** An item is free exactly if its bit is clear: items are numbered from `first` on, group after group, and in a group
      from the lowest bit of the first byte on. */
  lemma ItemBit(a: Allocator, g: nat, i: nat)
    requires a.Valid() && g < |a.maps| && i < a.range.per && i < 8 * |a.maps[g]|
    requires a.range.first + g * a.range.per + i < a.range.limit
    ensures a.range.first + g * a.range.per + i in a.free <==> a.maps[g][i / 8] / Pow2(i % 8) % 2 == 0
  {
    hide Bits, Padded, Sum, ClearBits, Quot, Rem, NatBit, Pow2;
    TimesIsMul(g, a.range.per);
    QuotRemUnique(g, a.range.per, i);
    BitAt(a.maps[g], i);
    BitWeight(a.maps[g][i / 8], i % 8);
  }

  class Allocator {
    const range: Range
    const size: nat
    var maps: seq<seq<byte>>
    ghost var bits: seq<seq<bool>>
    ghost var free: set<nat>
    var counts: seq<int>
    var total: int

    ghost predicate Valid()
      reads this
    {
      && 0 < range.per <= 8 * size
      && Mirrors(maps, bits, size)
      && (range.first < range.limit ==> Quot(range.limit - 1 - range.first, range.per) < |maps|)
      && Agree(bits, range, counts, total)
      && free == Free(bits, range)
    }

    /** Take over the bitmaps and counters of a mounted volume. */
    constructor (range: Range, size: nat, maps: seq<seq<byte>>, counts: seq<int>, total: int)
      ensures this.range == range && this.size == size
      ensures this.maps == maps && this.counts == counts && this.total == total
      ensures |bits| == |maps| && forall g :: 0 <= g < |maps| ==> bits[g] == Bits(maps[g])
      ensures 0 < range.per ==> free == Free(bits, range)
    {
      this.range, this.size := range, size;
      this.maps, this.counts, this.total := maps, counts, total;
      bits := seq(|maps|, g requires 0 <= g < |maps| => Bits(maps[g]));
      free := if range.per == 0 then {} else Free(seq(|maps|, g requires 0 <= g < |maps| => Bits(maps[g])), range);
    }

    /** The search over the groups, lowest group and lowest bit first; then the bit and both counters change. */
    method Alloc() returns (found: bool, x: nat)
      requires Valid()
      modifies this
      ensures Valid()
      ensures found <==> old(free) != {}
      ensures !found ==> free == old(free) && total == 0
      ensures found ==> x in old(free) && forall y :: y in old(free) ==> x <= y
      ensures found ==> free == old(free) - {x}
      ensures total == |free|
    {
      hide Bits, Padded, Sum, ClearBits, Quot, Rem, Times;
      assert Agree(bits, range, counts, total);
      TotalIsFree(bits, range, counts);
      var g, i;
      x := 0;
      found, g, i := Search();
      if found {
        TimesIsMul(g, range.per);
        x := range.first + g * range.per + i;
        var buf := CopyBlock(maps[g]);
        Write(x, g, i, buf, true);
      }
    }

    method Search() returns (found: bool, g: nat, bit: nat)
      requires Valid()
      ensures found <==> free != {}
      ensures found ==> g < |maps| && bit < 8 * |maps[g]| && !bits[g][bit]
      ensures found ==> Quot(ItemAt(range, g, bit) - range.first, range.per) == g
      ensures found ==> Rem(ItemAt(range, g, bit) - range.first, range.per) == bit
      ensures found ==> ItemAt(range, g, bit) in free
      ensures found ==> forall y :: y in free ==> ItemAt(range, g, bit) <= y
    {
      assert Agree(bits, range, counts, total);
      for i := 0 to |maps|
        invariant FreeBelow(bits, range, i) == {}
      {
        var buf := CopyBlock(maps[i]);
        assert bits[i] == Bits(buf[..]);
        hide FreeBelow, Free, Padded, Clear;
        var zero := FirstBit(buf, false);
        if zero != -1 {
          ClearItem(bits, range, i, zero);
          FirstInGroup(bits, range, i, zero);
          return true, i, zero;
        }
        assert forall k: nat :: k < |bits[i]| ==> bits[i][k];
        NoneInGroup(bits, range, i);
      }
      assert Free(bits, range) == FreeBelow(bits, range, |maps|);
      return false, 0, 0;
    }

    /** bitmap_bit_is_set() for an item. */
    method InUse(x: nat) returns (b: bool)
      requires Valid() && range.first <= x < range.limit
      ensures b == (x !in free)
    {
      hide Bits, Padded, Sum, ClearBits, Quot, Rem, NatBit;
      QuotIsDiv(x - range.first, range.per);
      QuotMonotone(x - range.first, range.limit - 1 - range.first, range.per);
      var g, i := (x - range.first) / range.per, (x - range.first) % range.per;
      BitAt(maps[g], i);
      b := ByteBit(maps[g][i / 8], i % 8);
    }

    /** Clear the bit of an item in use and raise both counters. */
    method Dealloc(x: nat)
      requires Valid() && range.first <= x < range.limit && x !in free
      modifies this
      ensures Valid()
      ensures free == old(free) + {x}
      ensures total == |free| <= range.limit
    {
      QuotIsDiv(x - range.first, range.per);
      QuotMonotone(x - range.first, range.limit - 1 - range.first, range.per);
      var g, i := (x - range.first) / range.per, (x - range.first) % range.per;
      var buf := CopyBlock(maps[g]);
      Write(x, g, i, buf, false);
      BelowLimit(free, range.limit);
    }

    /** Change one bit of the copied bitmap block, write the block back and update the counters. */
    method Write(x: nat, g: nat, i: nat, buf: array<byte>, on: bool)
      requires Valid() && range.first <= x < range.limit
      requires g == Quot(x - range.first, range.per) && i == Rem(x - range.first, range.per)
      requires g < |maps| && buf[..] == maps[g] && i < 8 * |maps[g]| && bits[g][i] != on
      modifies this, buf
      ensures Valid()
      ensures free == if on then old(free) - {x} else old(free) + {x}
      ensures total == |free|
    {
      hide Free, Bits, Padded, Sum, ClearBits, Quot, Rem;
      assert Agree(bits, range, counts, total) && |counts| == |maps| == |bits|;
      assert bits[g] == Bits(maps[g]) && |maps[g]| == size;
      hide Agree;
      ghost var bits' := bits[g := bits[g][i := on]];
      var counts' := counts[g := counts[g] + if on then -1 else 1];
      var total' := total + if on then -1 else 1;
      AgreeAfter(bits, range, counts, total, x, g, i, on, bits', counts', total');
      PutBit(buf, i, on);
      MirrorsAfter(maps, bits, size, g, buf[..], bits'[g]);
      hide Mirrors;
      Store(maps[g := buf[..]], counts', total', bits', Free(bits', range));
    }

    /** Put the new bitmaps and counters in place. */
    method Store(maps': seq<seq<byte>>, counts': seq<int>, total': int, ghost bits': seq<seq<bool>>,
                 ghost free': set<nat>)
      modifies this
      ensures maps == maps' && counts == counts' && total == total' && bits == bits' && free == free'
    {
      maps, counts, total := maps', counts', total';
      bits, free := bits', free';
    }
  }
}
