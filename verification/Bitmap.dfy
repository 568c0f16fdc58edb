/** lib/bitmap.c: little-endian bitmaps, and the set of items a bitmap marks as free. */
module Bitmap {
  import opened Arith

  type byte = x: int | 0 <= x < 256

  /** Bit `bit` of a number, as `val & (1 << bit)` reads it. */
  predicate NatBit(val: nat, bit: nat) {
    if bit == 0 then val % 2 == 1 else NatBit(val / 2, bit - 1)
  }

  function Pow2(width: nat): (r: nat)
    ensures 1 <= r
  {
    if width == 0 then 1 else 2 * Pow2(width - 1)
  }

  lemma Halves(val: nat, width: nat)
    requires 0 < width && val < Pow2(width)
    ensures Pow2(width) == 2 * Pow2(width - 1) && val / 2 < Pow2(width - 1) && val - val % 2 + 1 < Pow2(width)
  {
    var p := Pow2(width - 1);
    hide Pow2;
    assert val == 2 * (val / 2) + val % 2;
  }

  /** The number with one bit forced to `on`: the |= and &= ~ of the source. */
  function NatWith(val: nat, bit: nat, on: bool, width: nat): (r: nat)
    requires bit < width && val < Pow2(width)
    ensures r < Pow2(width)
  {
    Halves(val, width);
    if bit == 0 then val - val % 2 + if on then 1 else 0
    else 2 * NatWith(val / 2, bit - 1, on, width - 1) + val % 2
  }

  lemma {:induction false} NatWithBits(val: nat, bit: nat, on: bool, width: nat, k: nat)
    requires bit < width && val < Pow2(width)
    ensures NatBit(NatWith(val, bit, on, width), k) == if k == bit then on else NatBit(val, k)
  {
    if bit == 0 {
      assert NatWith(val, bit, on, width) / 2 == val / 2;
    } else if k > 0 {
      assert NatWith(val, bit, on, width) / 2 == NatWith(val / 2, bit - 1, on, width - 1);
      NatWithBits(val / 2, bit - 1, on, width - 1, k - 1);
    }
  }

  lemma HalfQuotient(val: nat, p: nat)
    requires 0 < p
    ensures (val / 2) / p == val / (2 * p)
  {
    var half := val / 2;
    DivModSplit(p, half);
    var q, r := half / p, half % p;
    var s := 2 * r + val % 2;
    assert q * (2 * p) == 2 * (q * p);
    assert val == q * (2 * p) + s;
    DivModUnique(2 * p, q, s);
  }

  /** Bit `bit` has weight 2^bit. */
  lemma {:induction false} BitWeight(val: nat, bit: nat)
    ensures NatBit(val, bit) <==> val / Pow2(bit) % 2 == 1
  {
    if bit > 0 {
      BitWeight(val / 2, bit - 1);
      HalfQuotient(val, Pow2(bit - 1));
    }
  }

  /** bit_is_set() */
  predicate ByteBit(val: byte, bit: nat)
    requires bit < 8
  {
    NatBit(val, bit)
  }

  function ByteWith(val: byte, bit: nat, on: bool): (r: byte)
    requires bit < 8
    ensures forall k: nat :: k < 8 ==> ByteBit(r, k) == if k == bit then on else ByteBit(val, k)
  {
    assert Pow2(8) == 256 by {
      assert Pow2(3) == 8 && Pow2(6) == 64;
    }
    assert forall k: nat :: k < 8 ==>
                              NatBit(NatWith(val, bit, on, 8), k) == if k == bit then on else NatBit(val, k) by {
      forall k: nat | k < 8 { NatWithBits(val, bit, on, 8, k); }
    }
    NatWith(val, bit, on, 8)
  }

  /** The eight bits of a byte, lowest first. */
  function ByteBits(val: byte): (r: seq<bool>)
    ensures |r| == 8
  {
    seq(8, i requires 0 <= i < 8 => ByteBit(val, i))
  }

  /** A bitmap buffer as the sequence of its bits: item 0 is bit 0 of the first byte, item 8 is bit 0 of the second. */
  function Bits(buf: seq<byte>): (r: seq<bool>)
    ensures |r| == 8 * |buf|
  {
    if buf == [] then [] else Bits(buf[..|buf| - 1]) + ByteBits(buf[|buf| - 1])
  }

  lemma {:induction false} BitAt(buf: seq<byte>, i: nat)
    requires i < 8 * |buf|
    ensures Bits(buf)[i] == ByteBit(buf[i / 8], i % 8)
  {
    var l := |buf| - 1;
    if i < 8 * l {
      BitAt(buf[..l], i);
    } else {
      assert i / 8 == l && i % 8 == i - 8 * l;
      assert Bits(buf)[i] == ByteBits(buf[l])[i - 8 * l];
    }
  }

  lemma BitsAfter(buf: seq<byte>, i: nat, on: bool)
    requires i < 8 * |buf|
    ensures Bits(buf[i / 8 := ByteWith(buf[i / 8], i % 8, on)]) == Bits(buf)[i := on]
  {
    var after := buf[i / 8 := ByteWith(buf[i / 8], i % 8, on)];
    forall k | 0 <= k < 8 * |buf|
      ensures Bits(after)[k] == Bits(buf)[i := on][k]
    {
      BitAt(buf, k);
      BitAt(after, k);
    }
  }

  /** bitmap_first_set_bit() and bitmap_first_zero_bit(), the two instances of one search macro. */
  method FirstBit(buf: array<byte>, set_: bool) returns (r: int)
    ensures r == -1 ==> forall k :: 0 <= k < 8 * buf.Length ==> Bits(buf[..])[k] != set_
    ensures r != -1 ==> 0 <= r < 8 * buf.Length && Bits(buf[..])[r] == set_
    ensures r != -1 ==> forall k :: 0 <= k < r ==> Bits(buf[..])[k] != set_
  {
    for i := 0 to buf.Length
      invariant forall k :: 0 <= k < 8 * i ==> Bits(buf[..])[k] != set_
    {
      for j := 0 to 8
        invariant forall k :: 0 <= k < 8 * i + j ==> Bits(buf[..])[k] != set_
      {
        BitAt(buf[..], 8 * i + j);
        if ByteBit(buf[i], j) == set_ {
          return i * 8 + j;
        }
      }
    }
    return -1;
  }

  /** bitmap_set_bit() and bitmap_clear_bit() */
  method PutBit(buf: array<byte>, bit: nat, on: bool)
    requires bit < 8 * buf.Length
    modifies buf
    ensures Bits(buf[..]) == Bits(old(buf[..]))[bit := on]
  {
    BitsAfter(buf[..], bit, on);
    buf[bit / 8] := ByteWith(buf[bit / 8], bit % 8, on);
    assert buf[..] == old(buf[..])[bit / 8 := ByteWith(old(buf[bit / 8]), bit % 8, on)];
  }
}
