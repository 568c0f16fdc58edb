/** Division facts and the alignment macros of include/kernel.h, shared by the other modules. */
module Arith {

  /** A quotient and a remainder determine the number. */
  lemma DivModUnique(d: nat, q: nat, r: nat)
    requires 0 < d && r < d
    ensures (q * d + r) / d == q
    ensures (q * d + r) % d == r
  {
    var x := q * d + r;
    assert x == (x / d) * d + x % d;
    MulCancel(d, q, x / d, x % d - r);
  }

  /** Two multiples of `d` that differ by less than `d` are equal. */
  lemma MulCancel(d: nat, a: int, b: int, diff: int)
    requires 0 < d && 0 - d < diff < d
    requires a * d == b * d + diff
    ensures a == b && diff == 0
  {
    assert (a - b) * d == diff;
    assert a - b >= 1 ==> (a - b) * d >= d;
    assert b - a >= 1 ==> (b - a) * d >= d;
  }

  /** Every x is its quotient times the divisor plus its remainder. */
  lemma DivModSplit(d: nat, x: nat)
    requires 0 < d
    ensures x == (x / d) * d + x % d
    ensures x % d < d
  {
  }

  lemma MulOrder(d: nat, a: int, b: int)
    requires 0 < d && a * d < b * d
    ensures a < b
  {
    assert b - a <= 0 ==> (b - a) * d <= 0;
    assert (b - a) * d == b * d - a * d;
  }

  lemma DivBelow(d: nat, x: nat, q: nat)
    requires 0 < d && x < q * d
    ensures x / d < q
  {
    DivModSplit(d, x);
    MulOrder(d, x / d, q);
  }

  lemma DivMonotone(d: nat, x: nat, y: nat)
    requires 0 < d && x <= y
    ensures x / d <= y / d
  {
    DivModSplit(d, y);
    assert (y / d + 1) * d == (y / d) * d + d;
    DivBelow(d, x, y / d + 1);
  }

  /** Multiplication and floor division as repeated addition and subtraction: the same numbers as `*`, `/`
      and `%` (TimesIsMul, QuotIsDiv), but proofs choose when to reason about them. */
  function Times(n: nat, d: nat): nat {
    if n == 0 then 0 else Times(n - 1, d) + d
  }

  function Quot(x: nat, d: nat): nat
    requires 0 < d
  {
    if x < d then 0 else 1 + Quot(x - d, d)
  }

  function Rem(x: nat, d: nat): (r: nat)
    requires 0 < d
    ensures r < d
  {
    if x < d then x else Rem(x - d, d)
  }

  lemma {:induction false} TimesIsMul(n: nat, d: nat)
    ensures Times(n, d) == n * d
  {
    if n > 0 {
      TimesIsMul(n - 1, d);
      assert n * d == (n - 1) * d + d;
    }
  }

  lemma {:induction false} QuotRem(x: nat, d: nat)
    requires 0 < d
    ensures x == Times(Quot(x, d), d) + Rem(x, d)
  {
    if x >= d {
      QuotRem(x - d, d);
    }
  }

  lemma QuotIsDiv(x: nat, d: nat)
    requires 0 < d
    ensures Quot(x, d) == x / d && Rem(x, d) == x % d
  {
    QuotRem(x, d);
    TimesIsMul(Quot(x, d), d);
    DivModUnique(d, Quot(x, d), Rem(x, d));
  }

  lemma {:induction false} QuotRemUnique(q: nat, d: nat, r: nat)
    requires r < d
    ensures Quot(Times(q, d) + r, d) == q && Rem(Times(q, d) + r, d) == r
  {
    if q > 0 {
      QuotRemUnique(q - 1, d, r);
    }
  }

  lemma {:induction false} TimesMonotone(a: nat, b: nat, d: nat)
    requires a <= b
    ensures Times(a, d) <= Times(b, d)
  {
    if a < b {
      TimesMonotone(a, b - 1, d);
    }
  }

  lemma {:induction false} QuotMonotone(x: nat, y: nat, d: nat)
    requires 0 < d && x <= y
    ensures Quot(x, d) <= Quot(y, d)
  {
    if d <= x {
      QuotMonotone(x - d, y - d, d);
    }
  }

  function RoundDown(x: nat, n: nat): (r: nat)
    requires 0 < n
    ensures r % n == 0 && r <= x < r + n
  {
    DivModUnique(n, x / n, 0);
    DivModSplit(n, x);
    (x / n) * n
  }

  /** round_up(): the least multiple of `n` that is not below `x`. */
  function RoundUp(x: nat, n: nat): (r: nat)
    requires 0 < n
    ensures r % n == 0 && x <= r < x + n
  {
    if x == 0 then 0
    else
      DivModUnique(n, (x - 1) / n + 1, 0);
      DivModSplit(n, x - 1);
      assert ((x - 1) / n + 1) * n == ((x - 1) / n) * n + n;
      ((x - 1) / n + 1) * n
  }

  /** ceil_div() */
  function CeilDiv(a: nat, b: nat): nat
    requires 0 < b
  {
    if a == 0 then 0 else Quot(a - 1, b) + 1
  }

  function Min(a: int, b: int): int { if a < b then a else b }

  function Max(a: int, b: int): int { if a > b then a else b }
}
