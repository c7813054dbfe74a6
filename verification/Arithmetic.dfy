/** Machine constants, and products and quotients one step at a time for the solver. */
module Arithmetic {
  const NANOS_PER_SEC: nat := 1_000_000_000
  const U64_MAX: nat := 0xFFFF_FFFF_FFFF_FFFF

  lemma MulMono(a: int, b: int, n: nat)
    requires a <= b
    ensures a * n <= b * n
  {
  }

  lemma MulStrict(a: nat, b: nat, n: nat)
    requires a < b
    ensures a * n + n <= b * n
  {
    MulMono(a + 1, b, n);
  }

  lemma NonzeroMultiple(k: int, d: nat)
    requires k != 0
    ensures k * d >= d || -(k * d) >= d
  {
    if k > 0 {
      MulMono(1, k, d);
    } else {
      MulMono(k, -1, d);
    }
  }

  lemma QuotientIs(a: int, q: int, r: nat, d: nat)
    requires r < d && a == q * d + r
    ensures a / d == q
  {
    assert a == (a / d) * d + a % d;
    assert (a / d - q) * d == r - a % d;
    if a / d != q {
      NonzeroMultiple(a / d - q, d);
    }
  }

  lemma QuotientBound(a: int, q: int, d: nat)
    requires d > 0 && a <= q * d
    ensures a / d <= q
  {
    assert a == (a / d) * d + a % d;
    if a / d > q {
      MulMono(q + 1, a / d, d);
    }
  }

  lemma DivMono(a: int, b: int, d: nat)
    requires d > 0 && a <= b
    ensures a / d <= b / d
  {
    assert b == (b / d) * d + b % d;
    assert a == (a / d) * d + a % d;
    if a / d > b / d {
      MulMono(b / d + 1, a / d, d);
    }
  }

  lemma DivideSum(whole: nat, part: nat, d: nat)
    requires d > 0
    ensures (whole * d + part) / d == whole + part / d
  {
    assert part == (part / d) * d + part % d;
    assert (whole + part / d) * d == whole * d + (part / d) * d;
    QuotientIs(whole * d + part, whole + part / d, part % d, d);
  }
}
