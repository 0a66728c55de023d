/** Integer facts the resampler's rational positions rest on. */
module PositionArithmetic {

  lemma MulMono(a: nat, b: nat, m: nat)
    requires a <= b
    ensures a * m <= b * m
  {
  }

  lemma Distributes(a: nat, b: nat, m: nat)
    ensures (a + b) * m == a * m + b * m
  {
  }

  lemma DivMod(x: nat, d: nat)
    requires d > 0
    ensures x == x / d * d + x % d && x % d < d
  {
  }

  /** k is at most the quotient exactly when k divisors fit. */
  lemma FitsQuotient(k: nat, d: nat, x: nat)
    requires d > 0
    ensures k <= x / d <==> k * d <= x
  {
    var q := x / d;
    assert x == q * d + x % d;
    if k <= q {
      MulMono(k, q, d);
    } else {
      MulMono(q + 1, k, d);
      assert (q + 1) * d == q * d + d;
    }
  }

  /** Splitting a position that is known as quotient and remainder. */
  lemma QuotientUnique(x: nat, d: nat, q: nat, r: nat)
    requires d > 0 && r < d && x == q * d + r
    ensures x / d == q && x % d == r
  {
    FitsQuotient(q, d, x);
    FitsQuotient(q + 1, d, x);
    assert (q + 1) * d == q * d + d;
    assert x / d == q;
    assert x == (x / d) * d + x % d;
  }
}
