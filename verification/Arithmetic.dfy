/** Division facts shared by the rate bounds. */
module Arithmetic {
  lemma AtMostQuotient(k: int, d: int, q: int, r: int)
    requires k * d <= q * d + r && 0 <= r < d
    ensures k <= q
  {
    if k > q {
      MulMonotone(q + 1, k, d);
    }
  }

  lemma MulMonotone(a: int, b: int, d: int)
    requires a <= b && d >= 0
    ensures a * d <= b * d
  {
    assert (b - a) * d >= 0;
  }

  /** Whatever fits k times into x does so at most x / d times. */
  lemma QuotientBound(k: int, d: int, x: int)
    requires d > 0 && k * d <= x
    ensures k <= x / d
  {
    assert x == d * (x / d) + x % d;
    AtMostQuotient(k, d, x / d, x % d);
  }

  /** `k` times `d`, by repeated addition. */
  function Times(k: nat, d: int): int {
    if k == 0 then 0 else Times(k - 1, d) + d
  }

  lemma {:induction false} TimesIsProduct(k: nat, d: int)
    ensures Times(k, d) == k * d
  {
    if k > 0 {
      TimesIsProduct(k - 1, d);
    }
  }

  /** When `k` periods of length `d` fit into `x`, so does `m` for each of them into m * (x / d). */
  lemma WholePeriods(k: nat, d: int, m: nat, x: int)
    requires d > 0 && Times(k, d) <= x
    ensures x >= 0 && Times(k, m) <= m * (x / d)
  {
    TimesIsProduct(k, d);
    TimesIsProduct(k, m);
    QuotientBound(k, d, x);
    MulMonotone(0, k, d);
    MulMonotone(k, x / d, m);
  }
}
