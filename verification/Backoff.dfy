/**
 The delays of backoff.go and the Retry-After header of retry.go.  Durations are nanoseconds.
 Integer arithmetic is at the source's 64-bit width; `float64` arithmetic is over the reals.
 `rand` is the sample in [0, 1) that a jittered delay draws.
 */
module Backoff {
  import opened Wrappers

  const INT64_MIN := -0x8000_0000_0000_0000
  const INT64_MAX := 0x7fff_ffff_ffff_ffff

  /** Two's-complement wrap-around at 64 bits. */
  function Wrap64(x: int): int {
    (x - INT64_MIN) % 0x1_0000_0000_0000_0000 + INT64_MIN
  }

  /** The 64-bit number that differs from x by a multiple of 2 to the 64th. */
  predicate WrapsTo(x: int, w: int) {
    INT64_MIN <= w <= INT64_MAX && (x - w) % 0x1_0000_0000_0000_0000 == 0
  }

  lemma Wrap64Meaning(x: int)
    ensures WrapsTo(x, Wrap64(x))
    ensures forall w :: WrapsTo(x, w) ==> w == Wrap64(x)
    ensures INT64_MIN <= x <= INT64_MAX ==> Wrap64(x) == x
  {
  }

  function Truncate(x: real): int {
    if x >= 0.0 then x.Floor else -(-x).Floor
  }

  function Power(x: real, n: nat): real {
    if n == 0 then 1.0 else x * Power(x, n - 1)
  }

  /** d times the n-th power of x, one factor at a time. */
  function Scaled(d: real, x: real, n: nat): real {
    if n == 0 then d else x * Scaled(d, x, n - 1)
  }

  lemma {:induction false} ScaledIsProduct(d: real, x: real, n: nat)
    ensures Scaled(d, x, n) == d * Power(x, n)
  {
    if n > 0 {
      ScaledIsProduct(d, x, n - 1);
      assert x * (d * Power(x, n - 1)) == d * (x * Power(x, n - 1));
    }
  }

  datatype Backoff =
    | Exponential(initial: int, max: int, multiplier: real, jitter: real)
    | Constant(d: int)
    | Linear(initial: int, max: int, step: int)
    | Custom(delay: int -> int)

  function Cap(d: real, max: real): real {
    if d > max then max else d
  }

  /** The delay before jitter. */
  function Unjittered(initial: int, max: int, multiplier: real, attempt: int): real {
    Cap(Scaled(initial as real, multiplier, if attempt < 0 then 0 else attempt), max as real)
  }

  /** The point that the sample picks between d - delta and d + delta. */
  function Spread(d: real, delta: real, rand: real): real {
    d - delta + rand * 2.0 * delta
  }

  function Jittered(d: real, jitter: real, rand: real): real {
    if jitter > 0.0 then
      var d1 := Spread(d, d * jitter, rand);
      if d1 < 0.0 then 0.0 else d1
    else d
  }

  function NextDelay(b: Backoff, attempt: int, rand: real): int {
    match b
    case Exponential(initial, max, multiplier, jitter) =>
      Truncate(Jittered(Unjittered(initial, max, multiplier, attempt), jitter, rand))
    case Constant(d) => d
    case Linear(initial, max, step) =>
      var d := Wrap64(initial + Wrap64(step * attempt));
      if d > max then max else if d < 0 then 0 else d
    case Custom(delay) => delay(attempt)
  }

  lemma ProductSign(a: real, b: real)
    requires a >= 0.0 && b >= 0.0
    ensures a * b >= 0.0
  {
  }

  lemma SpreadBounds(d: real, delta: real, rand: real)
    requires 0.0 <= rand < 1.0
    ensures delta >= 0.0 ==> d - delta <= Spread(d, delta, rand) <= d + delta
    ensures delta < 0.0 ==> Spread(d, delta, rand) <= d - delta
  {
    if delta >= 0.0 {
      ProductSign(rand, delta);
      ProductSign(1.0 - rand, delta);
      assert rand * 2.0 * delta == 2.0 * (rand * delta);
      assert (1.0 - rand) * delta == delta - rand * delta;
    } else {
      ProductSign(rand, -delta);
      assert rand * 2.0 * delta == -2.0 * (rand * -delta);
    }
  }

  lemma PartOf(d: real, part: real)
    requires 0.0 <= part <= 1.0
    ensures d >= 0.0 ==> 0.0 <= d * part <= d
    ensures d < 0.0 ==> d <= d * part <= 0.0
  {
    if d >= 0.0 {
      ProductSign(d, part);
      ProductSign(d, 1.0 - part);
    } else {
      ProductSign(-d, part);
      ProductSign(-d, 1.0 - part);
    }
  }

  /** A jitter that is not positive is not applied. */
  function Effective(jitter: real): real {
    if jitter > 0.0 then jitter else 0.0
  }

  lemma JitterOfNonNegative(d: real, jitter: real, rand: real)
    requires d >= 0.0 && 0.0 <= rand < 1.0
    ensures d - d * Effective(jitter) <= Jittered(d, jitter, rand) <= d + d * Effective(jitter)
    ensures Jittered(d, jitter, rand) >= 0.0
  {
    ProductSign(d, Effective(jitter));
    SpreadBounds(d, d * Effective(jitter), rand);
  }

  lemma ProductSignMixed(a: real, b: real)
    requires a <= 0.0 && b >= 0.0
    ensures a * b <= 0.0
  {
    ProductSign(-a, b);
  }

  /** A negative delay is largest at the lowest sample. */
  lemma JitterOfNegative(d: real, jitter: real, rand: real)
    requires d < 0.0 && 0.0 <= rand < 1.0
    ensures Jittered(d, jitter, rand) <= Jittered(d, jitter, 0.0)
    ensures jitter <= 1.0 ==> Jittered(d, jitter, 0.0) <= 0.0
  {
    if jitter > 0.0 {
      ProductSignMixed(d, jitter);
      SpreadAtMostLowest(d, d * jitter, rand);
      if jitter <= 1.0 {
        PartOf(d, jitter);
      }
    }
  }

  lemma SpreadAtMostLowest(d: real, delta: real, rand: real)
    requires delta <= 0.0 && 0.0 <= rand < 1.0
    ensures Spread(d, delta, rand) <= Spread(d, delta, 0.0) == d - delta
  {
    SpreadBounds(d, delta, rand);
    ProductSignMixed(delta, rand);
  }

  /** Truncation goes towards zero, by less than one. */
  lemma TruncateMeaning(x: real)
    ensures x >= 0.0 ==> 0.0 <= Truncate(x) as real <= x < Truncate(x) as real + 1.0
    ensures x <= 0.0 ==> Truncate(x) as real - 1.0 < x <= Truncate(x) as real <= 0.0
  {
  }

  lemma TruncateMonotone(x: real, y: real)
    requires x <= y
    ensures Truncate(x) <= Truncate(y)
    ensures x >= 0.0 ==> Truncate(x) as real <= x
    ensures x <= 0.0 ==> Truncate(x) <= 0
  {
  }

  /** MaxBackoff * (1 + Jitter), the longest a delay should be. */
  function DelayCap(max: int, jitter: real): real {
    max as real * (1.0 + Effective(jitter))
  }

  lemma DelayCapBounds(d: real, max: int, jitter: real)
    requires max >= 0 && d <= max as real
    ensures 0.0 <= max as real <= DelayCap(max, jitter)
    ensures d + d * Effective(jitter) <= DelayCap(max, jitter)
  {
    var m, j := max as real, Effective(jitter);
    ProductSign(m, j);
    ProductSign(m - d, j);
    assert m * (1.0 + j) == m + m * j;
    assert (m - d) * j == m * j - d * j;
  }

  lemma DelayAtLowestSample(initial: int, max: int, multiplier: real, jitter: real, attempt: int, rand: real)
    requires max >= 0 && 0.0 <= rand < 1.0
    ensures var d := Unjittered(initial, max, multiplier, attempt);
            var b := Exponential(initial, max, multiplier, jitter);
            && (d >= 0.0 ==> NextDelay(b, attempt, rand) as real <= DelayCap(max, jitter))
            && (d < 0.0 ==> NextDelay(b, attempt, rand) <= NextDelay(b, attempt, 0.0))
            && (d < 0.0 && jitter <= 1.0 ==> NextDelay(b, attempt, 0.0) <= 0)
  {
    var d := Unjittered(initial, max, multiplier, attempt);
    DelayCapBounds(d, max, jitter);
    if d >= 0.0 {
      JitterOfNonNegative(d, jitter, rand);
      TruncateMonotone(Jittered(d, jitter, rand), d + d * Effective(jitter));
    } else {
      JitterOfNegative(d, jitter, rand);
      TruncateMonotone(Jittered(d, jitter, rand), Jittered(d, jitter, 0.0));
      TruncateMonotone(Jittered(d, jitter, 0.0), Jittered(d, jitter, 0.0));
    }
  }

  predicate WithinCap(b: Backoff, attempt: int, rand: real)
    requires b.Exponential?
  {
    NextDelay(b, attempt, rand) as real <= DelayCap(b.max, b.jitter)
  }

  /** A jitter above one turns a negative delay d into d * (1 - jitter) at the lowest sample. */
  lemma LowestSampleOfNegative(d: real, jitter: real)
    requires jitter > 1.0 && d < 0.0
    ensures Jittered(d, jitter, 0.0) == d * (1.0 - jitter) && d * (1.0 - jitter) > 0.0
  {
    assert d * (1.0 - jitter) == d - d * jitter;
    ProductSignMixed(d, jitter);
    SpreadAtMostLowest(d, d * jitter, 0.0);
    assert d * (1.0 - jitter) > 0.0;
  }

  /** What a jitter above one makes of a negative delay, in whole nanoseconds. */
  function Overshot(d: real, jitter: real): int {
    (d * (1.0 - jitter)).Floor
  }

  lemma LowestSample(b: Backoff, attempt: int)
    requires b.Exponential? && b.jitter > 1.0 && Unjittered(b.initial, b.max, b.multiplier, attempt) < 0.0
    ensures NextDelay(b, attempt, 0.0) == Overshot(Unjittered(b.initial, b.max, b.multiplier, attempt), b.jitter)
  {
    LowestSampleOfNegative(Unjittered(b.initial, b.max, b.multiplier, attempt), b.jitter);
  }

  lemma SampleWithinCap(b: Backoff, attempt: int, rand: real)
    requires b.Exponential? && b.max >= 0 && 0.0 <= rand < 1.0
    requires b.jitter <= 1.0 || Unjittered(b.initial, b.max, b.multiplier, attempt) >= 0.0 || WithinCap(b, attempt, 0.0)
    ensures WithinCap(b, attempt, rand)
  {
    DelayCapBounds(0.0, b.max, b.jitter);
    DelayAtLowestSample(b.initial, b.max, b.multiplier, b.jitter, attempt, rand);
  }

  /** An exponential delay exceeds the maximum by no more than the jitter, whatever the sample, exactly
      when the jitter is at most one, or the delay d that it is applied to is not negative, or
      d * (1 - jitter), in whole nanoseconds, is within that bound. */
  lemma ExponentialDelayBoundIff(b: Backoff, attempt: int)
    requires b.Exponential? && b.max >= 0
    ensures var d := Unjittered(b.initial, b.max, b.multiplier, attempt);
            (forall rand :: 0.0 <= rand < 1.0 ==> WithinCap(b, attempt, rand)) <==>
            b.jitter <= 1.0 || d >= 0.0 || Overshot(d, b.jitter) as real <= DelayCap(b.max, b.jitter)
  {
    var d := Unjittered(b.initial, b.max, b.multiplier, attempt);
    if b.jitter > 1.0 && d < 0.0 {
      LowestSample(b, attempt);
    }
    if b.jitter <= 1.0 || d >= 0.0 || WithinCap(b, attempt, 0.0) {
      forall rand | 0.0 <= rand < 1.0
        ensures WithinCap(b, attempt, rand)
      {
        SampleWithinCap(b, attempt, rand);
      }
    }
  }

  /** In particular the bound holds for every jitter when neither the initial delay nor the multiplier
      is negative. */
  lemma ExponentialDelayBound(initial: int, max: int, multiplier: real, jitter: real, attempt: int, rand: real)
    requires max >= 0 && 0.0 <= rand < 1.0
    requires jitter <= 1.0 || (initial >= 0 && multiplier >= 0.0)
    ensures NextDelay(Exponential(initial, max, multiplier, jitter), attempt, rand) as real <= DelayCap(max, jitter)
  {
    if initial >= 0 && multiplier >= 0.0 {
      ScaledNonNegative(initial as real, multiplier, if attempt < 0 then 0 else attempt);
    }
    ExponentialDelayBoundIff(Exponential(initial, max, multiplier, jitter), attempt);
    assert WithinCap(Exponential(initial, max, multiplier, jitter), attempt, rand);
  }

  lemma {:induction false} ScaledNonNegative(d: real, x: real, n: nat)
    requires d >= 0.0 && x >= 0.0
    ensures Scaled(d, x, n) >= 0.0
  {
    if n > 0 {
      ScaledNonNegative(d, x, n - 1);
      ProductSign(x, Scaled(d, x, n - 1));
    }
  }

  /** Capping before a multiplication does not show after capping again. */
  lemma CapOfProduct(d: real, max: real, x: real)
    requires d >= 0.0 && max >= 0.0 && x >= 1.0
    ensures Cap(x * d, max) == Cap(x * Cap(d, max), max)
    ensures 0.0 <= Cap(d, max) <= Cap(x * d, max)
  {
    ProductSign(x - 1.0, d);
    ProductSign(x - 1.0, max);
    assert (x - 1.0) * d == x * d - d;
    assert (x - 1.0) * max == x * max - max;
  }

  /** Before jitter the delay starts at the initial one and is multiplied at each attempt, up to
      the maximum. */
  lemma UnjitteredGrows(initial: int, max: int, multiplier: real, attempt: nat)
    requires initial >= 0 && max >= 0 && multiplier >= 1.0
    ensures Unjittered(initial, max, multiplier, 0) == Cap(initial as real, max as real)
    ensures Unjittered(initial, max, multiplier, attempt + 1) ==
            Cap(multiplier * Unjittered(initial, max, multiplier, attempt), max as real)
    ensures 0.0 <= Unjittered(initial, max, multiplier, attempt) <= Unjittered(initial, max, multiplier, attempt + 1)
  {
    ScaledNonNegative(initial as real, multiplier, attempt);
    CapOfProduct(Scaled(initial as real, multiplier, attempt), max as real, multiplier);
  }

  /** The uncapped product with the power, or the maximum if that is less; a negative attempt counts as the
      first. */
  lemma UnjitteredIsCapped(initial: int, max: int, multiplier: real, attempt: int)
    ensures var product := initial as real * Power(multiplier, if attempt < 0 then 0 else attempt);
            Unjittered(initial, max, multiplier, attempt) == if product < max as real then product else max as real
  {
    ScaledIsProduct(initial as real, multiplier, if attempt < 0 then 0 else attempt);
  }

  lemma Associates(a: real, b: real, c: real)
    ensures a * (b * c) == a * b * c
  {
  }

  lemma {:induction false} PowerAdds(x: real, m: nat, n: nat)
    ensures Power(x, 0) == 1.0 && Power(x, 1) == x
    ensures Power(x, m + n) == Power(x, m) * Power(x, n)
  {
    assert Power(x, 1) == x * Power(x, 0);
    if m > 0 {
      PowerAdds(x, m - 1, n);
      assert Power(x, m + n) == x * Power(x, m - 1 + n);
      Associates(x, Power(x, m - 1), Power(x, n));
    }
  }

  /** The point between the two ends of the jitter that the sample names. */
  function EvenlySpread(d: real, jitter: real, rand: real): real {
    d * (1.0 + jitter * (2.0 * rand - 1.0))
  }

  /** The sample picks the delay evenly between the two ends of the jitter; what would be negative is 0. */
  lemma JitterIsEven(d: real, jitter: real, rand: real)
    ensures jitter <= 0.0 ==> Jittered(d, jitter, rand) == d
    ensures jitter > 0.0 ==>
              Jittered(d, jitter, rand)
                == if EvenlySpread(d, jitter, rand) > 0.0 then EvenlySpread(d, jitter, rand) else 0.0
  {
    SpreadIsEven(d, jitter, rand);
  }

  lemma SpreadIsEven(d: real, jitter: real, rand: real)
    ensures Spread(d, d * jitter, rand) == EvenlySpread(d, jitter, rand)
  {
    Associates(d, jitter, 2.0 * rand - 1.0);
  }

  /** Constant delays are the same at every attempt, custom ones are what the given function says. */
  lemma OtherDelays(d: int, delay: int -> int, attempt: int, rand: real)
    ensures NextDelay(Constant(d), attempt, rand) == d
    ensures NextDelay(Custom(delay), attempt, rand) == delay(attempt)
  {
  }

  /** Jitter moves an exponential delay by at most its share to either side, and truncation by
      less than a nanosecond. */
  lemma ExponentialDelayWindow(initial: int, max: int, multiplier: real, jitter: real, attempt: nat, rand: real)
    requires initial >= 0 && max >= 0 && multiplier >= 0.0 && 0.0 <= rand < 1.0
    ensures var d := Unjittered(initial, max, multiplier, attempt);
            var share := d * Effective(jitter);
            d - share - 1.0 < NextDelay(Exponential(initial, max, multiplier, jitter), attempt, rand) as real
              <= d + share
  {
    var d := Unjittered(initial, max, multiplier, attempt);
    ScaledNonNegative(initial as real, multiplier, attempt);
    JitterOfNonNegative(d, jitter, rand);
  }

  /** A linear delay stays within 0 .. max even when the product or the sum overflows. */
  lemma LinearDelayBound(initial: int, max: int, step: int, attempt: int, rand: real)
    requires max >= 0
    ensures 0 <= NextDelay(Linear(initial, max, step), attempt, rand) <= max
    ensures INT64_MIN <= step * attempt <= INT64_MAX && 0 <= initial + step * attempt <= INT64_MAX ==>
              NextDelay(Linear(initial, max, step), attempt, rand) ==
              if initial + step * attempt > max then max else initial + step * attempt
  {
  }

  /** In general the delay is the 64-bit sum, wrapped once or twice, brought into that range. */
  lemma LinearDelayWraps(initial: int, max: int, step: int, attempt: int, rand: real) returns (w: int)
    requires max >= 0
    ensures WrapsTo(initial + step * attempt, w)
    ensures NextDelay(Linear(initial, max, step), attempt, rand) == if w > max then max else if w < 0 then 0 else w
  {
    w := Wrap64(initial + Wrap64(step * attempt));
    LinearSum(initial, step, attempt);
  }

  /** Wrapping the product first does not change the wrapped sum. */
  lemma LinearSum(initial: int, step: int, attempt: int)
    ensures WrapsTo(initial + step * attempt, Wrap64(initial + Wrap64(step * attempt)))
  {
    var p := step * attempt;
    var w := Wrap64(p);
    var v := Wrap64(initial + w);
    Wrap64Meaning(p);
    Wrap64Meaning(initial + w);
    WrapsTwice(initial + p, initial + w, v);
  }

  lemma WrapsTwice(x: int, y: int, v: int)
    requires (x - y) % 0x1_0000_0000_0000_0000 == 0 && WrapsTo(y, v)
    ensures WrapsTo(x, v)
  {
  }

  // ----- Retry-After (section 10.2.3 of RFC 9110) -----

  const MAX_RETRY_AFTER := 365 * 24 * 3600 * SECOND

  /** A Retry-After header as the two parsers see it: absent or empty, a decimal integer that
      fits 64 bits, a date (given as its distance from now), or neither. */
  datatype Header =
    | Missing
    | Seconds(n: int)
    | Date(untilThen: int)
    | Unparsable

  predicate ValidHeader(h: Header) {
    match h
    case Seconds(n) => INT64_MIN <= n <= INT64_MAX
    case Date(d) => INT64_MIN <= d <= INT64_MAX
    case _ => true
  }

  function Clamp(d: int): int {
    if d < 0 then 0 else if d > MAX_RETRY_AFTER then MAX_RETRY_AFTER else d
  }

  function ParseRetryAfter(h: Header): int {
    match h
    case Missing => 0
    case Seconds(n) =>
      if n < 0 then 0
      else if n > INT64_MAX / SECOND then MAX_RETRY_AFTER
      else
        var d := Wrap64(n * SECOND);
        if d > MAX_RETRY_AFTER then MAX_RETRY_AFTER else d
    case Date(d) => if d < 0 then 0 else if d > MAX_RETRY_AFTER then MAX_RETRY_AFTER else d
    case Unparsable => 0
  }

  /** The 64-bit product never wraps: the result is the exact duration, clamped to 0 .. 365 days. */
  lemma RetryAfterIsExactAndClamped(h: Header)
    requires ValidHeader(h)
    ensures 0 <= ParseRetryAfter(h) <= MAX_RETRY_AFTER
    ensures h.Seconds? ==> ParseRetryAfter(h) == Clamp(h.n * SECOND)
    ensures h.Date? ==> ParseRetryAfter(h) == Clamp(h.untilThen)
    ensures h.Missing? || h.Unparsable? ==> ParseRetryAfter(h) == 0
    ensures MAX_RETRY_AFTER == 31_536_000_000_000_000
  {
  }
}
