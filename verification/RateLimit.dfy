/**
 The token bucket of ratelimit.go: its configuration, the operations on the token channel, and
 the refill interval.  The channel holds indistinguishable tokens, so its length stands for it.
 Times are integer nanoseconds; the rate is a real.
 */
module RateLimit {
  import opened Wrappers

  datatype Config = Config(rate: real, burst: nat, waitTimeout: int)

  function WithDefaults(given: Config): Config {
    Config(given.rate,
           if given.burst == 0 then 1 else given.burst,
           if given.waitTimeout < 0 then 0 else given.waitTimeout)
  }

  lemma DefaultsFillZeros(given: Config)
    ensures WithDefaults(given).rate == given.rate
    ensures WithDefaults(given).burst == if given.burst > 0 then given.burst else 1
    ensures WithDefaults(given).waitTimeout == if given.waitTimeout > 0 then given.waitTimeout else 0
  {
  }

  /** max(1ms, trunc(1s / rate)). */
  function Interval(rate: real): int
    requires rate > 0.0
  {
    TickEvery(SECOND as real / rate)
  }

  /** The ticker's interval for a period, which may be a fraction of a nanosecond. */
  function TickEvery(period: real): int {
    if period.Floor < MILLISECOND then MILLISECOND else period.Floor
  }

  /** The interval is the whole nanoseconds of one period of the rate. */
  predicate OnePeriod(interval: int, rate: real) {
    interval as real * rate <= 1_000_000_000.0 < (interval + 1) as real * rate
  }

  lemma Less(a: real, b: real, rate: real)
    requires rate > 0.0 && a < b
    ensures a * rate < b * rate
  {
    assert (b - a) * rate > 0.0;
    assert (b - a) * rate == b * rate - a * rate;
  }

  lemma Between(i: real, j: real, period: real, rate: real, s: real)
    requires rate > 0.0 && period * rate == s && i <= period < j
    ensures i * rate <= s < j * rate
  {
    Less(period, j, rate);
    if i < period {
      Less(i, period, rate);
    }
  }

  /** The period of a rate of up to a thousand per second is a millisecond or more, and conversely. */
  lemma PeriodIsLong(period: real, rate: real, s: real)
    requires rate > 0.0 && period * rate == s && s == 1_000_000_000.0
    ensures rate <= 1000.0 ==> period >= 1_000_000.0
    ensures rate >= 1000.0 ==> period <= 1_000_000.0
  {
    if period < 1_000_000.0 {
      Less(period, 1_000_000.0, rate);
    }
    if period > 1_000_000.0 {
      Less(1_000_000.0, period, rate);
    }
  }

  lemma TickEveryIs(period: real)
    ensures period >= 1_000_000.0 ==> TickEvery(period) == period.Floor
    ensures period <= 1_000_000.0 ==> TickEvery(period) == 1_000_000
  {
  }

  lemma FloorIsOnePeriod(d: int, period: real, rate: real, s: real)
    requires rate > 0.0 && period * rate == s && s == 1_000_000_000.0 && d == period.Floor
    ensures OnePeriod(d, rate)
  {
    Between(d as real, (d + 1) as real, period, rate, s);
  }

  lemma TickEveryMeaning(period: real, rate: real, s: real)
    requires rate > 0.0 && period * rate == s && s == 1_000_000_000.0
    ensures rate <= 1000.0 ==> OnePeriod(TickEvery(period), rate)
    ensures rate >= 1000.0 ==> TickEvery(period) == 1_000_000
  {
    PeriodIsLong(period, rate, s);
    TickEveryIs(period);
    FloorIsOnePeriod(period.Floor, period, rate, s);
  }

  lemma Divide(s: real, rate: real) returns (period: real)
    requires rate > 0.0
    ensures period == s / rate && period * rate == s
  {
    period := s / rate;
  }

  /** Up to a thousand tokens per second the interval is the whole nanoseconds of one period of the rate;
      above that it is a millisecond. */
  lemma IntervalMeaning(rate: real)
    requires rate > 0.0
    ensures rate <= 1000.0 ==> OnePeriod(Interval(rate), rate)
    ensures rate >= 1000.0 ==> Interval(rate) == 1_000_000
  {
    var period := Divide(SECOND as real, rate);
    TickEveryMeaning(period, rate, SECOND as real);
    assert Interval(rate) == TickEvery(period);
  }

  /** What fits into x as often as the interval does so no more often than the rate says, but for the
      nanosecond that the interval may be short of a period. */
  lemma CountFollowsRate(rate: real, interval: int, n: int, x: int)
    requires rate > 0.0 && OnePeriod(interval, rate) && n >= 0 && x >= 0 && n * interval <= x
    ensures n as real * (1_000_000_000.0 - rate) <= x as real * rate
  {
    var d := interval as real;
    OneMore(d, (interval + 1) as real, rate, 1_000_000_000.0);
    AtMost(1_000_000_000.0 - rate, d * rate, n as real);
    assert (d * rate) * n as real == (n as real * d) * rate;
    assert (n * interval) as real == n as real * d;
    AtMost(n as real * d, x as real, rate);
  }

  lemma OneMore(d: real, e: real, rate: real, s: real)
    requires e == d + 1.0 && s < e * rate
    ensures s - rate < d * rate
  {
    assert e * rate == d * rate + rate;
  }

  lemma AtMost(a: real, b: real, factor: real)
    requires a <= b && factor >= 0.0
    ensures a * factor <= b * factor
  {
    assert (b - a) * factor >= 0.0;
    assert (b - a) * factor == b * factor - a * factor;
  }

  /** What Execute does before it looks at a token. */
  datatype Gate = PassThrough | Refuse | Bucket

  function GateOf(cfg: Config): Gate {
    if cfg.rate == 0.0 then PassThrough else if cfg.rate < 0.0 then Refuse else Bucket
  }

  /** A receive that does not block: the tokens left, and whether one was taken. */
  function Take(tokens: nat): (nat, bool) {
    if tokens > 0 then (tokens - 1, true) else (0, false)
  }

  /** A send that does not block: the tokens then, and whether there was room. */
  function Refilled(cfg: Config, tokens: nat): (nat, bool) {
    if tokens < cfg.burst then (tokens + 1, true) else (tokens, false)
  }

  function Deadline(cfg: Config, now: int): int {
    now + cfg.waitTimeout
  }

  /** Whether a caller that found no token is turned away. */
  predicate Denies(cfg: Config, deadline: int, now: int) {
    cfg.waitTimeout == 0 || now > deadline
  }

  class RateLimitPolicy {
    const cfg: Config
    const disabled: bool
    const closedAll: bool
    var tokens: nat

    predicate Valid()
      reads this
    {
      && cfg.burst > 0 && cfg.waitTimeout >= 0
      && (disabled <==> cfg.rate == 0.0) && (closedAll <==> cfg.rate < 0.0)
      && tokens <= cfg.burst
    }

    constructor (given: Config)
      ensures Valid() && cfg == WithDefaults(given)
      ensures tokens == if GateOf(cfg).Bucket? then cfg.burst else 0
    {
      var c := WithDefaults(given);
      cfg := c;
      disabled := c.rate == 0.0;
      closedAll := c.rate < 0.0;
      tokens := 0;
      new;
      if !disabled && !closedAll {
        for i := 0 to cfg.burst
          invariant tokens == i
        {
          tokens := tokens + 1;
        }
      }
    }

    method Enter() returns (gate: Gate)
      requires Valid()
      ensures gate == GateOf(cfg)
      ensures gate == PassThrough <==> cfg.rate == 0.0
      ensures gate == Refuse <==> cfg.rate < 0.0
    {
      if disabled {
        return PassThrough;
      }
      if closedAll {
        return Refuse;
      }
      return Bucket;
    }

    /** The non-blocking receive at the head of the loop in Execute. */
    method TryTake() returns (taken: bool)
      requires Valid()
      modifies this
      ensures Valid() && (tokens, taken) == Take(old(tokens))
      ensures taken <==> old(tokens) > 0
      ensures tokens + (if taken then 1 else 0) == old(tokens)
    {
      taken := tokens > 0;
      if taken {
        tokens := tokens - 1;
      }
    }

    /** The non-blocking send the refill loop makes for each tick. */
    method Refill() returns (accepted: bool)
      requires Valid()
      modifies this
      ensures Valid() && (tokens, accepted) == Refilled(cfg, old(tokens))
      ensures accepted <==> old(tokens) < cfg.burst
      ensures tokens == old(tokens) + if accepted then 1 else 0
    {
      accepted := tokens < cfg.burst;
      if accepted {
        tokens := tokens + 1;
      }
    }
  }
}
