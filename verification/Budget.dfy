/**
 The retry budget of budget.go.  `budget` is a real, so the ratio test is exact;
 `now` is the clock reading Allow makes.
 */
module Budget {
  datatype Config = Config(budget: real, window: int)

  /** NewRetryBudget's defaults. */
  function WithDefaults(given: Config): Config {
    Config(
      if given.budget <= 0.0 || given.budget > 1.0 then 0.1 else given.budget,
      if given.window <= 0 then 10_000_000_000 else given.window)
  }

  lemma DefaultsFillZeros(given: Config)
    ensures 0.0 < given.budget <= 1.0 ==> WithDefaults(given).budget == given.budget
    ensures given.budget <= 0.0 || given.budget > 1.0 ==> WithDefaults(given).budget == 0.1
    ensures WithDefaults(given).window == if given.window > 0 then given.window else 10_000_000_000
  {
  }

  predicate ValidConfig(cfg: Config) {
    0.0 < cfg.budget <= 1.0 && cfg.window > 0
  }

  datatype Counters = Counters(total: int, retries: int, windowStart: int)

  function Ceiling(x: real): int {
    -(-x).Floor
  }

  lemma CeilingBounds(x: real)
    ensures x <= Ceiling(x) as real < x + 1.0
  {
  }

  lemma CeilingLeast(x: real, n: int)
    requires x <= n as real < x + 1.0
    ensures Ceiling(x) == n
  {
  }

  predicate Expired(cfg: Config, c: Counters, now: int) {
    now - c.windowStart > cfg.window
  }

  function OpenWindow(cfg: Config, c: Counters, now: int): Counters {
    if Expired(cfg, c, now) then Counters(0, 0, now) else c
  }

  /** The two loads and the test: whether a caller that loaded these values is turned away. */
  predicate Refuses(cfg: Config, total: int, retries: int) {
    total > 0 && retries as real / total as real >= cfg.budget
  }

  /** One Allow call that nobody interrupts: the new counters and the answer. */
  function AllowAlone(cfg: Config, c: Counters, now: int): (Counters, bool) {
    var c1 := OpenWindow(cfg, c, now);
    var c2 := c1.(total := c1.total + 1);
    if c2.total <= 0 then (c2, true)
    else if Refuses(cfg, c2.total, c2.retries) then (c2, false)
    else (c2.(retries := c2.retries + 1), true)
  }

  /** A call within the window counts towards it; the first call after it has passed begins a new one, is
      its only call, and is granted. */
  lemma WindowResets(cfg: Config, c: Counters, now: int)
    requires ValidConfig(cfg)
    ensures var (c', granted) := AllowAlone(cfg, c, now);
            && (now - c.windowStart > cfg.window ==> c' == Counters(1, 1, now) && granted)
            && (now - c.windowStart <= cfg.window ==>
                  && c'.total == c.total + 1 && c'.windowStart == c.windowStart
                  && c'.retries == c.retries + if granted && c'.total > 0 then 1 else 0)
  {
  }

  /** The budgeted share of n calls, by repeated addition. */
  function Share(b: real, n: nat): real {
    if n == 0 then 0.0 else Share(b, n - 1) + b
  }

  lemma {:induction false} ShareIsProduct(b: real, n: nat)
    ensures Share(b, n) == b * n as real
  {
    if n > 0 {
      ShareIsProduct(b, n - 1);
      assert b * n as real == b * (n - 1) as real + b;
    }
  }

  lemma {:induction false} ShareGrows(b: real, m: nat, n: nat)
    requires b > 0.0 && m <= n
    ensures Share(b, m) <= Share(b, n)
  {
    if m < n {
      ShareGrows(b, m, n - 1);
    }
  }

  /** The closed form: of the calls in the present window exactly the ceiling of their
      budgeted share were granted. */
  predicate Exact(cfg: Config, c: Counters) {
    c.total >= 0 && c.retries == Ceiling(Share(cfg.budget, c.total))
  }

  lemma ExactIsCeilingOfProduct(cfg: Config, c: Counters)
    requires Exact(cfg, c)
    ensures c.retries == Ceiling(cfg.budget * c.total as real)
  {
    ShareIsProduct(cfg.budget, c.total);
  }

  lemma RatioTest(r: int, n: nat, b: real)
    requires n > 0
    ensures r as real / n as real >= b <==> r as real >= Share(b, n)
  {
    var q := r as real / n as real;
    assert q * n as real == r as real;
    ShareIsProduct(b, n);
    if q >= b {
      assert (q - b) * n as real >= 0.0;
    } else {
      assert (b - q) * n as real > 0.0;
    }
  }

  /** The ratio test without its division. */
  predicate BelowShare(cfg: Config, total: int, retries: int) {
    total > 0 && (retries as real) < Share(cfg.budget, total)
  }

  lemma RefusesAtShare(cfg: Config, total: int, retries: int)
    ensures Refuses(cfg, total, retries) <==> total > 0 && !BelowShare(cfg, total, retries)
  {
    if total > 0 {
      RatioTest(retries, total, cfg.budget);
    }
  }

  /** Adding at most one to a real moves its ceiling by one exactly when the old ceiling is
      below the new real. */
  lemma CeilingStep(x: real, b: real)
    requires 0.0 < b <= 1.0
    ensures Ceiling(x + b) == if Ceiling(x) as real >= x + b then Ceiling(x) else Ceiling(x) + 1
  {
    CeilingBounds(x);
    CeilingLeast(x + b, if Ceiling(x) as real >= x + b then Ceiling(x) else Ceiling(x) + 1);
  }

  /** Every Allow keeps the closed form, and grants exactly when the ceiling moves. */
  lemma AllowKeepsExact(cfg: Config, c: Counters, now: int)
    requires ValidConfig(cfg) && Exact(cfg, c)
    ensures var (c', granted) := AllowAlone(cfg, c, now);
            var before := OpenWindow(cfg, c, now);
            && Exact(cfg, c')
            && c'.total == before.total + 1
            && c'.retries == before.retries + (if granted then 1 else 0)
            && (granted <==> Ceiling(Share(cfg.budget, c'.total)) == Ceiling(Share(cfg.budget, before.total)) + 1)
  {
    var before := OpenWindow(cfg, c, now);
    RatioTest(before.retries, before.total + 1, cfg.budget);
    CeilingStep(Share(cfg.budget, before.total), cfg.budget);
  }

  lemma CeilingWithinIff(x: real)
    ensures Ceiling(x) as real <= x <==> x.Floor as real == x
  {
    CeilingBounds(x);
    if x.Floor as real == x {
      CeilingLeast(x, x.Floor);
    }
  }

  /** The grants stay within the budgeted share itself exactly when that share is a whole number;
      otherwise they exceed it by less than one. */
  lemma WithinShareIff(cfg: Config, c: Counters)
    requires Exact(cfg, c)
    ensures c.retries as real <= Share(cfg.budget, c.total) <==>
            Share(cfg.budget, c.total).Floor as real == Share(cfg.budget, c.total)
    ensures Share(cfg.budget, c.total) <= c.retries as real < Share(cfg.budget, c.total) + 1.0
  {
    CeilingWithinIff(Share(cfg.budget, c.total));
    CeilingBounds(Share(cfg.budget, c.total));
  }

  class RetryBudget {
    const cfg: Config
    var total: int
    var retries: int
    var windowStart: int

    function State(): Counters
      reads this
    {
      Counters(total, retries, windowStart)
    }

    predicate Valid()
      reads this
    {
      ValidConfig(cfg) && Exact(cfg, State())
    }

    constructor (given: Config, now: int)
      ensures Valid() && cfg == WithDefaults(given) && State() == Counters(0, 0, now)
    {
      cfg := WithDefaults(given);
      total, retries, windowStart := 0, 0, now;
    }

    /** A sequential Allow; `Valid` holds the closed form. */
    method Allow(now: int) returns (ok: bool)
      requires Valid()
      modifies this
      ensures Valid() && (State(), ok) == AllowAlone(cfg, old(State()), now)
    {
      AllowKeepsExact(cfg, State(), now);
      var start := windowStart;
      if now - start > cfg.window {
        total := 0;
        retries := 0;
        windowStart := now;
      }
      total := total + 1;
      if total <= 0 {
        return true;
      }
      var ratio := retries as real / total as real;
      if ratio >= cfg.budget {
        return false;
      }
      retries := retries + 1;
      return true;
    }
  }
}
