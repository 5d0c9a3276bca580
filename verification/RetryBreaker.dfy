/**
 The retry policy wrapped around a fresh circuit breaker, one sequential caller, and a backend
 that is down: every outcome it gives trips the breaker.
 */
module RetryBreaker {
  import opened Wrappers
  import opened Arithmetic
  import C = Circuit
  import opened Retry
  import opened RetryTheorems

  /** The breaker's k-th call happens at `times(k)`; if it is let through the backend answers
      `backend(k)`.  `shouldTrip` is the configured test, if any. */
  datatype Outage = Outage(
    breaker: C.Config,
    shouldTrip: Option<Outcome -> bool>,
    times: nat -> C.CallTimes,
    backend: nat -> Outcome)

  predicate ShouldTrip(f: Option<Outcome -> bool>, o: Outcome) {
    match f
    case Some(test) => test(o)
    case None => o.err.Some? || (o.resp.Some? && o.resp.value.status >= 500)
  }

  /** The default tests of the two policies agree on everything but status 429 and permanent errors. */
  lemma DefaultTestsAgree(o: Outcome)
    ensures ShouldTrip(None, o) <==>
            || (FailsRetryably(o) && !(o.err.None? && o.resp.value.status == 429))
            || (o.err.Some? && o.err.value.Permanent?)
  {
  }

  ghost predicate Valid(d: Outage) {
    && C.ValidConfig(d.breaker)
    && d.breaker.openDuration > 0
    && (forall k {:trigger d.backend(k)} :: ShouldTrip(d.shouldTrip, d.backend(k)))
    && (forall k {:trigger Ordered(d, k)} :: Ordered(d, k))
  }

  /** A sequential caller's clock readings never go back. */
  predicate Ordered(d: Outage, k: nat) {
    && d.times(k).read <= d.times(k).lock <= d.times(k).report
    && (k > 0 ==> d.times(k - 1).report <= d.times(k).read)
  }

  /** The breaker's fields before its k-th call. */
  function Before(d: Outage, k: nat): C.Core
    decreases k, 0
  {
    if k == 0 then C.INITIAL else Call(d, k - 1).0
  }

  /** The k-th call: the fields after it, and whether the backend was called. */
  function Call(d: Outage, k: nat): (C.Core, bool)
    decreases k, 1
  {
    C.ExecuteAlone(d.breaker, Before(d, k), ShouldTrip(d.shouldTrip, d.backend(k)), d.times(k))
  }

  /** How many of the first k calls reached the backend. */
  function BackendCalls(d: Outage, k: nat): nat {
    if k == 0 then 0 else BackendCalls(d, k - 1) + if Call(d, k - 1).1 then 1 else 0
  }

  const CIRCUIT_OPEN := Transient(0)

  /** What the retry policy sees of the k-th call. */
  function Seen(d: Outage, k: nat): Outcome {
    if Call(d, k).1 then d.backend(k) else Outcome(None, Some(CIRCUIT_OPEN))
  }

  /** The time of the first trip. */
  function FirstTrip(d: Outage): int
    requires d.breaker.failureThreshold > 0
  {
    d.times(d.breaker.failureThreshold - 1).report
  }

  /** After k calls, with m probes since the first trip: closed only before the threshold, and
      otherwise open, the m-th probe no sooner than m open durations after the first trip. */
  ghost predicate Paced(d: Outage, k: nat, m: nat)
    requires d.breaker.failureThreshold > 0
  {
    var c, threshold := Before(d, k), d.breaker.failureThreshold;
    match c.state
    case Closed => BackendCalls(d, k) == k == c.failures < threshold && m == 0
    case Open =>
      && k >= threshold
      && BackendCalls(d, k) == threshold + m
      && FirstTrip(d) + Times(m, d.breaker.openDuration) <= c.openedAt <= d.times(k - 1).report
      && (m > 0 ==> FirstTrip(d) + Times(m, d.breaker.openDuration) <= d.times(k - 1).lock)
    case HalfOpen => false
  }

  /** A call to a backend that is down, on a closed breaker and on an open one. */
  lemma CallWhileDown(cfg: C.Config, c: C.Core, at: C.CallTimes)
    requires C.ValidConfig(cfg) && at.read <= at.lock && !c.state.HalfOpen?
    requires c.state.Closed? ==> c.failures < cfg.failureThreshold
    ensures var (c', called) := C.ExecuteAlone(cfg, c, true, at);
            match c.state
            case Closed =>
              && called
              && if c.failures + 1 < cfg.failureThreshold then c' == c.(failures := c.failures + 1)
                 else c'.state.Open? && c'.openedAt == at.report
            case Open =>
              && called == (at.read - c.openedAt >= cfg.openDuration)
              && c'.state.Open?
              && c'.openedAt == if called then at.report else c.openedAt
  {
  }

  lemma PacedStep(d: Outage, k: nat, m: nat) returns (m': nat)
    requires Valid(d) && Paced(d, k, m)
    ensures Paced(d, k + 1, m')
  {
    assert ShouldTrip(d.shouldTrip, d.backend(k)) && Ordered(d, k);
    CallWhileDown(d.breaker, Before(d, k), d.times(k));
    m' := if Before(d, k).state.Open? && Call(d, k).1 then m + 1 else m;
  }

  lemma {:induction false} PacedAlways(d: Outage, k: nat) returns (m: nat)
    requires Valid(d)
    ensures Paced(d, k, m)
  {
    if k == 0 {
      m := 0;
    } else {
      m := PacedAlways(d, k - 1);
      m := PacedStep(d, k - 1, m);
    }
  }

  /** Of k breaker calls, made up to time t, those that reach the backend: all of them up to the
      threshold, and at most one more for each whole OpenDuration since the first trip. */
  lemma BackendCallsBound(d: Outage, k: nat, t: int)
    requires Valid(d) && (k > 0 ==> t >= d.times(k - 1).lock)
    ensures BackendCalls(d, k) >= if k < d.breaker.failureThreshold then k else d.breaker.failureThreshold
    ensures BackendCalls(d, k) <= d.breaker.failureThreshold +
              if t >= FirstTrip(d) then (t - FirstTrip(d)) / d.breaker.openDuration else 0
  {
    var m := PacedAlways(d, k);
    var d0 := d.breaker.openDuration;
    TimesIsProduct(m, d0);
    if m > 0 {
      assert Times(m, d0) <= t - FirstTrip(d);
      MulMonotone(0, m, d0);
      QuotientBound(m, d0, t - FirstTrip(d));
    } else if t >= FirstTrip(d) {
      QuotientBound(0, d0, t - FirstTrip(d));
    }
  }

  /** The environment of the retry policy: its next policy is the breaker. */
  function Around(d: Outage, cancelled: nat -> bool, now: nat -> int, rand: nat -> real): Environment {
    Environment((k: nat) => Seen(d, k), cancelled, now, rand)
  }

  /** What the default tests make of an outage: no error is permanent, so every outcome that trips
      the breaker, and its refusal too, is to be retried. */
  ghost predicate DefaultTests(d: Outage, cfg: Config) {
    && d.shouldTrip.None? && cfg.shouldRetry.None?
    && forall k {:trigger d.backend(k)} :: d.backend(k).err.Some? ==> d.backend(k).err.value.Transient?
  }

  lemma OutageFails(d: Outage, cfg: Config, env: Environment)
    requires Valid(d) && DefaultTests(d, cfg) && env == Around(d, env.cancelled, env.now, env.rand)
    requires forall k {:trigger env.cancelled(k)} :: !env.cancelled(k)
    ensures AllFail(env)
  {
    forall k {:trigger env.outcome(k)}
      ensures FailsRetryably(env.outcome(k))
    {
      assert env.outcome(k) == Seen(d, k);
      assert ShouldTrip(d.shouldTrip, d.backend(k));
    }
  }

  /** A request whose last attempt the breaker refuses reports that, and no status. */
  lemma RefusalIsReported(d: Outage, j: Job)
    requires Valid(d) && ValidConfig(j.cfg) && DefaultTests(d, j.cfg) && IsIdempotent(j.httpMethod) && j.b.None?
    requires j.env == Around(d, j.env.cancelled, j.env.now, j.env.rand)
    requires forall k {:trigger j.env.cancelled(k)} :: !j.env.cancelled(k)
    requires !Call(d, j.base + j.cfg.maxRetries).1
    ensures Run(j).result == MaxRetries(0, j.cfg.maxRetries + 1, Error(CIRCUIT_OPEN))
  {
    OutageFails(d, j.cfg, j.env);
    ExecuteExhausts(j);
    MaxRetriesExactly(j);
  }

  /** An outage behind a breaker inside a retry policy, with the default tests, no budget and no wait
      cut short: every request ends in ErrMaxRetries after MaxRetries + 1 attempts, and of all these
      attempts the backend sees up to time t at most FailureThreshold, and one more for each whole
      OpenDuration since the first trip. */
  lemma OutageLoadBound(d: Outage, cfg: Config, env: Environment, httpMethods: seq<string>, l: Ledger, t: int)
    requires Valid(d) && ValidConfig(cfg) && DefaultTests(d, cfg) && env == Around(d, env.cancelled, env.now, env.rand)
    requires forall k {:trigger env.cancelled(k)} :: !env.cancelled(k)
    requires forall i :: 0 <= i < |httpMethods| ==> IsIdempotent(httpMethods[i])
    requires forall k {:trigger d.times(k)} :: 0 <= k < |httpMethods| * (cfg.maxRetries + 1) ==> t >= d.times(k).lock
    ensures var s := Serve(cfg, None, env, httpMethods, 0, l);
            && s.calls == |httpMethods| * (cfg.maxRetries + 1)
            && |s.results| == |httpMethods|
            && (forall i :: 0 <= i < |s.results| ==> s.results[i].MaxRetries?)
            && (if s.calls < d.breaker.failureThreshold then s.calls else d.breaker.failureThreshold)
               <= BackendCalls(d, s.calls)
               <= d.breaker.failureThreshold +
                  if t >= FirstTrip(d) then (t - FirstTrip(d)) / d.breaker.openDuration else 0
  {
    OutageFails(d, cfg, env);
    ServeExhausts(cfg, env, httpMethods, 0, l);
    TimesIsProduct(|httpMethods|, cfg.maxRetries + 1);
    BackendCallsBound(d, Serve(cfg, None, env, httpMethods, 0, l).calls, t);
  }
}
