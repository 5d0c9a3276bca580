/**
 The circuit breaker of circuit.go: its configuration, the five critical sections
 of allowRequest, onSuccess and onFailure, and the object they update.

 Each critical section is one atomic step.  The functions on `Core` say what a section
 does to the fields; the methods of `CircuitBreakerPolicy` perform it on the object.
 Times are integer nanoseconds.
 */
module Circuit {
  const UINT32_MODULUS := 0x1_0000_0000

  type Uint32 = n: int | 0 <= n < UINT32_MODULUS

  /** Addition of one at the width of the source's counters. */
  function Increment(n: Uint32): Uint32 {
    (n + 1) % UINT32_MODULUS
  }

  lemma IncrementWraps(n: Uint32)
    ensures n < 0xffff_ffff ==> Increment(n) == n + 1
    ensures n == 0xffff_ffff ==> Increment(n) == 0
  {
  }

  datatype State = Closed | Open | HalfOpen

  /** The zero value of the source's time type: the first instant of year 1. */
  const ZERO_TIME: int := -62_135_596_800_000_000_000

  datatype Config = Config(failureThreshold: Uint32, openDuration: int, halfOpenMaxReqs: Uint32)

  const DEFAULT_CONFIG := Config(5, 30_000_000_000, 1)

  function WithDefaults(cfg: Config): Config {
    Config(
      if cfg.failureThreshold == 0 then DEFAULT_CONFIG.failureThreshold else cfg.failureThreshold,
      if cfg.openDuration == 0 then DEFAULT_CONFIG.openDuration else cfg.openDuration,
      if cfg.halfOpenMaxReqs == 0 then DEFAULT_CONFIG.halfOpenMaxReqs else cfg.halfOpenMaxReqs)
  }

  /** Zeros are filled in and everything else is kept, so that filling in twice changes nothing. */
  lemma DefaultsFillZeros(cfg: Config)
    ensures WithDefaults(Config(0, 0, 0)) == Config(5, 30_000_000_000, 1)
    ensures WithDefaults(cfg).failureThreshold == if cfg.failureThreshold > 0 then cfg.failureThreshold else 5
    ensures cfg.openDuration != 0 ==> WithDefaults(cfg).openDuration == cfg.openDuration
    ensures cfg.openDuration == 0 ==> WithDefaults(cfg).openDuration == 30_000_000_000
    ensures WithDefaults(cfg).halfOpenMaxReqs == if cfg.halfOpenMaxReqs > 0 then cfg.halfOpenMaxReqs else 1
    ensures WithDefaults(WithDefaults(cfg)) == WithDefaults(cfg)
  {
  }

  /** What every constructed breaker's configuration satisfies. */
  predicate ValidConfig(cfg: Config) {
    cfg.failureThreshold > 0 && cfg.halfOpenMaxReqs > 0
  }

  /** The mutable fields of one breaker. */
  datatype Core = Core(
    state: State,
    openedAt: int,
    permits: Uint32,
    inFlight: Uint32,
    failures: Uint32,
    generation: nat)

  const INITIAL := Core(Closed, ZERO_TIME, 0, 0, 0, 0)

  /** How the section under the read lock ends: with an answer, or by asking for the write lock. */
  datatype ReadOutcome =
    | Admit(generation: nat)
    | Reject
    | UpgradeFromOpen
    | UpgradeFromHalfOpen(generation: nat)

  function ReadSection(cfg: Config, c: Core, now: int): ReadOutcome {
    match c.state
    case Closed => Admit(c.generation)
    case Open => if now - c.openedAt >= cfg.openDuration then UpgradeFromOpen else Reject
    case HalfOpen => if c.permits > 0 then UpgradeFromHalfOpen(c.generation) else Reject
  }

  /** The fields after a section under the write lock, whether the caller may proceed, and its token. */
  datatype Verdict = Verdict(core: Core, allowed: bool, generation: nat)

  function TakePermit(c: Core): Core
    requires c.permits > 0
  {
    c.(permits := c.permits - 1, inFlight := Increment(c.inFlight))
  }

  function BecomeHalfOpen(cfg: Config, c: Core): Core {
    c.(state := HalfOpen, permits := cfg.halfOpenMaxReqs, inFlight := 0, generation := c.generation + 1)
  }

  /** The write-locked section a caller enters after it saw an expired open state. */
  function LockFromOpen(cfg: Config, c: Core, now: int): Verdict {
    var c1 := if c.state.Open? && now - c.openedAt >= cfg.openDuration then BecomeHalfOpen(cfg, c) else c;
    // The permit test is not guarded by the state.
    if c1.permits > 0 then Verdict(TakePermit(c1), true, c1.generation)
    else Verdict(c1, false, c1.generation)
  }

  /** The write-locked section a caller enters after it saw a half-open state with a permit left;
      `seen` is the generation it read before it dropped the read lock. */
  function LockFromHalfOpen(c: Core, seen: nat): Verdict {
    if c.state.HalfOpen? && c.permits > 0 then Verdict(TakePermit(c), true, seen)
    else Verdict(c, false, seen)
  }

  /** The two sections under the write lock admit whoever finds a permit, which for the first of them may
      be one of an epoch it begins itself.  They touch neither the failures nor the time of the last trip. */
  lemma LockedSectionsAdmit(cfg: Config, c: Core, now: int, seen: nat)
    requires ValidConfig(cfg)
    ensures var v, begins := LockFromOpen(cfg, c, now), c.state.Open? && now - c.openedAt >= cfg.openDuration;
            && (v.allowed <==> begins || c.permits > 0)
            && (!v.allowed ==> v.core == c)
            && v.generation == v.core.generation == c.generation + (if begins then 1 else 0)
            && v.core.state == (if begins then HalfOpen else c.state)
            && (v.allowed ==> v.core.permits + 1 == if begins then cfg.halfOpenMaxReqs else c.permits)
            && v.core.failures == c.failures && v.core.openedAt == c.openedAt
    ensures var v := LockFromHalfOpen(c, seen);
            && (v.allowed <==> c.state.HalfOpen? && c.permits > 0)
            && (!v.allowed ==> v.core == c)
            && v.generation == seen
            && (v.allowed ==>
                  && v.core.permits + 1 == c.permits
                  && v.core == c.(permits := v.core.permits, inFlight := v.core.inFlight))
  {
  }

  function BecomeOpen(c: Core, now: int): Core {
    Core(Open, now, 0, 0, c.failures, c.generation + 1)
  }

  function BecomeClosed(c: Core): Core {
    Core(Closed, ZERO_TIME, 0, 0, 0, c.generation + 1)
  }

  function OnSuccess(c: Core, token: nat): Core {
    if c.generation != token then c
    else match c.state
      case Closed => c.(failures := 0)
      case Open => c
      case HalfOpen => BecomeClosed(c)
  }

  function OnFailure(cfg: Config, c: Core, token: nat, now: int): Core {
    if c.generation != token then c
    else match c.state
      case Closed =>
        var c1 := c.(failures := Increment(c.failures));
        if c1.failures >= cfg.failureThreshold then BecomeOpen(c1, now) else c1
      case Open => c
      case HalfOpen => BecomeOpen(c, now)
  }

  function Resolve(cfg: Config, c: Core, token: nat, trip: bool, now: int): Core {
    if trip then OnFailure(cfg, c, token, now) else OnSuccess(c, token)
  }

  /** The clock readings one uninterrupted call makes: under the read lock, under the write
      lock, and when its outcome is reported. */
  datatype CallTimes = CallTimes(read: int, lock: int, report: int)

  /** allowRequest by a caller nobody interrupts. */
  function AllowRequest(cfg: Config, c: Core, at: CallTimes): Verdict {
    match ReadSection(cfg, c, at.read)
    case Admit(g) => Verdict(c, true, g)
    case Reject => Verdict(c, false, c.generation)
    case UpgradeFromOpen => LockFromOpen(cfg, c, at.lock)
    case UpgradeFromHalfOpen(g) => LockFromHalfOpen(c, g)
  }

  /** Who gets in: everybody while closed, permit holders while half-open, and the first caller
      after the open duration, who then holds the first permit of a new epoch. */
  lemma AllowedExactly(cfg: Config, c: Core, at: CallTimes)
    requires ValidConfig(cfg) && at.read <= at.lock && (!c.state.HalfOpen? ==> c.permits == 0)
    ensures var v := AllowRequest(cfg, c, at);
            && (v.allowed <==> match c.state
                               case Closed => true
                               case Open => at.read - c.openedAt >= cfg.openDuration
                               case HalfOpen => c.permits > 0)
            && (v.allowed ==> v.generation == v.core.generation && !v.core.state.Open?)
            && (v.core.state != c.state <==> c.state.Open? && v.allowed)
            && (v.core.state.HalfOpen? && v.allowed ==>
                  v.core.permits + 1 == if c.state.Open? then cfg.halfOpenMaxReqs else c.permits)
  {
  }

  /** Execute by a caller nobody interrupts: the new fields, and whether the backend was called. */
  function ExecuteAlone(cfg: Config, c: Core, trip: bool, at: CallTimes): (Core, bool) {
    var v := AllowRequest(cfg, c, at);
    if v.allowed then (Resolve(cfg, v.core, v.generation, trip, at.report), true) else (v.core, false)
  }

  /** An outcome that does not trip heals the breaker: it clears the failures of a closed one and closes
      any other that let the call through. */
  lemma SuccessHeals(cfg: Config, c: Core, at: CallTimes)
    requires ValidConfig(cfg) && at.read <= at.lock && (!c.state.HalfOpen? ==> c.permits == 0)
    ensures var (c', called) := ExecuteAlone(cfg, c, false, at);
            if !called then c' == c
            else match c.state
              case Closed => c' == c.(failures := 0)
              case Open => c' == Core(Closed, ZERO_TIME, 0, 0, 0, c.generation + 2)
              case HalfOpen => c' == Core(Closed, ZERO_TIME, 0, 0, 0, c.generation + 1)
  {
  }

  /** An outcome that trips counts against a closed breaker until it opens, and opens any other that let
      the call through; it is open as of the report. */
  lemma FailureCounts(cfg: Config, c: Core, at: CallTimes)
    requires ValidConfig(cfg) && at.read <= at.lock && (!c.state.HalfOpen? ==> c.permits == 0)
    requires c.state.Closed? ==> c.failures < cfg.failureThreshold
    ensures var (c', called) := ExecuteAlone(cfg, c, true, at);
            if !called then c' == c
            else match c.state
              case Closed =>
                if c.failures + 1 < cfg.failureThreshold then c' == c.(failures := c.failures + 1)
                else c' == Core(Open, at.report, 0, 0, cfg.failureThreshold, c.generation + 1)
              case Open => c' == Core(Open, at.report, 0, 0, c.failures, c.generation + 2)
              case HalfOpen => c' == Core(Open, at.report, 0, 0, c.failures, c.generation + 1)
  {
  }

  class CircuitBreakerPolicy {
    const cfg: Config
    var state: State
    var openedAt: int
    var halfOpenPermits: Uint32
    var halfOpenInFlight: Uint32
    var failures: Uint32
    var generation: nat

    function Fields(): Core
      reads this
    {
      Core(state, openedAt, halfOpenPermits, halfOpenInFlight, failures, generation)
    }

    constructor (given: Config)
      ensures cfg == WithDefaults(given) && ValidConfig(cfg)
      ensures Fields() == INITIAL
    {
      cfg := WithDefaults(given);
      state := Closed;
      openedAt := ZERO_TIME;
      halfOpenPermits, halfOpenInFlight, failures, generation := 0, 0, 0, 0;
    }

    /** allowRequest up to the point where it releases the read lock. */
    method AllowUnderReadLock(now: int) returns (r: ReadOutcome)
      ensures r == ReadSection(cfg, Fields(), now)
    {
      match state {
        case Closed =>
          r := Admit(generation);
        case Open =>
          if now - openedAt >= cfg.openDuration {
            r := UpgradeFromOpen;
          } else {
            r := Reject;
          }
        case HalfOpen =>
          if halfOpenPermits > 0 {
            r := UpgradeFromHalfOpen(generation);
          } else {
            r := Reject;
          }
      }
    }

    method AllowAfterOpen(now: int) returns (allowed: bool, token: nat)
      modifies this
      ensures Verdict(Fields(), allowed, token) == LockFromOpen(cfg, old(Fields()), now)
    {
      if state == Open && now - openedAt >= cfg.openDuration {
        state := HalfOpen;
        halfOpenPermits := cfg.halfOpenMaxReqs;
        halfOpenInFlight := 0;
        generation := generation + 1;
      }
      token := generation;
      allowed := halfOpenPermits > 0;
      if allowed {
        halfOpenPermits := halfOpenPermits - 1;
        halfOpenInFlight := Increment(halfOpenInFlight);
      }
    }

    method AllowAfterHalfOpen(seen: nat) returns (allowed: bool, token: nat)
      modifies this
      ensures Verdict(Fields(), allowed, token) == LockFromHalfOpen(old(Fields()), seen)
    {
      token := seen;
      allowed := state == HalfOpen && halfOpenPermits > 0;
      if allowed {
        halfOpenPermits := halfOpenPermits - 1;
        halfOpenInFlight := Increment(halfOpenInFlight);
      }
    }

    method ReportSuccess(token: nat)
      modifies this
      ensures Fields() == OnSuccess(old(Fields()), token)
    {
      if generation == token {
        match state {
          case Closed =>
            failures := 0;
          case Open =>
          case HalfOpen =>
            if halfOpenInFlight > 0 {
              halfOpenInFlight := halfOpenInFlight - 1;
            }
            state := Closed;
            failures := 0;
            openedAt := ZERO_TIME;
            halfOpenPermits := 0;
            halfOpenInFlight := 0;
            generation := generation + 1;
        }
      }
    }

    method ReportFailure(token: nat, now: int)
      modifies this
      ensures Fields() == OnFailure(cfg, old(Fields()), token, now)
    {
      if generation == token {
        match state {
          case Closed =>
            failures := Increment(failures);
            if failures >= cfg.failureThreshold {
              state := Open;
              openedAt := now;
              halfOpenPermits := 0;
              halfOpenInFlight := 0;
              generation := generation + 1;
            }
          case Open =>
          case HalfOpen =>
            if halfOpenInFlight > 0 {
              halfOpenInFlight := halfOpenInFlight - 1;
            }
            state := Open;
            openedAt := now;
            halfOpenPermits := 0;
            halfOpenInFlight := 0;
            generation := generation + 1;
        }
      }
    }

    /** One uninterrupted Execute; `trip` is the shouldTrip verdict on what the backend returns. */
    method Execute(trip: bool, at: CallTimes) returns (called: bool)
      modifies this
      ensures (Fields(), called) == ExecuteAlone(cfg, old(Fields()), trip, at)
    {
      var token := generation;
      var r := AllowUnderReadLock(at.read);
      match r {
        case Admit(g) => called, token := true, g;
        case Reject => called := false;
        case UpgradeFromOpen => called, token := AllowAfterOpen(at.lock);
        case UpgradeFromHalfOpen(g) => called, token := AllowAfterHalfOpen(g);
      }
      if called {
        if trip {
          ReportFailure(token, at.report);
        } else {
          ReportSuccess(token);
        }
      }
    }
  }
}
