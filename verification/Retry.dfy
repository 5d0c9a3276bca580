/**
 The retry policy of retry.go: the decision whether to retry, the loop of Execute, and the
 object that runs it.

 Calls to the next policy are numbered.  An `Environment` answers, for each number, what the
 call returns, whether the context is done during the wait that follows it, and which clock
 reading and random sample the attempt draws; it is arbitrary.
 */
module Retry {
  import opened Wrappers
  import opened Backoff
  import Budget

  datatype Response = Response(status: int, retryAfter: Header)

  /** An error; `Permanent` stands for every error that wraps a PermanentError. */
  datatype Failure = Permanent(id: nat) | Transient(id: nat)

  /** What a call returns: Go allows a response beside an error, and neither. */
  datatype Outcome = Outcome(resp: Option<Response>, err: Option<Failure>)

  datatype Config = Config(
    maxRetries: int,
    initialBackoff: int,
    maxBackoff: int,
    multiplier: real,
    jitter: real,
    maxBodySize: int,
    backoff: Option<Backoff>,
    shouldRetry: Option<Outcome -> bool>)

  function WithDefaults(given: Config): Config {
    var initial := if given.initialBackoff == 0 then 100 * MILLISECOND else given.initialBackoff;
    var max := if given.maxBackoff == 0 then 5_000 * MILLISECOND else given.maxBackoff;
    var multiplier := if given.multiplier == 0.0 then 2.0 else given.multiplier;
    var jitter := if given.jitter < 0.0 then 0.0 else if given.jitter > 1.0 then 1.0 else given.jitter;
    Config(
      if given.maxRetries < 0 then 0 else given.maxRetries,
      initial, max, multiplier, jitter, given.maxBodySize,
      if given.backoff.None? then Some(Exponential(initial, max, multiplier, jitter)) else given.backoff,
      given.shouldRetry)
  }

  /** What is missing is filled in and what is out of range is clamped; the built-in backoff takes its
      parameters from the result. */
  lemma DefaultsFillZeros(given: Config)
    ensures var cfg := WithDefaults(given);
            && (given.maxRetries >= 0 ==> cfg.maxRetries == given.maxRetries)
            && (given.maxRetries < 0 ==> cfg.maxRetries == 0)
            && cfg.initialBackoff == (if given.initialBackoff != 0 then given.initialBackoff else 100_000_000)
            && cfg.maxBackoff == (if given.maxBackoff != 0 then given.maxBackoff else 5_000_000_000)
            && cfg.multiplier == (if given.multiplier != 0.0 then given.multiplier else 2.0)
            && 0.0 <= cfg.jitter <= 1.0 && (0.0 <= given.jitter <= 1.0 ==> cfg.jitter == given.jitter)
            && (given.jitter > 1.0 ==> cfg.jitter == 1.0) && (given.jitter < 0.0 ==> cfg.jitter == 0.0)
            && cfg.maxBodySize == given.maxBodySize && cfg.shouldRetry == given.shouldRetry
            && (given.backoff.Some? ==> cfg.backoff == given.backoff)
            && (given.backoff.None? ==>
                  cfg.backoff == Some(Exponential(cfg.initialBackoff, cfg.maxBackoff, cfg.multiplier, cfg.jitter)))
    ensures WithDefaults(WithDefaults(given)) == WithDefaults(given)
  {
  }

  predicate ValidConfig(cfg: Config) {
    cfg.maxRetries >= 0 && cfg.backoff.Some?
  }

  datatype Environment = Environment(
    outcome: nat -> Outcome,
    cancelled: nat -> bool,
    now: nat -> int,
    rand: nat -> real)

  /** The budget's counters, with totals over all windows that the program does not keep. */
  datatype Ledger = Ledger(counters: Budget.Counters, allows: nat, grants: nat, resets: nat)

  function Ask(b: Budget.Config, l: Ledger, now: int): (Ledger, bool) {
    var (c, granted) := Budget.AllowAlone(b, l.counters, now);
    (Ledger(c, l.allows + 1, l.grants + (if granted then 1 else 0),
            l.resets + (if Budget.Expired(b, l.counters, now) then 1 else 0)),
     granted)
  }

  predicate IsIdempotent(httpMethod: string) {
    httpMethod in {"GET", "HEAD", "PUT", "DELETE", "OPTIONS", "TRACE"}
  }

  /** The verdict of the configuration on an outcome that is not permanent. */
  predicate Wanted(cfg: Config, httpMethod: string, o: Outcome) {
    match cfg.shouldRetry
    case Some(f) => f(o)
    case None =>
      IsIdempotent(httpMethod) &&
      (o.err.Some? || (o.resp.Some? && (o.resp.value.status == 429 || o.resp.value.status >= 500)))
  }

  /** shouldRetry: the budget is asked before the outcome is looked at, unless it is permanent. */
  function ShouldRetry(cfg: Config, b: Option<Budget.Config>, httpMethod: string, o: Outcome, l: Ledger,
                       now: int): (Ledger, bool)
  {
    if o.err.Some? && o.err.value.Permanent? then (l, false)
    else match b
      case None => (l, Wanted(cfg, httpMethod, o))
      case Some(bc) =>
        var (l1, granted) := Ask(bc, l, now);
        (l1, granted && Wanted(cfg, httpMethod, o))
  }

  function Delay(cfg: Config, o: Outcome, attempt: nat, rand: real): int
    requires ValidConfig(cfg)
  {
    var delay := NextDelay(cfg.backoff.value, attempt, rand);
    if o.resp.Some? && (o.resp.value.status == 429 || o.resp.value.status == 503) then
      var ra := ParseRetryAfter(o.resp.value.retryAfter);
      if ra <= 0 then delay
      else if cfg.maxBackoff > 0 && ra > cfg.maxBackoff then cfg.maxBackoff
      else ra
    else delay
  }

  /** How long the server asks the client to wait, if it asks at all. */
  function AskedFor(h: Header): int {
    match h
    case Seconds(n) => n * SECOND
    case Date(untilThen) => untilThen
    case _ => 0
  }

  /** A server that answers 429 or 503 and asks for a wait gets it, up to a year and to MaxBackoff; in all
      other cases the backoff decides. */
  lemma RetryAfterHonoured(cfg: Config, o: Outcome, attempt: nat, rand: real)
    requires ValidConfig(cfg) && (o.resp.Some? ==> ValidHeader(o.resp.value.retryAfter))
    ensures var delay := Delay(cfg, o, attempt, rand);
            if o.resp.Some? && o.resp.value.status in {429, 503} && AskedFor(o.resp.value.retryAfter) > 0 then
              var asked := AskedFor(o.resp.value.retryAfter);
              && delay <= asked && delay <= 31_536_000 * SECOND && (cfg.maxBackoff > 0 ==> delay <= cfg.maxBackoff)
              && (delay == asked || delay == 31_536_000 * SECOND || (delay == cfg.maxBackoff && cfg.maxBackoff > 0))
            else
              delay == NextDelay(cfg.backoff.value, attempt, rand)
  {
    if o.resp.Some? {
      RetryAfterIsExactAndClamped(o.resp.value.retryAfter);
    }
  }

  datatype Cause = Error(err: Failure) | Status(status: int) | Unknown

  function LastErrorOrStatus(o: Outcome): Cause {
    if o.err.Some? then Error(o.err.value)
    else if o.resp.Some? then Status(o.resp.value.status)
    else Unknown
  }

  datatype Result =
    | BodyUnreadable
    | BodyTooLarge
    | Returned(o: Outcome)
    | Cancelled
    | MaxRetries(status: int, attempts: nat, cause: Cause)

  function Exhausted(cfg: Config, o: Outcome): Result
    requires cfg.maxRetries >= 0
  {
    MaxRetries(if o.resp.Some? then o.resp.value.status else 0, cfg.maxRetries + 1, LastErrorOrStatus(o))
  }

  /** What one Execute does: how often it calls the next policy, the waits it starts, its
      result, and what it leaves of the budget. */
  datatype Trace = Trace(calls: nat, waits: seq<int>, result: Result, ledger: Ledger)

  /** How one pass through the loop ends: it leaves with a result, or waits and goes round. */
  datatype Pass =
    | Leave(waited: seq<int>, result: Result)
    | GoRound(delay: int)

  /** The pass of attempt number `attempt`; `base` is the number of the request's first call. */
  function OnePass(cfg: Config, b: Option<Budget.Config>, httpMethod: string, env: Environment,
                   base: nat, l: Ledger, attempt: nat): (Pass, Ledger)
    requires ValidConfig(cfg) && attempt <= cfg.maxRetries
  {
    var o := env.outcome(base + attempt);
    var (l1, should) := ShouldRetry(cfg, b, httpMethod, o, l, env.now(base + attempt));
    var pass :=
      if !should then Leave([], Returned(o))
      else if attempt == cfg.maxRetries then Leave([], Exhausted(cfg, o))
      else
        var delay := Delay(cfg, o, attempt, env.rand(base + attempt));
        if env.cancelled(base + attempt) then Leave([delay], Cancelled) else GoRound(delay);
    (pass, l1)
  }

  /** The loop from attempt number `attempt` on. */
  function Attempts(cfg: Config, b: Option<Budget.Config>, httpMethod: string, env: Environment,
                    base: nat, l: Ledger, attempt: nat): Trace
    requires ValidConfig(cfg) && attempt <= cfg.maxRetries
    decreases cfg.maxRetries - attempt
  {
    var (pass, l1) := OnePass(cfg, b, httpMethod, env, base, l, attempt);
    match pass
    case Leave(waited, result) => Trace(1, waited, result, l1)
    case GoRound(delay) => After(1, [delay], Attempts(cfg, b, httpMethod, env, base, l1, attempt + 1))
  }

  /** The trace of a loop that has made `calls` calls and goes on as `rest`. */
  function After(calls: nat, waits: seq<int>, rest: Trace): Trace {
    Trace(calls + rest.calls, waits + rest.waits, rest.result, rest.ledger)
  }

  lemma AfterAfter(c1: nat, w1: seq<int>, c2: nat, w2: seq<int>, rest: Trace)
    ensures After(c1, w1, After(c2, w2, rest)) == After(c1 + c2, w1 + w2, rest)
  {
    assert w1 + (w2 + rest.waits) == w1 + w2 + rest.waits;
  }

  /** A request body being read. */
  datatype Reader = Reader(content: seq<Byte>, position: nat)

  function Unread(r: Reader): (bytes: seq<Byte>)
    ensures r.position <= |r.content| ==> r.content[..r.position] + bytes == r.content
    ensures r.position > |r.content| ==> bytes == []
  {
    if r.position <= |r.content| then r.content[r.position..] else []
  }

  /** The bytes that Execute buffers. */
  function Buffered(body: Option<Reader>): Option<seq<Byte>> {
    if body.Some? then Some(Unread(body.value)) else None
  }

  /** A reader that has read nothing yet. */
  function Fresh(bodyBytes: Option<seq<Byte>>): Option<Reader> {
    if bodyBytes.Some? then Some(Reader(bodyBytes.value, 0)) else None
  }

  /** How often the response of attempt i is closed in the first `calls` attempts, of which the
      last hands its response to the caller or does not. */
  function Closings(env: Environment, base: nat, calls: nat, handsOver: bool, i: nat): nat {
    if i < calls && env.outcome(base + i).resp.Some? && !(handsOver && i == calls - 1) then 1 else 0
  }

  class Request {
    const httpMethod: string
    var body: Option<Reader>
    var getBody: Option<seq<Byte>> // what GetBody yields, if it is set
    var contentLength: int
    var closings: nat              // how often a body of this request was closed

    constructor (httpMethod: string, body: Option<Reader>, getBody: Option<seq<Byte>>, contentLength: int)
      ensures this.httpMethod == httpMethod && this.body == body && this.getBody == getBody
      ensures this.contentLength == contentLength && closings == 0
    {
      this.httpMethod := httpMethod;
      this.body := body;
      this.getBody := getBody;
      this.contentLength := contentLength;
      closings := 0;
    }
  }

  /** A response body; it must be closed once, by whoever ends up with the response. */
  class ResponseBody {
    var closes: nat

    constructor ()
      ensures closes == 0
    {
      closes := 0;
    }

    method Close()
      modifies this
      ensures closes == old(closes) + 1
    {
      closes := closes + 1;
    }
  }

  class RetryPolicy {
    const cfg: Config
    const budget: Budget.RetryBudget?

    ghost function BudgetConfig(): Option<Budget.Config> {
      if budget == null then None else Some(budget.cfg)
    }

    ghost predicate Valid()
      reads budget
    {
      ValidConfig(cfg) && (budget != null ==> budget.Valid())
    }

    /** A ledger that agrees with the budget's own counters. */
    ghost predicate Keeps(l: Ledger)
      reads budget
    {
      budget != null ==> l.counters == budget.State()
    }

    constructor (given: Config, budget: Budget.RetryBudget?)
      requires budget != null ==> budget.Valid()
      ensures Valid() && cfg == WithDefaults(given) && this.budget == budget
    {
      cfg := WithDefaults(given);
      this.budget := budget;
    }

    method Decide(httpMethod: string, o: Outcome, now: int, ghost l: Ledger) returns (should: bool, ghost l': Ledger)
      requires Valid() && Keeps(l)
      modifies budget
      ensures Valid() && Keeps(l')
      ensures (l', should) == ShouldRetry(cfg, BudgetConfig(), httpMethod, o, l, now)
    {
      l' := ShouldRetry(cfg, BudgetConfig(), httpMethod, o, l, now).0;
      if o.err.Some? && o.err.value.Permanent? {
        return false, l';
      }
      if budget != null {
        var granted := budget.Allow(now);
        if !granted {
          return false, l';
        }
      }
      should := Wanted(cfg, httpMethod, o);
    }

    /** The part of Execute that buffers the request body: the request is left with a fresh reader, a
        GetBody and the length of the same bytes, and its old body is closed.  A body that is too
        large has been read up to one byte over the limit, and is left open. */
    method BufferBody(req: Request, readFails: bool) returns (failure: Option<Result>, bodyBytes: Option<seq<Byte>>)
      modifies req
      ensures failure == Some(BodyUnreadable) <==> old(req.body).Some? && readFails
      ensures failure == Some(BodyTooLarge) <==>
              old(req.body).Some? && !readFails && 0 < cfg.maxBodySize < |Unread(old(req.body).value)|
      ensures failure in {None, Some(BodyUnreadable), Some(BodyTooLarge)}
      ensures failure.None? ==> bodyBytes == Buffered(old(req.body)) && req.body == Fresh(bodyBytes)
      ensures failure.None? && bodyBytes.Some? ==>
                && req.getBody == bodyBytes && req.contentLength == |bodyBytes.value|
                && req.closings == old(req.closings) + 1
      ensures failure.Some? || bodyBytes.None? ==>
                req.getBody == old(req.getBody) && req.contentLength == old(req.contentLength) &&
                req.closings == old(req.closings)
      ensures failure == Some(BodyTooLarge) ==>
                req.body == Some(old(req.body).value.(position := old(req.body).value.position + cfg.maxBodySize + 1))
    {
      failure, bodyBytes := None, None;
      if req.body.Some? {
        var unread := Unread(req.body.value);
        if readFails {
          failure := Some(BodyUnreadable);
        } else if cfg.maxBodySize > 0 && |unread| > cfg.maxBodySize {
          req.body := Some(req.body.value.(position := req.body.value.position + cfg.maxBodySize + 1));
          failure := Some(BodyTooLarge);
        } else {
          bodyBytes := Some(unread);
          req.closings := req.closings + 1;
          req.body := Some(Reader(unread, 0));
          req.getBody := bodyBytes;
          req.contentLength := |unread|;
        }
      }
    }

    /** Execute.  `bodies[i]` is the body of the response the i-th attempt obtains, if any, and
        `consumed(i)` says how much of the request body that attempt reads.  `seen` records the
        request body each attempt starts with. */
    method Execute(req: Request, env: Environment, base: nat, bodies: seq<ResponseBody>,
                   consumed: nat -> nat, readFails: bool, ghost l0: Ledger)
      returns (result: Result, calls: nat, waits: seq<int>, seen: seq<Option<Reader>>, ghost l: Ledger)
      requires Valid() && Keeps(l0) && Distinct(bodies) && |bodies| == cfg.maxRetries + 1
      modifies req, budget, bodies
      ensures Valid() && Keeps(l)
      ensures var unread := if old(req.body).Some? then |Unread(old(req.body).value)| else 0;
              if old(req.body).Some? && readFails then calls == 0 && result == BodyUnreadable && l == l0
              else if 0 < cfg.maxBodySize < unread then calls == 0 && result == BodyTooLarge && l == l0
              else Trace(calls, waits, result, l) == Attempts(cfg, BudgetConfig(), req.httpMethod, env, base, l0, 0)
      // The body the request came with is closed once it is buffered, and GetBody yields its bytes.
      ensures var buffered := old(req.body).Some? && !readFails &&
                              (cfg.maxBodySize <= 0 || |Unread(old(req.body).value)| <= cfg.maxBodySize);
              && req.closings == old(req.closings) + (if buffered then 1 else 0)
              && req.getBody == if buffered then Some(Unread(old(req.body).value)) else old(req.getBody)
      // Every attempt starts with a fresh reader over the original bytes.
      ensures |seen| == calls
      ensures forall i :: 0 <= i < calls ==>
                seen[i] == if old(req.body).Some? then Some(Reader(Unread(old(req.body).value), 0)) else None
      // Every response obtained is closed exactly once, except the one that is returned.
      ensures calls <= |bodies|
      ensures forall i :: 0 <= i < |bodies| ==>
                var obtained := i < calls && env.outcome(base + i).resp.Some?;
                var returned := i == calls - 1 && result.Returned?;
                bodies[i].closes == old(bodies[i].closes) + if obtained && !returned then 1 else 0
    {
      var failure, bodyBytes := BufferBody(req, readFails);
      if failure.Some? {
        return failure.value, 0, [], [], l0;
      }
      ghost var before := seq(|bodies|, i requires 0 <= i < |bodies| => old(bodies[i].closes));
      result, calls, waits, seen, l := Loop(req, env, base, bodies, consumed, bodyBytes, l0, before);
    }

    /** One pass through the loop: give the attempt a fresh body, call, decide, close. */
    method TryOnce(req: Request, env: Environment, base: nat, attempt: nat, body: ResponseBody,
                   consumed: nat -> nat, bodyBytes: Option<seq<Byte>>, ghost l: Ledger)
      returns (pass: Pass, seen: Option<Reader>, ghost l': Ledger)
      requires Valid() && Keeps(l) && attempt <= cfg.maxRetries
      requires req.body.Some? <==> bodyBytes.Some?
      modifies req`body, budget, body
      ensures Valid() && Keeps(l') && (req.body.Some? <==> bodyBytes.Some?)
      ensures pass.Leave? || attempt < cfg.maxRetries
      ensures Attempts(cfg, BudgetConfig(), req.httpMethod, env, base, l, attempt) ==
              if pass.Leave? then Trace(1, pass.waited, pass.result, l')
              else After(1, [pass.delay], Attempts(cfg, BudgetConfig(), req.httpMethod, env, base, l', attempt + 1))
      ensures seen == Fresh(bodyBytes)
      ensures body.closes == old(body.closes) +
                Closings(env, base, attempt + 1, pass.Leave? && pass.result.Returned?, attempt)
    {
      if bodyBytes.Some? {
        req.body := Some(Reader(bodyBytes.value, 0));
      }
      seen := req.body;
      if req.body.Some? {
        req.body := Some(req.body.value.(position := consumed(attempt)));
      }
      var o := env.outcome(base + attempt);
      var should;
      should, l' := Decide(req.httpMethod, o, env.now(base + attempt), l);
      if !should {
        return Leave([], Returned(o)), seen, l';
      }
      if o.resp.Some? {
        body.Close();
      }
      if attempt == cfg.maxRetries {
        return Leave([], Exhausted(cfg, o)), seen, l';
      }
      var delay := Delay(cfg, o, attempt, env.rand(base + attempt));
      if env.cancelled(base + attempt) {
        return Leave([delay], Cancelled), seen, l';
      }
      return GoRound(delay), seen, l';
    }

    /** After `calls` calls and `waits` the loop is on its way to the trace `whole`. */
    ghost predicate OnCourse(whole: Trace, httpMethod: string, env: Environment, base: nat, l: Ledger, calls: nat,
                             waits: seq<int>)
    {
      && ValidConfig(cfg) && calls <= cfg.maxRetries
      && whole == After(calls, waits, Attempts(cfg, BudgetConfig(), httpMethod, env, base, l, calls))
    }

    /** One pass of a loop that is on its way to `whole`. */
    method TryInRun(req: Request, env: Environment, base: nat, calls: nat, waits: seq<int>, bodies: seq<ResponseBody>,
                    consumed: nat -> nat, bodyBytes: Option<seq<Byte>>, ghost l: Ledger, ghost whole: Trace,
                    ghost before: seq<nat>)
      returns (pass: Pass, seen: Option<Reader>, ghost l': Ledger)
      requires Valid() && Keeps(l) && OnCourse(whole, req.httpMethod, env, base, l, calls, waits)
      requires Distinct(bodies) && |bodies| == cfg.maxRetries + 1
      requires ClosedAsDue(env, base, bodies, before, calls, false)
      requires req.body.Some? <==> bodyBytes.Some?
      modifies req`body, budget, bodies
      ensures Valid() && Keeps(l') && (req.body.Some? <==> bodyBytes.Some?)
      ensures pass.Leave? ==> whole == Trace(calls + 1, waits + pass.waited, pass.result, l')
      ensures pass.GoRound? ==> OnCourse(whole, req.httpMethod, env, base, l', calls + 1, waits + [pass.delay])
      ensures seen == Fresh(bodyBytes)
      ensures ClosedAsDue(env, base, bodies, before, calls + 1, pass.Leave? && pass.result.Returned?)
    {
      var body := bodies[calls];
      pass, seen, l' := TryOnce(req, env, base, calls, body, consumed, bodyBytes, l);
      if pass.GoRound? {
        AfterAfter(calls, waits, 1, [pass.delay],
                   Attempts(cfg, BudgetConfig(), req.httpMethod, env, base, l', calls + 1));
      }
      ghost var handsOver := pass.Leave? && pass.result.Returned?;
      forall i | 0 <= i < |bodies|
        ensures bodies[i].closes == before[i] + Closings(env, base, calls + 1, handsOver, i)
      {
        assert i != calls ==> bodies[i] != body && bodies[i].closes == old(bodies[i].closes);
      }
    }

    /** The loop of Execute, after the request body was buffered. */
    method Loop(req: Request, env: Environment, base: nat, bodies: seq<ResponseBody>,
                consumed: nat -> nat, bodyBytes: Option<seq<Byte>>, ghost l0: Ledger, ghost before: seq<nat>)
      returns (result: Result, calls: nat, waits: seq<int>, seen: seq<Option<Reader>>, ghost l: Ledger)
      requires Valid() && Keeps(l0)
      requires Distinct(bodies) && |bodies| == cfg.maxRetries + 1 && ClosedAsDue(env, base, bodies, before, 0, false)
      requires req.body.Some? <==> bodyBytes.Some?
      modifies req`body, budget, bodies
      ensures Valid() && Keeps(l)
      ensures Trace(calls, waits, result, l) == Attempts(cfg, BudgetConfig(), req.httpMethod, env, base, l0, 0)
      ensures |seen| == calls <= |bodies|
      ensures forall i :: 0 <= i < calls ==> seen[i] == Fresh(bodyBytes)
      ensures ClosedAsDue(env, base, bodies, before, calls, result.Returned?)
    {
      calls, waits, seen, l := 0, [], [], l0;
      ghost var whole := Attempts(cfg, BudgetConfig(), req.httpMethod, env, base, l0, 0);
      while true
        invariant Valid() && Keeps(l)
        invariant OnCourse(whole, req.httpMethod, env, base, l, calls, waits)
        invariant req.body.Some? <==> bodyBytes.Some?
        invariant |seen| == calls
        invariant forall i :: 0 <= i < calls ==> seen[i] == Fresh(bodyBytes)
        invariant ClosedAsDue(env, base, bodies, before, calls, false)
        decreases cfg.maxRetries - calls
      {
        var pass, start;
        pass, start, l := TryInRun(req, env, base, calls, waits, bodies, consumed, bodyBytes, l, whole, before);
        calls, seen := calls + 1, seen + [start];
        match pass {
          case Leave(waited, r) =>
            return r, calls, waits + waited, seen, l;
          case GoRound(delay) =>
            waits := waits + [delay];
        }
      }
    }
  }

  /** Each of the bodies was closed as `Closings` says since it had been closed as `before` says. */
  ghost predicate ClosedAsDue(env: Environment, base: nat, bodies: seq<ResponseBody>, before: seq<nat>, calls: nat,
                              handsOver: bool)
    reads bodies
  {
    && |before| == |bodies|
    && forall i :: 0 <= i < |bodies| ==> bodies[i].closes == before[i] + Closings(env, base, calls, handsOver, i)
  }

  predicate Distinct(bodies: seq<ResponseBody>) {
    forall i, j :: 0 <= i < j < |bodies| ==> bodies[i] != bodies[j]
  }
}
