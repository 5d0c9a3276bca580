/** What the retry loop guarantees for every backend, every budget and every number of requests. */
module RetryTheorems {
  import opened Wrappers
  import opened Arithmetic
  import opened Backoff
  import opened Retry
  import Budget

  /** One Execute: its policy, its environment, and the budget it starts with. */
  datatype Job = Job(cfg: Config, b: Option<Budget.Config>, httpMethod: string, env: Environment, base: nat,
                     start: Ledger)

  function From(j: Job, l: Ledger, attempt: nat): Trace
    requires ValidConfig(j.cfg) && attempt <= j.cfg.maxRetries
  {
    Attempts(j.cfg, j.b, j.httpMethod, j.env, j.base, l, attempt)
  }

  function Run(j: Job): Trace
    requires ValidConfig(j.cfg)
  {
    From(j, j.start, 0)
  }

  // ----- When the loop stops, and with what -----

  function Verdict(j: Job, l: Ledger, i: nat): (Ledger, bool) {
    ShouldRetry(j.cfg, j.b, j.httpMethod, j.env.outcome(j.base + i), l, j.env.now(j.base + i))
  }

  /** The ledger before attempt i, when every earlier attempt went round. */
  function Before(j: Job, i: nat): Ledger {
    if i == 0 then j.start else Verdict(j, Before(j, i - 1), i - 1).0
  }

  predicate Retryable(j: Job, i: nat) {
    Verdict(j, Before(j, i), i).1
  }

  predicate WaitCut(j: Job, i: nat) {
    j.env.cancelled(j.base + i)
  }

  /** How attempt number `last` ends the loop. */
  function Ending(j: Job, last: nat): Result
    requires j.cfg.maxRetries >= 0
  {
    if !Retryable(j, last) then Returned(j.env.outcome(j.base + last))
    else if last == j.cfg.maxRetries then Exhausted(j.cfg, j.env.outcome(j.base + last))
    else Cancelled
  }

  /** The loop that starts at `attempt` and makes t.calls calls goes round until the last of them,
      which has a reason to stop, and ends as that attempt says. */
  ghost predicate StopsWith(j: Job, attempt: nat, t: Trace)
    requires ValidConfig(j.cfg)
  {
    var last := attempt + t.calls - 1;
    && attempt <= last <= j.cfg.maxRetries
    && (forall i :: attempt <= i < last ==> Retryable(j, i) && !WaitCut(j, i))
    && (Retryable(j, last) && last < j.cfg.maxRetries ==> WaitCut(j, last))
    && t.result == Ending(j, last)
  }

  lemma {:induction false} StopsFrom(j: Job, attempt: nat)
    requires ValidConfig(j.cfg) && attempt <= j.cfg.maxRetries
    ensures StopsWith(j, attempt, From(j, Before(j, attempt), attempt))
    decreases j.cfg.maxRetries - attempt
  {
    var t := From(j, Before(j, attempt), attempt);
    if PassesOn(j, attempt) {
      StopsFrom(j, attempt + 1);
      GoesOn(j, attempt);
      GoesRound(j, attempt, From(j, Before(j, attempt + 1), attempt + 1), t);
    } else {
      StopsHere(j, attempt);
      EndsAtOnce(j, attempt, t);
    }
  }

  predicate PassesOn(j: Job, i: nat) {
    i < j.cfg.maxRetries && Retryable(j, i) && !WaitCut(j, i)
  }

  lemma GoesOn(j: Job, attempt: nat)
    requires ValidConfig(j.cfg) && PassesOn(j, attempt)
    ensures var t, rest := From(j, Before(j, attempt), attempt), From(j, Before(j, attempt + 1), attempt + 1);
            t.calls == rest.calls + 1 && t.result == rest.result && t.ledger == rest.ledger
  {
  }

  lemma StopsHere(j: Job, attempt: nat)
    requires ValidConfig(j.cfg) && attempt <= j.cfg.maxRetries && !PassesOn(j, attempt)
    ensures From(j, Before(j, attempt), attempt).calls == 1
    ensures From(j, Before(j, attempt), attempt).result == Ending(j, attempt)
    ensures From(j, Before(j, attempt), attempt).ledger == Before(j, attempt + 1)
  {
  }

  lemma EndsAtOnce(j: Job, attempt: nat, t: Trace)
    requires ValidConfig(j.cfg) && attempt <= j.cfg.maxRetries && !PassesOn(j, attempt)
    requires t.calls == 1 && t.result == Ending(j, attempt)
    ensures StopsWith(j, attempt, t)
  {
  }

  lemma GoesRound(j: Job, attempt: nat, rest: Trace, t: Trace)
    requires ValidConfig(j.cfg) && StopsWith(j, attempt + 1, rest)
    requires Retryable(j, attempt) && !WaitCut(j, attempt)
    requires t.calls == rest.calls + 1 && t.result == rest.result
    ensures StopsWith(j, attempt, t)
  {
  }

  /** The loop makes at most MaxRetries + 1 calls and stops at the first attempt whose outcome is
      not to be retried, whose wait is cut short, or that is the last allowed; its result says
      which. */
  lemma StopsAtFirstReason(j: Job)
    requires ValidConfig(j.cfg)
    ensures var last := Run(j).calls - 1;
            && 0 <= last <= j.cfg.maxRetries
            && (forall i :: 0 <= i < last ==> Retryable(j, i) && !WaitCut(j, i))
            && (Retryable(j, last) && last < j.cfg.maxRetries ==> WaitCut(j, last))
            && Run(j).result == Ending(j, last)
  {
    StopsFrom(j, 0);
  }

  /** What the error of an exhausted request reports: the status of the last response, and the last error
      or else that status. */
  predicate Reports(r: Result, o: Outcome) {
    && r.MaxRetries?
    && (o.resp.Some? ==> r.status == o.resp.value.status) && (o.resp.None? ==> r.status == 0)
    && (o.err.Some? ==> r.cause == Error(o.err.value))
    && (o.err.None? && o.resp.Some? ==> r.cause == Status(o.resp.value.status))
    && (o.err.None? && o.resp.None? ==> r.cause == Unknown)
  }

  /** ErrMaxRetries appears exactly when MaxRetries + 1 outcomes in a row were to be retried and no
      wait between them was cut short, and then reports that many attempts and the last outcome. */
  lemma MaxRetriesExactly(j: Job)
    requires ValidConfig(j.cfg)
    ensures Run(j).result.MaxRetries? <==>
              && (forall i :: 0 <= i <= j.cfg.maxRetries ==> Retryable(j, i))
              && (forall i :: 0 <= i < j.cfg.maxRetries ==> !WaitCut(j, i))
    ensures Run(j).result.MaxRetries? ==>
              && Run(j).calls == Run(j).result.attempts == j.cfg.maxRetries + 1
              && Reports(Run(j).result, j.env.outcome(j.base + j.cfg.maxRetries))
  {
    StopsFrom(j, 0);
    var last := Run(j).calls - 1;
    if last < j.cfg.maxRetries {
      assert Retryable(j, last) ==> WaitCut(j, last);
    }
  }

  /** The methods that may be sent twice. */
  ghost predicate SafeToRepeat(httpMethod: string) {
    httpMethod in {"GET", "HEAD", "PUT", "DELETE", "OPTIONS", "TRACE"}
  }

  predicate FailsRetryably(o: Outcome) {
    if o.err.Some? then o.err.value.Transient?
    else o.resp.Some? && (o.resp.value.status == 429 || o.resp.value.status >= 500)
  }

  /** By default an attempt is retried, if the budget lets it, exactly when its method may be repeated and
      it ended in an error that is not permanent, or without error in status 429 or 500 and above. */
  lemma RetryableByDefaultIff(j: Job, i: nat)
    requires j.cfg.shouldRetry.None?
    ensures j.b.None? ==> (Retryable(j, i) <==> SafeToRepeat(j.httpMethod) && FailsRetryably(j.env.outcome(j.base + i)))
    ensures Retryable(j, i) ==> SafeToRepeat(j.httpMethod) && FailsRetryably(j.env.outcome(j.base + i))
  {
  }

  /** By default a request whose method is not idempotent is sent once, and its outcome returned. */
  lemma NonIdempotentSentOnce(j: Job)
    requires ValidConfig(j.cfg) && j.cfg.shouldRetry.None?
    requires j.httpMethod !in {"GET", "HEAD", "PUT", "DELETE", "OPTIONS", "TRACE"}
    ensures Run(j).calls == 1 && Run(j).result == Returned(j.env.outcome(j.base)) && Run(j).waits == []
  {
    assert !Retryable(j, 0);
  }

  /** A permanent error is never retried: it is the outcome of the last call, the result of
      Execute, and the budget is not asked about it. */
  lemma PermanentErrorEndsRun(j: Job, i: nat)
    requires ValidConfig(j.cfg) && i < Run(j).calls
    requires j.env.outcome(j.base + i).err.Some? && j.env.outcome(j.base + i).err.value.Permanent?
    ensures i == Run(j).calls - 1 && Run(j).result == Returned(j.env.outcome(j.base + i))
    ensures Before(j, i + 1) == Before(j, i)
  {
    StopsFrom(j, 0);
    assert !Retryable(j, i);
  }

  /** The budget granted attempt i, whatever was then made of it. */
  predicate Granted(j: Job, i: nat) {
    Verdict(j, Before(j, i), i).0.grants > Before(j, i).grants
  }

  lemma {:induction false} GrantsFrom(j: Job, attempt: nat)
    requires ValidConfig(j.cfg) && j.b.Some? && attempt <= j.cfg.maxRetries
    ensures var t := From(j, Before(j, attempt), attempt);
            && t.calls >= 1
            && t.ledger.grants == Before(j, attempt).grants + t.calls - 1 +
                                  if Granted(j, attempt + t.calls - 1) then 1 else 0
    decreases j.cfg.maxRetries - attempt
  {
    if PassesOn(j, attempt) {
      GrantsFrom(j, attempt + 1);
      GoesOn(j, attempt);
    } else {
      StopsHere(j, attempt);
    }
  }

  /** One Execute spends a grant for each of its retries, and one more exactly when the budget granted
      its last outcome too: a success, or a failure that is not retried, can use up a grant. */
  lemma GrantsSpent(j: Job)
    requires ValidConfig(j.cfg) && j.b.Some?
    ensures Run(j).calls >= 1
    ensures Run(j).ledger.grants - j.start.grants == Run(j).calls - 1 + if Granted(j, Run(j).calls - 1) then 1 else 0
  {
    GrantsFrom(j, 0);
  }

  lemma {:induction false} LedgerFrom(j: Job, attempt: nat)
    requires ValidConfig(j.cfg) && attempt <= j.cfg.maxRetries
    ensures var t := From(j, Before(j, attempt), attempt);
            t.calls >= 1 && t.ledger == Before(j, attempt + t.calls)
    decreases j.cfg.maxRetries - attempt
  {
    if PassesOn(j, attempt) {
      LedgerFrom(j, attempt + 1);
      GoesOn(j, attempt);
    } else {
      StopsHere(j, attempt);
    }
  }

  predicate EndsPermanently(j: Job, i: nat) {
    j.env.outcome(j.base + i).err.Some? && j.env.outcome(j.base + i).err.value.Permanent?
  }

  lemma {:induction false} AllowsBefore(j: Job, i: nat)
    requires j.b.Some? && forall k :: 0 <= k < i ==> !EndsPermanently(j, k)
    ensures Before(j, i).allows == j.start.allows + i
  {
    if i > 0 {
      AllowsBefore(j, i - 1);
      assert !EndsPermanently(j, i - 1);
    }
  }

  /** The budget is asked about every outcome that is not a permanent error, successes included. */
  lemma BudgetAskedEachTime(j: Job)
    requires ValidConfig(j.cfg) && j.b.Some?
    ensures var last := Run(j).calls - 1;
            last >= 0 && Run(j).ledger.allows == j.start.allows + last + if EndsPermanently(j, last) then 0 else 1
  {
    LedgerFrom(j, 0);
    StopsFrom(j, 0);
    var last := Run(j).calls - 1;
    forall k | 0 <= k < last
      ensures !EndsPermanently(j, k)
    {
      assert Retryable(j, k);
    }
    AllowsBefore(j, last);
  }

  ghost predicate WaitsAsDecided(j: Job, attempt: nat)
    requires ValidConfig(j.cfg) && attempt <= j.cfg.maxRetries
  {
    var t := From(j, Before(j, attempt), attempt);
    && |t.waits| == t.calls - (if t.result.Cancelled? then 0 else 1)
    && forall k :: 0 <= k < |t.waits| ==> t.waits[k] == DelayAt(j, attempt + k)
  }

  lemma WaitsBefore(j: Job, attempt: nat)
    requires ValidConfig(j.cfg) && attempt < j.cfg.maxRetries && WaitsAsDecided(j, attempt + 1)
    requires var (pass, l1) := OnePass(j.cfg, j.b, j.httpMethod, j.env, j.base, Before(j, attempt), attempt);
             pass.GoRound? && l1 == Before(j, attempt + 1)
    ensures WaitsAsDecided(j, attempt)
  {
    var t := From(j, Before(j, attempt), attempt);
    var rest := From(j, Before(j, attempt + 1), attempt + 1);
    assert t.waits == [DelayAt(j, attempt)] + rest.waits;
    forall k | 0 <= k < |t.waits|
      ensures t.waits[k] == DelayAt(j, attempt + k)
    {
      if k > 0 {
        assert t.waits[k] == rest.waits[k - 1] == DelayAt(j, attempt + 1 + (k - 1));
      }
    }
  }

  lemma {:induction false} WaitsFrom(j: Job, attempt: nat)
    requires ValidConfig(j.cfg) && attempt <= j.cfg.maxRetries
    ensures WaitsAsDecided(j, attempt)
    decreases j.cfg.maxRetries - attempt
  {
    var (pass, l1) := OnePass(j.cfg, j.b, j.httpMethod, j.env, j.base, Before(j, attempt), attempt);
    if pass.GoRound? {
      WaitsFrom(j, attempt + 1);
      WaitsBefore(j, attempt);
    }
  }

  /** After each attempt but the last, and after the last if it is the wait that is cut short, Execute
      starts to wait for that attempt's delay. */
  lemma WaitsExactly(j: Job)
    requires ValidConfig(j.cfg)
    ensures |Run(j).waits| == Run(j).calls - (if Run(j).result.Cancelled? then 0 else 1)
    ensures forall k :: 0 <= k < |Run(j).waits| ==> Run(j).waits[k] == DelayAt(j, k)
  {
    WaitsFrom(j, 0);
  }

  // ----- How long one Execute sleeps -----

  /** A timer with a non-positive delay fires at once. */
  function TotalSleep(waits: seq<int>): int {
    if waits == [] then 0 else (if waits[0] > 0 then waits[0] else 0) + TotalSleep(waits[1..])
  }

  /** MaxBackoff * (1 + Jitter). */
  function LongestDelay(cfg: Config): real {
    DelayCap(cfg.maxBackoff, cfg.jitter)
  }

  /** The configuration has the built-in backoff with its own parameters. */
  predicate BuiltIn(cfg: Config) {
    && cfg.maxBackoff > 0 && 0.0 <= cfg.jitter <= 1.0
    && cfg.backoff == Some(Exponential(cfg.initialBackoff, cfg.maxBackoff, cfg.multiplier, cfg.jitter))
  }

  lemma DefaultsAreBuiltIn(given: Config)
    requires given.backoff.None? && given.maxBackoff >= 0
    ensures var cfg := WithDefaults(given);
            BuiltIn(cfg) && LongestDelay(cfg) == cfg.maxBackoff as real * (1.0 + cfg.jitter)
  {
  }

  lemma DelayBound(cfg: Config, o: Outcome, attempt: nat, rand: real)
    requires BuiltIn(cfg) && ValidConfig(cfg) && 0.0 <= rand < 1.0
    ensures Delay(cfg, o, attempt, rand) as real <= LongestDelay(cfg)
  {
    ExponentialDelayBound(cfg.initialBackoff, cfg.maxBackoff, cfg.multiplier, cfg.jitter, attempt, rand);
    DelayCapBounds(0.0, cfg.maxBackoff, cfg.jitter);
    AfterRetryAfter(cfg, o, attempt, rand, LongestDelay(cfg));
  }

  /** A Retry-After header makes a delay no longer than MaxBackoff. */
  lemma AfterRetryAfter(cfg: Config, o: Outcome, attempt: nat, rand: real, cap: real)
    requires ValidConfig(cfg) && 0.0 < cfg.maxBackoff as real <= cap
    requires NextDelay(cfg.backoff.value, attempt, rand) as real <= cap
    ensures Delay(cfg, o, attempt, rand) as real <= cap
  {
  }

  function DelayAt(j: Job, i: nat): int
    requires ValidConfig(j.cfg)
  {
    Delay(j.cfg, j.env.outcome(j.base + i), i, j.env.rand(j.base + i))
  }

  ghost predicate DelaysWithin(j: Job, cap: real)
    requires ValidConfig(j.cfg)
  {
    cap >= 0.0 && forall i: nat :: DelayAt(j, i) as real <= cap
  }

  lemma {:induction false} SleepFrom(j: Job, cap: real, l: Ledger, attempt: nat)
    requires ValidConfig(j.cfg) && attempt <= j.cfg.maxRetries && DelaysWithin(j, cap)
    ensures TotalSleep(From(j, l, attempt).waits) as real <= Budget.Share(cap, j.cfg.maxRetries - attempt)
    decreases j.cfg.maxRetries - attempt
  {
    var (pass, l1) := OnePass(j.cfg, j.b, j.httpMethod, j.env, j.base, l, attempt);
    var delay := DelayAt(j, attempt);
    assert delay as real <= cap;
    if pass.GoRound? {
      var rest := From(j, l1, attempt + 1);
      SleepFrom(j, cap, l1, attempt + 1);
      assert From(j, l, attempt).waits == [delay] + rest.waits;
      assert ([delay] + rest.waits)[1..] == rest.waits;
    } else if pass.waited != [] {
      assert From(j, l, attempt).waits == [delay];
      ShareNonNegative(cap, j.cfg.maxRetries - attempt - 1);
    } else {
      ShareNonNegative(cap, j.cfg.maxRetries - attempt);
    }
  }

  lemma BuiltInDelaysWithin(j: Job)
    requires BuiltIn(j.cfg) && ValidConfig(j.cfg)
    requires forall i {:trigger j.env.rand(i)} :: 0.0 <= j.env.rand(i) < 1.0
    ensures DelaysWithin(j, LongestDelay(j.cfg))
  {
    DelayCapBounds(0.0, j.cfg.maxBackoff, j.cfg.jitter);
    forall i: nat
      ensures DelayAt(j, i) as real <= LongestDelay(j.cfg)
    {
      DelayBound(j.cfg, j.env.outcome(j.base + i), i, j.env.rand(j.base + i));
    }
  }

  lemma SleepOfRun(j: Job, cap: real)
    requires ValidConfig(j.cfg) && DelaysWithin(j, cap)
    ensures TotalSleep(Run(j).waits) as real <= cap * j.cfg.maxRetries as real
  {
    SleepFrom(j, cap, j.start, 0);
    Budget.ShareIsProduct(cap, j.cfg.maxRetries);
  }

  lemma SleepOfBuiltIn(j: Job, cap: real)
    requires BuiltIn(j.cfg) && ValidConfig(j.cfg) && cap == LongestDelay(j.cfg)
    requires forall i {:trigger j.env.rand(i)} :: 0.0 <= j.env.rand(i) < 1.0
    ensures TotalSleep(Run(j).waits) as real <= cap * j.cfg.maxRetries as real
  {
    BuiltInDelaysWithin(j);
    SleepOfRun(j, cap);
  }

  /** With the built-in backoff one Execute sleeps at most MaxRetries * MaxBackoff * (1 + Jitter),
      Retry-After headers included, however many attempts it makes. */
  lemma TotalSleepBound(given: Config, j: Job, cap: real)
    requires given.backoff.None? && given.maxBackoff >= 0 && j.cfg == WithDefaults(given)
    requires forall i {:trigger j.env.rand(i)} :: 0.0 <= j.env.rand(i) < 1.0
    requires cap == j.cfg.maxBackoff as real * (1.0 + j.cfg.jitter)
    ensures TotalSleep(Run(j).waits) as real <= cap * j.cfg.maxRetries as real
  {
    DefaultsAreBuiltIn(given);
    SleepOfBuiltIn(j, cap);
  }

  lemma {:induction false} ShareNonNegative(b: real, n: nat)
    requires b >= 0.0
    ensures Budget.Share(b, n) >= 0.0
  {
    if n > 0 {
      ShareNonNegative(b, n - 1);
    }
  }

  // ----- Retry amplification -----

  /** A ledger whose counters are exact: over all windows, the grants stay below the budgeted
      share of the questions, plus one for each window. */
  ghost predicate Balanced(b: Budget.Config, l: Ledger) {
    && Budget.Exact(b, l.counters)
    && l.grants as real - Budget.Share(b.budget, l.allows)
       <= l.counters.retries as real - Budget.Share(b.budget, l.counters.total) + l.resets as real
  }

  lemma AskKeepsBalance(b: Budget.Config, l: Ledger, now: int)
    requires Budget.ValidConfig(b) && Balanced(b, l)
    ensures Balanced(b, Ask(b, l, now).0)
  {
    Budget.AllowKeepsExact(b, l.counters, now);
    Budget.CeilingBounds(Budget.Share(b.budget, l.counters.total));
  }

  lemma BalancedBound(b: Budget.Config, l: Ledger)
    requires Balanced(b, l)
    ensures (l.grants as real) < Budget.Share(b.budget, l.allows) + 1.0 + l.resets as real
  {
    Budget.CeilingBounds(Budget.Share(b.budget, l.counters.total));
  }

  lemma {:induction false} AttemptsAreGranted(cfg: Config, b: Budget.Config, httpMethod: string, env: Environment,
                                              base: nat, l: Ledger, attempt: nat)
    requires ValidConfig(cfg) && Budget.ValidConfig(b) && attempt <= cfg.maxRetries && Balanced(b, l)
    ensures var t := Attempts(cfg, Some(b), httpMethod, env, base, l, attempt);
            && t.calls >= 1
            && Balanced(b, t.ledger)
            && t.ledger.allows <= l.allows + t.calls
            && t.ledger.grants >= l.grants + t.calls - 1
    decreases cfg.maxRetries - attempt
  {
    AskKeepsBalance(b, l, env.now(base + attempt));
    var (pass, l1) := OnePass(cfg, Some(b), httpMethod, env, base, l, attempt);
    if pass.GoRound? {
      AttemptsAreGranted(cfg, b, httpMethod, env, base, l1, attempt + 1);
    }
  }

  /** A sequential caller's requests, one Execute each: calls made, retries among them, and results. */
  datatype Served = Served(calls: nat, retries: nat, results: seq<Result>, ledger: Ledger)

  function Serve(cfg: Config, b: Option<Budget.Config>, env: Environment, httpMethods: seq<string>, base: nat,
                 l: Ledger): Served
    requires ValidConfig(cfg)
  {
    if httpMethods == [] then Served(0, 0, [], l)
    else
      var t := Attempts(cfg, b, httpMethods[0], env, base, l, 0);
      var rest := Serve(cfg, b, env, httpMethods[1..], base + t.calls, t.ledger);
      Served(t.calls + rest.calls, (if t.calls > 0 then t.calls - 1 else 0) + rest.retries,
             [t.result] + rest.results, rest.ledger)
  }

  lemma {:induction false} ServeIsGranted(cfg: Config, b: Budget.Config, env: Environment, httpMethods: seq<string>,
                                          base: nat, l: Ledger)
    requires ValidConfig(cfg) && Budget.ValidConfig(b) && Balanced(b, l)
    ensures var s := Serve(cfg, Some(b), env, httpMethods, base, l);
            && s.calls == |httpMethods| + s.retries
            && Balanced(b, s.ledger)
            && s.ledger.allows <= l.allows + s.calls
            && s.ledger.grants >= l.grants + s.retries
  {
    if httpMethods != [] {
      AttemptsAreGranted(cfg, b, httpMethods[0], env, base, l, 0);
      var t := Attempts(cfg, Some(b), httpMethods[0], env, base, l, 0);
      ServeIsGranted(cfg, b, env, httpMethods[1..], base + t.calls, t.ledger);
    }
  }

  /** Every call fails in a way that the default test retries, and no wait is cut short. */
  ghost predicate AllFail(env: Environment) {
    && (forall k {:trigger env.outcome(k)} :: FailsRetryably(env.outcome(k)))
    && (forall k {:trigger env.cancelled(k)} :: !env.cancelled(k))
  }

  lemma ExecuteExhausts(j: Job)
    requires ValidConfig(j.cfg) && j.cfg.shouldRetry.None? && IsIdempotent(j.httpMethod) && j.b.None? && AllFail(j.env)
    ensures Run(j).calls == j.cfg.maxRetries + 1 && Run(j).result.MaxRetries?
  {
    forall i: nat
      ensures Retryable(j, i) && !WaitCut(j, i)
    {
      assert FailsRetryably(j.env.outcome(j.base + i));
    }
    MaxRetriesExactly(j);
  }

  /** With the default test and no budget, requests of idempotent methods that only ever fail use all
      their attempts, each of them, and end in ErrMaxRetries. */
  lemma {:induction false} ServeExhausts(cfg: Config, env: Environment, httpMethods: seq<string>, base: nat, l: Ledger)
    requires ValidConfig(cfg) && cfg.shouldRetry.None? && AllFail(env)
    requires forall i :: 0 <= i < |httpMethods| ==> IsIdempotent(httpMethods[i])
    ensures var s := Serve(cfg, None, env, httpMethods, base, l);
            && s.calls == Times(|httpMethods|, cfg.maxRetries + 1)
            && |s.results| == |httpMethods|
            && forall i :: 0 <= i < |s.results| ==> s.results[i].MaxRetries?
  {
    if httpMethods != [] {
      var t := Attempts(cfg, None, httpMethods[0], env, base, l, 0);
      ExecuteExhausts(Job(cfg, None, httpMethods[0], env, base, l));
      ServeExhausts(cfg, env, httpMethods[1..], base + t.calls, t.ledger);
    }
  }

  /** A budget that was just made. */
  ghost predicate FreshLedger(l: Ledger) {
    l.counters.total == 0 && l.counters.retries == 0 && l.allows == 0 && l.grants == 0 && l.resets == 0
  }

  lemma RetriesBelowShare(cfg: Config, b: Budget.Config, env: Environment, httpMethods: seq<string>, base: nat,
                          l: Ledger)
    requires ValidConfig(cfg) && Budget.ValidConfig(b) && FreshLedger(l)
    ensures var s := Serve(cfg, Some(b), env, httpMethods, base, l);
            && s.calls == |httpMethods| + s.retries
            && (s.retries as real) < Budget.Share(b.budget, s.calls) + 1.0 + s.ledger.resets as real
  {
    ServeIsGranted(cfg, b, env, httpMethods, base, l);
    var s := Serve(cfg, Some(b), env, httpMethods, base, l);
    BalancedBound(b, s.ledger);
    Budget.ShareGrows(b.budget, s.ledger.allows, s.calls);
  }

  /** r retries of q requests, with budget b and w window resets. */
  predicate Amplification(b: real, q: nat, r: nat, w: nat) {
    r as real * (1.0 - b) < b * q as real + 1.0 + w as real
  }

  /** Retry amplification: with budget b, Q requests of a sequential caller make R retries with
      R * (1 - b) < b * Q + 1 + W, where W counts the window resets on the way; whatever the
      backend answers and however large MaxRetries is. */
  lemma RetryAmplification(cfg: Config, b: Budget.Config, env: Environment, httpMethods: seq<string>, base: nat,
                           l: Ledger)
    requires ValidConfig(cfg) && Budget.ValidConfig(b) && FreshLedger(l)
    ensures var s := Serve(cfg, Some(b), env, httpMethods, base, l);
            && s.calls == |httpMethods| + s.retries
            && Amplification(b.budget, |httpMethods|, s.retries, s.ledger.resets)
  {
    RetriesBelowShare(cfg, b, env, httpMethods, base, l);
    var s := Serve(cfg, Some(b), env, httpMethods, base, l);
    SolveForRetries(b.budget, |httpMethods|, s.retries, s.ledger.resets);
  }

  lemma {:induction false} ShareSplits(b: real, m: nat, n: nat)
    ensures Budget.Share(b, m + n) == Budget.Share(b, m) + Budget.Share(b, n)
  {
    if n > 0 {
      ShareSplits(b, m, n - 1);
    }
  }

  lemma SolveForRetries(b: real, q: nat, r: nat, w: nat)
    requires (r as real) < Budget.Share(b, q + r) + 1.0 + w as real
    ensures Amplification(b, q, r, w)
  {
    ShareSplits(b, q, r);
    Budget.ShareIsProduct(b, q);
    Budget.ShareIsProduct(b, r);
    assert r as real * (1.0 - b) == r as real - b * r as real;
  }

  /** r retries stay below the share of c calls, and one more for each window. */
  predicate BelowShareOf(b: real, r: nat, c: nat, l: Ledger) {
    r > 0 ==> (r as real) < Budget.Share(b, c) + 1.0 + l.resets as real
  }

  /** From an attempt before which c calls were made and r retries were decided on: the retry of a round
      is decided on before its call is made. */
  lemma {:induction false} RetriesLagInAttempts(cfg: Config, b: Budget.Config, httpMethod: string, env: Environment,
                                                base: nat, l: Ledger, attempt: nat, r: nat, c: nat)
    requires ValidConfig(cfg) && Budget.ValidConfig(b) && attempt <= cfg.maxRetries && Balanced(b, l)
    requires l.allows <= c && r <= l.grants && BelowShareOf(b.budget, r, c, l)
    ensures var t := Attempts(cfg, Some(b), httpMethod, env, base, l, attempt);
            t.calls >= 1 && BelowShareOf(b.budget, r + t.calls - 1, c + t.calls - 1, t.ledger)
    decreases cfg.maxRetries - attempt
  {
    AskKeepsBalance(b, l, env.now(base + attempt));
    var (pass, l1) := OnePass(cfg, Some(b), httpMethod, env, base, l, attempt);
    if pass.GoRound? {
      BalancedBound(b, l1);
      Budget.ShareGrows(b.budget, l1.allows, c + 1);
      RetriesLagInAttempts(cfg, b, httpMethod, env, base, l1, attempt + 1, r + 1, c + 1);
    }
  }

  /** One request leaves the next one the same start. */
  lemma RequestLags(cfg: Config, b: Budget.Config, httpMethod: string, env: Environment, base: nat, l: Ledger, r: nat,
                    c: nat)
    requires ValidConfig(cfg) && Budget.ValidConfig(b) && Balanced(b, l)
    requires l.allows <= c && r <= l.grants && BelowShareOf(b.budget, r, c, l)
    ensures var t := Attempts(cfg, Some(b), httpMethod, env, base, l, 0);
            && t.calls >= 1 && Balanced(b, t.ledger)
            && t.ledger.allows <= c + t.calls && r + t.calls - 1 <= t.ledger.grants
            && BelowShareOf(b.budget, r + t.calls - 1, c + t.calls - 1, t.ledger)
            && BelowShareOf(b.budget, r + t.calls - 1, c + t.calls, t.ledger)
  {
    var t := Attempts(cfg, Some(b), httpMethod, env, base, l, 0);
    AttemptsAreGranted(cfg, b, httpMethod, env, base, l, 0);
    RetriesLagInAttempts(cfg, b, httpMethod, env, base, l, 0, r, c);
    Budget.ShareGrows(b.budget, c + t.calls - 1, c + t.calls);
  }

  lemma {:induction false} RetriesLag(cfg: Config, b: Budget.Config, env: Environment, httpMethods: seq<string>,
                                      base: nat, l: Ledger, r: nat, c: nat)
    requires ValidConfig(cfg) && Budget.ValidConfig(b) && Balanced(b, l) && httpMethods != []
    requires l.allows <= c && r <= l.grants && BelowShareOf(b.budget, r, c, l)
    ensures var s := Serve(cfg, Some(b), env, httpMethods, base, l);
            s.calls >= 1 && BelowShareOf(b.budget, r + s.retries, c + s.calls - 1, s.ledger)
  {
    var t := Attempts(cfg, Some(b), httpMethods[0], env, base, l, 0);
    RequestLags(cfg, b, httpMethods[0], env, base, l, r, c);
    if |httpMethods| > 1 {
      RetriesLag(cfg, b, env, httpMethods[1..], base + t.calls, t.ledger, r + t.calls - 1, c + t.calls);
    }
  }

  /** The sharp form of the inequality. */
  predicate SharpAmplification(b: real, q: nat, r: nat, w: nat) {
    r as real * (1.0 - b) < b * q as real + (1.0 - b) + w as real
  }

  lemma SolveForLaggingRetries(b: real, q: nat, r: nat, w: nat)
    requires q + r >= 1 && (r as real) < Budget.Share(b, q + r - 1) + 1.0 + w as real
    ensures SharpAmplification(b, q, r, w)
  {
    ShareSplits(b, q, r);
    Budget.ShareIsProduct(b, q);
    Budget.ShareIsProduct(b, r);
    assert r as real * (1.0 - b) == r as real - b * r as real;
  }

  lemma LaggingRetriesOfRun(cfg: Config, b: Budget.Config, env: Environment, httpMethods: seq<string>, base: nat,
                            l: Ledger)
    requires ValidConfig(cfg) && Budget.ValidConfig(b) && FreshLedger(l) && httpMethods != []
    ensures var s := Serve(cfg, Some(b), env, httpMethods, base, l);
            s.calls == |httpMethods| + s.retries && s.calls >= 1 &&
            BelowShareOf(b.budget, s.retries, s.calls - 1, s.ledger)
  {
    ServeIsGranted(cfg, b, env, httpMethods, base, l);
    RetriesLag(cfg, b, env, httpMethods, base, l, 0, 0);
  }

  /** Each retry makes a call of its own, so that requests are retried at all only with
      R * (1 - b) < b * Q + (1 - b) + W; within one window and for b < 1: R < b * Q / (1 - b) + 1. */
  lemma RetryAmplificationSharp(cfg: Config, b: Budget.Config, env: Environment, httpMethods: seq<string>, base: nat,
                                l: Ledger)
    requires ValidConfig(cfg) && Budget.ValidConfig(b) && FreshLedger(l)
    ensures var s := Serve(cfg, Some(b), env, httpMethods, base, l);
            s.retries > 0 ==> SharpAmplification(b.budget, |httpMethods|, s.retries, s.ledger.resets)
  {
    if httpMethods != [] {
      LaggingRetriesOfRun(cfg, b, env, httpMethods, base, l);
      var s := Serve(cfg, Some(b), env, httpMethods, base, l);
      if s.retries > 0 {
        SolveForLaggingRetries(b.budget, |httpMethods|, s.retries, s.ledger.resets);
      }
    }
  }

  ghost predicate WithinOneWindow(b: Budget.Config, env: Environment, start: int) {
    forall i {:trigger env.now(i)} :: env.now(i) - start <= b.window
  }

  lemma {:induction false} NoResetInAttempts(cfg: Config, b: Budget.Config, httpMethod: string, env: Environment,
                                             base: nat, l: Ledger, attempt: nat)
    requires ValidConfig(cfg) && attempt <= cfg.maxRetries && WithinOneWindow(b, env, l.counters.windowStart)
    ensures var t := Attempts(cfg, Some(b), httpMethod, env, base, l, attempt);
            t.ledger.resets == l.resets && t.ledger.counters.windowStart == l.counters.windowStart
    decreases cfg.maxRetries - attempt
  {
    var (pass, l1) := OnePass(cfg, Some(b), httpMethod, env, base, l, attempt);
    if pass.GoRound? {
      NoResetInAttempts(cfg, b, httpMethod, env, base, l1, attempt + 1);
    }
  }

  lemma {:induction false} NoResetInServe(cfg: Config, b: Budget.Config, env: Environment, httpMethods: seq<string>,
                                          base: nat, l: Ledger)
    requires ValidConfig(cfg) && WithinOneWindow(b, env, l.counters.windowStart)
    ensures Serve(cfg, Some(b), env, httpMethods, base, l).ledger.resets == l.resets
  {
    if httpMethods != [] {
      NoResetInAttempts(cfg, b, httpMethods[0], env, base, l, 0);
      var t := Attempts(cfg, Some(b), httpMethods[0], env, base, l, 0);
      NoResetInServe(cfg, b, env, httpMethods[1..], base + t.calls, t.ledger);
    }
  }

  /** Within one window and for b < 1: R < (b * Q + 1) / (1 - b). */
  lemma RetryAmplificationInWindow(cfg: Config, b: Budget.Config, env: Environment, httpMethods: seq<string>,
                                   base: nat, l: Ledger)
    requires ValidConfig(cfg) && Budget.ValidConfig(b) && b.budget < 1.0 && FreshLedger(l)
    requires WithinOneWindow(b, env, l.counters.windowStart)
    ensures Serve(cfg, Some(b), env, httpMethods, base, l).retries as real
              < (b.budget * |httpMethods| as real + 1.0) / (1.0 - b.budget)
  {
    RetryAmplification(cfg, b, env, httpMethods, base, l);
    NoResetInServe(cfg, b, env, httpMethods, base, l);
    var r := Serve(cfg, Some(b), env, httpMethods, base, l).retries as real;
    QuotientAbove(r, b.budget * |httpMethods| as real + 1.0, 1.0 - b.budget);
  }

  lemma QuotientAbove(x: real, y: real, d: real)
    requires d > 0.0 && x * d < y
    ensures x < y / d
  {
    var q := y / d;
    assert q * d == y;
    if q <= x {
      ProductSign(x - q, d);
      assert (x - q) * d == x * d - q * d;
    }
  }
}
