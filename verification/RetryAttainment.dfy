/**
 The amplification bound of concurrent retries is attained: k callers of a backend that keeps failing
 make the largest number of retries that the bound allows for k requests.  All but one of them pass the
 ratio test early and rest; the last one retries until its share is used up; then the others retry too.
 */
module RetryAttainment {
  import opened ConcurrentRetry
  import Budget
  import B = BudgetProtocol
  import R = Retry
  import RetryTheorems

  ghost predicate Reachable(cfg: Config, s: System) {
    exists es, ss :: IsRun(cfg, es, ss) && ss[|es|] == s
  }

  lemma Do(cfg: Config, s: System, e: Event) returns (s': System)
    requires Reachable(cfg, s) && Enabled(cfg, s, e)
    ensures s' == Apply(cfg, s, e) && Reachable(cfg, s')
  {
    s' := Apply(cfg, s, e);
    var es, ss :| IsRun(cfg, es, ss) && ss[|es|] == s;
    assert IsRun(cfg, es + [e], ss + [s']);
    assert (ss + [s'])[|es + [e]|] == s';
  }

  /** An outcome, not permanent, that the configuration retries. */
  predicate KeepsFailing(cfg: Config, httpMethod: string, o: R.Outcome) {
    R.Wanted(cfg.retry, httpMethod, o) && !(o.err.Some? && o.err.value.Permanent?)
  }

  /** A caller inside Execute whose call has failed runs up to the ratio test of Allow and passes it. */
  lemma PassesTest(cfg: Config, s: System, c: CallerId) returns (s': System)
    requires Reachable(cfg, s) && IsAsking(s, c) && c !in s.budget.callers && |s.budget.callers| < cfg.k
    requires Budget.BelowShare(cfg.budget, s.budget.total + 1, s.budget.retries)
    ensures Reachable(cfg, s')
    ensures s' == s.(budget := s.budget.(total := s.budget.total + 1, callers := s.budget.callers[c := B.Passed]))
  {
    s' := Do(cfg, s, InsideAllow(B.Enter(c)));
    s' := Do(cfg, s', InsideAllow(B.AddTotal(c)));
    s' := Do(cfg, s', InsideAllow(B.LoadTotal(c)));
    s' := Do(cfg, s', InsideAllow(B.LoadRetries(c)));
    s' := Do(cfg, s', InsideAllow(B.Decide(c)));
    assert s'.budget.callers == s.budget.callers[c := B.Passed];
  }

  /** A caller that has passed the test is granted, waits, and retries. */
  lemma Retries(cfg: Config, s: System, c: CallerId) returns (s': System)
    requires Reachable(cfg, s) && IsAsking(s, c) && B.At(s.budget, c, B.Passed)
    requires KeepsFailing(cfg, s.callers[c].httpMethod, s.callers[c].stage.o)
    requires s.callers[c].attempt < cfg.retry.maxRetries
    ensures Reachable(cfg, s')
    ensures s'.budget == s.budget.(retries := s.budget.retries + 1, granted := s.budget.granted + 1,
                                   callers := s.budget.callers - {c})
    ensures s'.callers == s.callers[c := Caller(s.callers[c].httpMethod, s.callers[c].attempt + 1, Calling)]
    ensures s'.requests == s.requests && s'.calls == s.calls + 1 && s'.retries == s.retries + 1
  {
    s' := Do(cfg, s, InsideAllow(B.AddRetry(c)));
    s' := Do(cfg, s', Decide(c));
    s' := Do(cfg, s', Again(c));
  }

  lemma Fails(cfg: Config, s: System, c: CallerId, o: R.Outcome) returns (s': System)
    requires Reachable(cfg, s) && c in s.callers && s.callers[c].stage.Calling?
    requires !(o.err.Some? && o.err.value.Permanent?)
    ensures Reachable(cfg, s') && s' == s.(callers := s.callers[c := s.callers[c].(stage := Asking(o))])
  {
    s' := Do(cfg, s, Return(c, o));
  }

  lemma RetriesAndFails(cfg: Config, s: System, c: CallerId) returns (s': System)
    requires Reachable(cfg, s) && IsAsking(s, c) && B.At(s.budget, c, B.Passed)
    requires KeepsFailing(cfg, s.callers[c].httpMethod, s.callers[c].stage.o)
    requires s.callers[c].attempt < cfg.retry.maxRetries
    ensures Reachable(cfg, s')
    ensures s'.budget == s.budget.(retries := s.budget.retries + 1, granted := s.budget.granted + 1,
                                   callers := s.budget.callers - {c})
    ensures s'.callers == s.callers[c := s.callers[c].(attempt := s.callers[c].attempt + 1)]
    ensures s'.requests == s.requests && s'.calls == s.calls + 1 && s'.retries == s.retries + 1
  {
    s' := Retries(cfg, s, c);
    s' := Fails(cfg, s', c, s.callers[c].stage.o);
  }

  /** A whole round of the loop: asked, granted, called again, and failed again. */
  lemma RetriesInVain(cfg: Config, s: System, c: CallerId) returns (s': System)
    requires Reachable(cfg, s) && IsAsking(s, c) && c !in s.budget.callers && |s.budget.callers| < cfg.k
    requires Budget.BelowShare(cfg.budget, s.budget.total + 1, s.budget.retries)
    requires KeepsFailing(cfg, s.callers[c].httpMethod, s.callers[c].stage.o)
    requires s.callers[c].attempt < cfg.retry.maxRetries
    ensures Reachable(cfg, s') && s'.budget.callers == s.budget.callers
    ensures s'.budget.total == s.budget.total + 1 && s'.budget.retries == s.budget.retries + 1
    ensures s'.callers == s.callers[c := s.callers[c].(attempt := s.callers[c].attempt + 1)]
    ensures s'.requests == s.requests && s'.calls == s.calls + 1 && s'.retries == s.retries + 1
  {
    s' := PassesTest(cfg, s, c);
    s' := RetriesAndFails(cfg, s', c);
    assert s.budget.callers[c := B.Passed] - {c} == s.budget.callers;
  }

  // ----- The callers that rest -----

  /** The first n callers have made one call each, which failed. */
  function Askers(httpMethod: string, o: R.Outcome, n: nat): (callers: map<CallerId, Caller>)
    ensures forall c: CallerId :: c in callers <==> c < n
    ensures forall c :: c in callers ==> callers[c] == Caller(httpMethod, 0, Asking(o))
  {
    if n == 0 then map[] else Askers(httpMethod, o, n - 1)[n - 1 := Caller(httpMethod, 0, Asking(o))]
  }

  /** Caller n begins a request, and its first call fails. */
  lemma FirstCallFails(cfg: Config, s: System, n: nat, httpMethod: string, o: R.Outcome) returns (s': System)
    requires Reachable(cfg, s) && s.callers == Askers(httpMethod, o, n) && n < cfg.k && KeepsFailing(cfg, httpMethod, o)
    ensures Reachable(cfg, s')
    ensures s' == s.(callers := Askers(httpMethod, o, n + 1), requests := s.requests + 1, calls := s.calls + 1)
  {
    s' := Do(cfg, s, Begin(n, httpMethod));
    s' := Do(cfg, s', Return(n, o));
    assert s'.callers == Askers(httpMethod, o, n + 1);
  }

  lemma {:induction false} AllRest(cfg: Config, n: nat, httpMethod: string, o: R.Outcome) returns (s: System)
    requires ValidConfig(cfg) && n <= cfg.k && KeepsFailing(cfg, httpMethod, o)
    ensures Reachable(cfg, s)
    ensures s == System(B.INITIAL.(total := n, callers := B.Resting(n)), Askers(httpMethod, o, n), n, n, 0)
  {
    if n == 0 {
      s := INITIAL;
      assert IsRun(cfg, [], [INITIAL]);
    } else {
      s := AllRest(cfg, n - 1, httpMethod, o);
      s := FirstCallFails(cfg, s, n - 1, httpMethod, o);
      Budget.ShareGrows(cfg.budget.budget, 0, n - 1);
      s := PassesTest(cfg, s, n - 1);
      assert s.budget.callers == B.Resting(n);
    }
  }

  // ----- The caller that goes on -----

  /** The last caller has retried j times, and its latest call has failed. */
  ghost predicate InLoop(cfg: Config, s: System, httpMethod: string, o: R.Outcome, j: nat)
    requires cfg.k >= 1
  {
    && s.budget.total == cfg.k - 1 + j && s.budget.retries == j && s.budget.callers == B.Resting(cfg.k - 1)
    && s.callers == Askers(httpMethod, o, cfg.k - 1)[cfg.k - 1 := Caller(httpMethod, j, Asking(o))]
    && s.requests == cfg.k && s.calls == cfg.k + j && s.retries == j
  }

  lemma OneRound(cfg: Config, s: System, httpMethod: string, o: R.Outcome, j: nat) returns (s': System)
    requires ValidConfig(cfg) && KeepsFailing(cfg, httpMethod, o) && j < cfg.retry.maxRetries
    requires Reachable(cfg, s) && InLoop(cfg, s, httpMethod, o, j)
    requires Budget.BelowShare(cfg.budget, cfg.k + j, j)
    ensures Reachable(cfg, s') && InLoop(cfg, s', httpMethod, o, j + 1)
  {
    var c: CallerId := cfg.k - 1;
    s' := RetriesInVain(cfg, s, c);
    assert s'.callers == Askers(httpMethod, o, c)[c := Caller(httpMethod, j + 1, Asking(o))];
  }

  /** MaxRetries leaves room for as many retries as the budget grants one request among k. */
  predicate EnoughRetries(cfg: Config)
    requires R.ValidConfig(cfg.retry)
  {
    Budget.Share(1.0 - cfg.budget.budget, cfg.retry.maxRetries) >= Budget.Share(cfg.budget.budget, cfg.k)
  }

  lemma {:induction false} GoesOn(cfg: Config, s: System, httpMethod: string, o: R.Outcome, j: nat)
    returns (s': System, j': nat)
    requires ValidConfig(cfg) && KeepsFailing(cfg, httpMethod, o) && j <= cfg.retry.maxRetries
    requires EnoughRetries(cfg) && Reachable(cfg, s) && InLoop(cfg, s, httpMethod, o, j)
    ensures Reachable(cfg, s') && InLoop(cfg, s', httpMethod, o, j')
    ensures j' as real >= Budget.Share(cfg.budget.budget, cfg.k + j')
    decreases cfg.retry.maxRetries - j
  {
    s', j' := s, j;
    if (j as real) < Budget.Share(cfg.budget.budget, cfg.k + j) {
      RoomLeft(cfg.budget.budget, cfg.k, j, cfg.retry.maxRetries);
      s' := OneRound(cfg, s, httpMethod, o, j);
      s', j' := GoesOn(cfg, s', httpMethod, o, j + 1);
    }
  }

  lemma RoomLeft(b: real, k: nat, j: nat, max: nat)
    requires 0.0 < b <= 1.0 && (j as real) < Budget.Share(b, k + j)
    requires Budget.Share(1.0 - b, max) >= Budget.Share(b, k)
    ensures j < max
  {
    RetryTheorems.ShareSplits(b, k, j);
    SharesAddUp(b, j);
    if max <= j {
      ShareNotFalling(1.0 - b, max, j);
    }
  }

  // ----- The others follow -----

  lemma {:induction false} OthersRetry(cfg: Config, s: System, n: nat, httpMethod: string, o: R.Outcome)
    returns (s': System)
    requires KeepsFailing(cfg, httpMethod, o) && cfg.retry.maxRetries >= 1
    requires Reachable(cfg, s) && s.budget.callers == B.Resting(n)
    requires forall c: CallerId :: c < n ==> c in s.callers && s.callers[c] == Caller(httpMethod, 0, Asking(o))
    ensures Reachable(cfg, s') && s'.requests == s.requests && s'.retries == s.retries + n
    decreases n
  {
    s' := s;
    if n > 0 {
      s' := Retries(cfg, s, n - 1);
      assert s'.budget.callers == B.Resting(n - 1);
      s' := OthersRetry(cfg, s', n - 1, httpMethod, o);
    }
  }

  lemma OneMoreIsTooMany(b: real, k: nat, j: nat)
    requires j as real >= Budget.Share(b, k + j)
    ensures !Amplification(b, k, k, j + k)
  {
    RetryTheorems.ShareSplits(b, k, j);
    Budget.ShareIsProduct(b, k);
    Budget.ShareIsProduct(1.0 - b, k);
    LessShare(b, j + k);
    RetryTheorems.ShareSplits(b, j, k);
    SharesAddUp(b, k);
  }

  /** The last caller's loop. */
  lemma LastGoesOn(cfg: Config, httpMethod: string, o: R.Outcome) returns (s: System, j: nat)
    requires ValidConfig(cfg) && EnoughRetries(cfg) && KeepsFailing(cfg, httpMethod, o)
    ensures Reachable(cfg, s) && InLoop(cfg, s, httpMethod, o, j)
    ensures j as real >= Budget.Share(cfg.budget.budget, cfg.k + j)
  {
    s := AllRest(cfg, cfg.k - 1, httpMethod, o);
    s := FirstCallFails(cfg, s, cfg.k - 1, httpMethod, o);
    assert InLoop(cfg, s, httpMethod, o, 0);
    s, j := GoesOn(cfg, s, httpMethod, o, 0);
  }

  /** For every budget below one and every k, if MaxRetries leaves room, some run of k requests makes as
      many retries as the bound of ConcurrentAmplification allows: one more would break it. */
  lemma AmplificationIsAttained(cfg: Config, httpMethod: string, o: R.Outcome)
    requires ValidConfig(cfg) && cfg.budget.budget < 1.0 && KeepsFailing(cfg, httpMethod, o)
    requires cfg.retry.maxRetries as real * (1.0 - cfg.budget.budget) >= cfg.budget.budget * cfg.k as real
    ensures exists s | Reachable(cfg, s) ::
              s.requests == cfg.k && !Amplification(cfg.budget.budget, cfg.k, s.requests, s.retries + 1)
  {
    var b := cfg.budget.budget;
    Budget.ShareIsProduct(1.0 - b, cfg.retry.maxRetries);
    Budget.ShareIsProduct(b, cfg.k);
    var s, j := LastGoesOn(cfg, httpMethod, o);
    Budget.ShareGrows(b, 0, cfg.k - 1);
    RoomLeft(b, cfg.k, 0, cfg.retry.maxRetries);
    s := OthersRetry(cfg, s, cfg.k - 1, httpMethod, o);
    OneMoreIsTooMany(b, cfg.k, j);
  }
}
