/**
 The bounds of AdmissionRateBound and OutageAdmissions are attained, together and under every
 configuration: n callers of a backend that is down are all let through before the first trip, and then
 each epoch begins as soon as it can, admits as many probes as it may, and ends at once.
 */
module CircuitAttainment {
  import opened Arithmetic
  import opened Circuit
  import opened CircuitProtocol

  /** A run of at most n callers in which every outcome trips; `mid` is the state after its first trip, or
      the last one if there was none. */
  ghost predicate OutageRun(cfg: Config, n: nat, es: seq<Event>, ss: seq<System>, i: nat, mid: System, s: System) {
    && IsRun(cfg, es, ss) && AllTrip(es) && AtMostCallers(ss, n)
    && i <= |es| && ss[i] == mid && ss[|es|] == s
    && forall k :: 0 <= k < i ==> ss[k].core.state.Closed?
  }

  ghost predicate InOutage(cfg: Config, n: nat, mid: System, s: System) {
    exists es, ss, i :: OutageRun(cfg, n, es, ss, i, mid, s)
  }

  /** One more step after the state `mid`. */
  lemma Do(cfg: Config, n: nat, mid: System, s: System, e: Event) returns (s': System)
    requires InOutage(cfg, n, mid, s) && Enabled(s, e) && (e.Report? ==> e.trip)
    requires |Apply(cfg, s, e).callers| <= n
    ensures s' == Apply(cfg, s, e) && InOutage(cfg, n, mid, s')
  {
    s' := Apply(cfg, s, e);
    var es, ss, i :| OutageRun(cfg, n, es, ss, i, mid, s);
    var es', ss' := es + [e], ss + [s'];
    assert OutageRun(cfg, n, es', ss', i, mid, s');
  }

  /** One more step of a run that has not tripped. */
  lemma DoClosed(cfg: Config, n: nat, s: System, e: Event) returns (s': System)
    requires InOutage(cfg, n, s, s) && s.core.state.Closed? && Enabled(s, e) && (e.Report? ==> e.trip)
    requires |Apply(cfg, s, e).callers| <= n
    ensures s' == Apply(cfg, s, e) && InOutage(cfg, n, s', s')
  {
    s' := Apply(cfg, s, e);
    var es, ss, i :| OutageRun(cfg, n, es, ss, i, s, s);
    ClosedBefore(cfg, es, ss, |es|);
    var es', ss' := es + [e], ss + [s'];
    assert OutageRun(cfg, n, es', ss', |es'|, s', s');
  }

  /** The callers lo, lo + 1, .., hi - 1 are in the call with this token. */
  function Group(lo: nat, hi: nat, token: nat): (callers: map<CallerId, Pc>)
    requires lo <= hi
    ensures |callers| == hi - lo && forall c: CallerId :: c in callers <==> lo <= c < hi
    ensures forall c :: c in callers ==> callers[c] == Calling(token)
    decreases hi
  {
    if lo == hi then map[] else Group(lo, hi - 1, token)[hi - 1 := Calling(token)]
  }

  // ----- Before the first trip -----

  /** Closed, after f failures and a admissions. */
  ghost predicate ClosedWith(cfg: Config, n: nat, s: System, group: map<CallerId, Pc>, f: nat, a: nat) {
    && f < cfg.failureThreshold && s.core == INITIAL.(failures := f)
    && InOutage(cfg, n, s, s) && s.clock == 0 && s.callers == group && |s.admitted| == a
  }

  lemma EnterClosed(cfg: Config, n: nat, s: System, group: map<CallerId, Pc>, c: CallerId, f: nat, a: nat)
    returns (s': System)
    requires ClosedWith(cfg, n, s, group, f, a) && c !in group && |group| < n
    ensures ClosedWith(cfg, n, s', group[c := Calling(0)], f, a + 1)
  {
    s' := DoClosed(cfg, n, s, Enter(c, 0));
  }

  lemma {:induction false} AllEnter(cfg: Config, n: nat, m: nat) returns (s: System)
    requires ValidConfig(cfg) && m <= n
    ensures ClosedWith(cfg, n, s, Group(0, m, 0), 0, m)
  {
    if m == 0 {
      s := Initial(0);
      assert OutageRun(cfg, n, [], [s], 0, s, s);
    } else {
      s := AllEnter(cfg, n, m - 1);
      s := EnterClosed(cfg, n, s, Group(0, m - 1, 0), m - 1, 0, m - 1);
    }
  }

  lemma FailOnce(cfg: Config, n: nat, s: System, f: nat, a: nat) returns (s': System)
    requires ValidConfig(cfg) && n >= 1 && f + 1 < cfg.failureThreshold && ClosedWith(cfg, n, s, Group(0, n, 0), f, a)
    ensures ClosedWith(cfg, n, s', Group(0, n - 1, 0), f + 1, a)
  {
    s' := DoClosed(cfg, n, s, Report(n - 1, true, 0));
    assert s'.callers == Group(0, n - 1, 0);
  }

  /** The last caller fails and comes again, until one more failure trips the breaker. */
  lemma {:induction false} FailAgain(cfg: Config, n: nat, f: nat) returns (s: System)
    requires ValidConfig(cfg) && n >= 1 && f < cfg.failureThreshold
    ensures ClosedWith(cfg, n, s, Group(0, n, 0), f, n + f)
  {
    if f == 0 {
      s := AllEnter(cfg, n, n);
    } else {
      s := FailAgain(cfg, n, f - 1);
      s := FailOnce(cfg, n, s, f - 1, n + f - 1);
      s := EnterClosed(cfg, n, s, Group(0, n - 1, 0), n - 1, f, n + f - 1);
    }
  }

  /** Open since `at`, after a admissions, with these callers still in the call. */
  ghost predicate OpenWith(cfg: Config, n: nat, mid: System, s: System, group: map<CallerId, Pc>, at: int, a: int) {
    && InOutage(cfg, n, mid, s) && s.core.state.Open? && s.core.openedAt == s.clock == at
    && s.callers == group && |s.admitted| == a
  }

  lemma FirstTripWith(cfg: Config, n: nat) returns (s: System)
    requires ValidConfig(cfg) && n >= 1
    ensures OpenWith(cfg, n, s, s, Group(0, n - 1, 0), 0, cfg.failureThreshold + n - 1) && s.core.generation == 1
  {
    s := FailAgain(cfg, n, cfg.failureThreshold - 1);
    s := DoClosed(cfg, n, s, Report(n - 1, true, 0));
    assert s.callers == Group(0, n - 1, 0);
  }

  /** Reports of earlier epochs change nothing, and their callers leave. */
  lemma {:induction false} LateReports(cfg: Config, n: nat, mid: System, s: System, hi: nat, token: nat, at: int,
                                          a: int)
    returns (s': System)
    requires OpenWith(cfg, n, mid, s, Group(0, hi, token), at, a) && token < s.core.generation && hi <= n
    ensures OpenWith(cfg, n, mid, s', map[], at, a)
    decreases hi
  {
    s' := s;
    if hi > 0 {
      s' := Do(cfg, n, mid, s, Report(hi - 1, true, at));
      assert s'.callers == Group(0, hi - 1, token);
      s' := LateReports(cfg, n, mid, s', hi - 1, token, at, a);
    }
  }

  // ----- An epoch -----

  /** Half-open, with p permits left and all the admitted probes in the call. */
  ghost predicate HalfOpenWith(cfg: Config, n: nat, mid: System, s: System, p: nat, at: int, a: int) {
    && InOutage(cfg, n, mid, s) && s.core.state.HalfOpen? && s.core.permits == p <= cfg.halfOpenMaxReqs
    && s.callers == Group(0, cfg.halfOpenMaxReqs - p, s.core.generation) && s.clock == at && |s.admitted| == a
  }

  lemma EpochBeginsOnTime(cfg: Config, n: nat, mid: System, s: System, at: int, a: int) returns (s': System)
    requires ValidConfig(cfg) && cfg.openDuration > 0 && n >= 1 && OpenWith(cfg, n, mid, s, map[], at, a)
    ensures HalfOpenWith(cfg, n, mid, s', cfg.halfOpenMaxReqs - 1, at + cfg.openDuration, a + 1)
  {
    var now := at + cfg.openDuration;
    s' := Do(cfg, n, mid, s, Enter(0, now));
    s' := Do(cfg, n, mid, s', LockAfterOpen(0, now));
    assert s'.callers == Group(0, 1, s'.core.generation);
  }

  lemma OneMoreProbe(cfg: Config, n: nat, mid: System, s: System, p: nat, at: int, a: int) returns (s': System)
    requires n >= cfg.halfOpenMaxReqs && p > 0 && HalfOpenWith(cfg, n, mid, s, p, at, a)
    ensures HalfOpenWith(cfg, n, mid, s', p - 1, at, a + 1)
  {
    var c: CallerId := cfg.halfOpenMaxReqs - p;
    s' := Do(cfg, n, mid, s, Enter(c, at));
    s' := Do(cfg, n, mid, s', LockAfterHalfOpen(c, at));
    assert s'.callers == Group(0, c + 1, s'.core.generation);
  }

  lemma {:induction false} AllProbes(cfg: Config, n: nat, mid: System, s: System, p: nat, at: int, a: int)
    returns (s': System)
    requires n >= cfg.halfOpenMaxReqs && HalfOpenWith(cfg, n, mid, s, p, at, a)
    ensures HalfOpenWith(cfg, n, mid, s', 0, at, a + p)
    decreases p
  {
    s' := s;
    if p > 0 {
      s' := OneMoreProbe(cfg, n, mid, s, p, at, a);
      s' := AllProbes(cfg, n, mid, s', p - 1, at, a + 1);
    }
  }

  /** The last probe trips the breaker again, and the others report too late. */
  lemma EpochEnds(cfg: Config, n: nat, mid: System, s: System, at: int, a: int) returns (s': System)
    requires ValidConfig(cfg) && n >= cfg.halfOpenMaxReqs && HalfOpenWith(cfg, n, mid, s, 0, at, a)
    ensures OpenWith(cfg, n, mid, s', map[], at, a)
  {
    var g, hi := s.core.generation, cfg.halfOpenMaxReqs - 1;
    s' := Do(cfg, n, mid, s, Report(hi, true, at));
    assert s'.callers == Group(0, hi, g);
    s' := LateReports(cfg, n, mid, s', hi, g, at, a);
  }

  lemma {:induction false} Epochs(cfg: Config, n: nat, mid: System, s: System, at: int, a: int, m: nat)
    returns (s': System)
    requires ValidConfig(cfg) && cfg.openDuration > 0 && n >= cfg.halfOpenMaxReqs
    requires OpenWith(cfg, n, mid, s, map[], at, a)
    ensures OpenWith(cfg, n, mid, s', map[], at + Times(m, cfg.openDuration), a + Times(m, cfg.halfOpenMaxReqs))
    decreases m
  {
    s' := s;
    if m > 0 {
      s' := Epochs(cfg, n, mid, s, at, a, m - 1);
      var at', a' := at + Times(m - 1, cfg.openDuration), a + Times(m - 1, cfg.halfOpenMaxReqs);
      s' := EpochBeginsOnTime(cfg, n, mid, s', at', a');
      s' := AllProbes(cfg, n, mid, s', cfg.halfOpenMaxReqs - 1, at' + cfg.openDuration, a' + 1);
      s' := EpochEnds(cfg, n, mid, s', at' + cfg.openDuration, a' + cfg.halfOpenMaxReqs);
    }
  }

  /** For every configuration, every m, and every n that suffices to use all permits, some outage of n
      callers admits FailureThreshold + n - 1 calls up to its first trip, and HalfOpenMaxReqs more in each
      of the m open durations after it. */
  lemma OutageBoundIsAttained(cfg: Config, n: nat, m: nat)
    requires ValidConfig(cfg) && cfg.openDuration > 0 && n >= cfg.halfOpenMaxReqs
    ensures exists mid, s | InOutage(cfg, n, mid, s) ::
              && mid.core.state.Open? && |mid.admitted| == cfg.failureThreshold + n - 1
              && s.clock == mid.core.openedAt + m * cfg.openDuration
              && |s.admitted| == |mid.admitted| + m * cfg.halfOpenMaxReqs
  {
    var a := cfg.failureThreshold + n - 1;
    var mid := FirstTripWith(cfg, n);
    var s := LateReports(cfg, n, mid, mid, n - 1, 0, 0, a);
    s := Epochs(cfg, n, mid, s, 0, a, m);
    TimesIsProduct(m, cfg.openDuration);
    TimesIsProduct(m, cfg.halfOpenMaxReqs);
  }
}
