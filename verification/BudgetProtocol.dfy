/**
 Any number of callers inside RetryBudget.Allow at once, within one window: each load and
 each add is an atomic step of its own, and the steps interleave in any order.  The ratio test is
 written without its division; RefusesAtShare shows that it is the same test.
 */
module BudgetProtocol {
  import opened Budget

  type CallerId = nat

  datatype Pc =
    | Entered                                // past the window test
    | Counted                                // has added itself to total
    | LoadedTotal(total: int)
    | LoadedBoth(total: int, retries: int)
    | Passed                                 // the ratio test passed; retries not yet increased

  datatype System = System(total: int, retries: int, callers: map<CallerId, Pc>, granted: nat, refused: nat)

  datatype Event =
    | Enter(c: CallerId)
    | AddTotal(c: CallerId)
    | LoadTotal(c: CallerId)
    | LoadRetries(c: CallerId)
    | Decide(c: CallerId)
    | AddRetry(c: CallerId)

  const INITIAL := System(0, 0, map[], 0, 0)

  predicate At(s: System, c: CallerId, pc: Pc) {
    c in s.callers && s.callers[c] == pc
  }

  /** At most k callers are inside Allow at once. */
  predicate Enabled(k: nat, s: System, e: Event) {
    match e
    case Enter(c) => c !in s.callers && |s.callers| < k
    case AddTotal(c) => At(s, c, Entered)
    case LoadTotal(c) => At(s, c, Counted)
    case LoadRetries(c) => c in s.callers && s.callers[c].LoadedTotal?
    case Decide(c) => c in s.callers && s.callers[c].LoadedBoth?
    case AddRetry(c) => At(s, c, Passed)
  }

  function Apply(cfg: Config, k: nat, s: System, e: Event): System
    requires Enabled(k, s, e)
  {
    match e
    case Enter(c) => s.(callers := s.callers[c := Entered])
    case AddTotal(c) => s.(total := s.total + 1, callers := s.callers[c := Counted])
    case LoadTotal(c) => s.(callers := s.callers[c := LoadedTotal(s.total)])
    case LoadRetries(c) => s.(callers := s.callers[c := LoadedBoth(s.callers[c].total, s.retries)])
    case Decide(c) =>
      var pc := s.callers[c];
      if pc.total <= 0 then s.(callers := s.callers - {c}, granted := s.granted + 1)
      else if BelowShare(cfg, pc.total, pc.retries) then s.(callers := s.callers[c := Passed])
      else s.(callers := s.callers - {c}, refused := s.refused + 1)
    case AddRetry(c) =>
      s.(retries := s.retries + 1, callers := s.callers - {c}, granted := s.granted + 1)
  }

  /** A run in which at most k callers are inside Allow at any moment. */
  ghost predicate IsRun(cfg: Config, k: nat, es: seq<Event>, ss: seq<System>) {
    && ValidConfig(cfg)
    && |ss| == |es| + 1
    && ss[0] == INITIAL
    && forall i {:trigger es[i]} :: 0 <= i < |es| ==>
      Enabled(k, ss[i], es[i]) && ss[i + 1] == Apply(cfg, k, ss[i], es[i])
  }

  /** Callers whose loaded values let them through and whose add to retries is still to come. */
  predicate IsPending(cfg: Config, pc: Pc) {
    pc.Passed? || (pc.LoadedBoth? && BelowShare(cfg, pc.total, pc.retries))
  }

  ghost function Pending(cfg: Config, s: System): set<CallerId> {
    set c | c in s.callers && IsPending(cfg, s.callers[c])
  }

  predicate LoadedFromPast(s: System, pc: Pc) {
    match pc
    case LoadedTotal(t) => 0 < t <= s.total
    case LoadedBoth(t, r) => 0 < t <= s.total && 0 <= r <= s.retries
    case Counted => 0 < s.total
    case _ => true
  }

  ghost predicate Invariant(cfg: Config, k: nat, s: System) {
    && |s.callers| <= k
    && 0 <= s.retries == s.granted
    && s.total >= 0
    && (forall c :: c in s.callers ==> LoadedFromPast(s, s.callers[c]))
    && (s.total > 0 ==> k > 0)
    && (s.total == 0 ==> s.retries == 0 && Pending(cfg, s) == {})
    && (s.total > 0 ==> s.retries + |Pending(cfg, s)| <= Ceiling(Share(cfg.budget, s.total)) + k - 1)
  }

  lemma SubsetSize<T>(a: set<T>, b: set<T>)
    requires a <= b
    ensures |a| <= |b|
  {
    if a != {} {
      var x :| x in a;
      SubsetSize(a - {x}, b - {x});
    }
  }

  lemma PendingWithin(cfg: Config, s: System)
    ensures |Pending(cfg, s)| <= |s.callers|
  {
    SubsetSize(Pending(cfg, s), s.callers.Keys);
  }

  /** A caller that loads retries and will pass saw fewer retries than the ceiling allows now. */
  lemma LoadedBelowCeiling(cfg: Config, total: nat, loaded: nat, retries: int)
    requires ValidConfig(cfg) && loaded <= total && BelowShare(cfg, loaded, retries)
    ensures retries <= Ceiling(Share(cfg.budget, total)) - 1
  {
    ShareGrows(cfg.budget, loaded, total);
    CeilingBounds(Share(cfg.budget, total));
  }

  lemma PendingUnchanged(cfg: Config, s: System, s': System, c: CallerId)
    requires c in s.callers ==> !IsPending(cfg, s.callers[c])
    requires c in s'.callers ==> !IsPending(cfg, s'.callers[c])
    requires forall d :: d != c ==>
               (d in s.callers <==> d in s'.callers) && (d in s.callers ==> s'.callers[d] == s.callers[d])
    ensures Pending(cfg, s') == Pending(cfg, s)
  {
  }

  lemma EnterKeepsInvariant(cfg: Config, k: nat, s: System, c: CallerId)
    requires ValidConfig(cfg) && Invariant(cfg, k, s) && Enabled(k, s, Enter(c))
    ensures Invariant(cfg, k, Apply(cfg, k, s, Enter(c)))
  {
    PendingUnchanged(cfg, s, Apply(cfg, k, s, Enter(c)), c);
  }

  lemma LoadTotalKeepsInvariant(cfg: Config, k: nat, s: System, c: CallerId)
    requires ValidConfig(cfg) && Invariant(cfg, k, s) && Enabled(k, s, LoadTotal(c))
    ensures Invariant(cfg, k, Apply(cfg, k, s, LoadTotal(c)))
  {
    assert LoadedFromPast(s, s.callers[c]);
    PendingUnchanged(cfg, s, Apply(cfg, k, s, LoadTotal(c)), c);
    assert Apply(cfg, k, s, LoadTotal(c)).callers.Keys == s.callers.Keys;
  }

  lemma AddTotalKeepsInvariant(cfg: Config, k: nat, s: System, c: CallerId)
    requires ValidConfig(cfg) && Invariant(cfg, k, s) && Enabled(k, s, AddTotal(c))
    ensures Invariant(cfg, k, Apply(cfg, k, s, AddTotal(c)))
  {
    var s' := Apply(cfg, k, s, AddTotal(c));
    PendingUnchanged(cfg, s, s', c);
    assert s.callers.Keys != {};
    CeilingBounds(Share(cfg.budget, s.total));
    CeilingBounds(Share(cfg.budget, s'.total));
  }

  lemma LoadRetriesKeepsInvariant(cfg: Config, k: nat, s: System, c: CallerId)
    requires ValidConfig(cfg) && Invariant(cfg, k, s) && Enabled(k, s, LoadRetries(c))
    ensures Invariant(cfg, k, Apply(cfg, k, s, LoadRetries(c)))
  {
    var s' := Apply(cfg, k, s, LoadRetries(c));
    var pc := s'.callers[c];
    assert LoadedFromPast(s, s.callers[c]);
    if BelowShare(cfg, pc.total, pc.retries) {
      LoadedBelowCeiling(cfg, s.total, pc.total, pc.retries);
      PendingWithin(cfg, s');
      assert s'.callers.Keys == s.callers.Keys;
    } else {
      PendingUnchanged(cfg, s, s', c);
    }
  }

  lemma DecideKeepsInvariant(cfg: Config, k: nat, s: System, c: CallerId)
    requires ValidConfig(cfg) && Invariant(cfg, k, s) && Enabled(k, s, Decide(c))
    ensures Invariant(cfg, k, Apply(cfg, k, s, Decide(c)))
  {
    var s' := Apply(cfg, k, s, Decide(c));
    var pc := s.callers[c];
    assert LoadedFromPast(s, pc);
    assert Pending(cfg, s') == Pending(cfg, s);
  }

  lemma AddRetryKeepsInvariant(cfg: Config, k: nat, s: System, c: CallerId)
    requires ValidConfig(cfg) && Invariant(cfg, k, s) && Enabled(k, s, AddRetry(c))
    ensures Invariant(cfg, k, Apply(cfg, k, s, AddRetry(c)))
  {
    var s' := Apply(cfg, k, s, AddRetry(c));
    assert Pending(cfg, s') == Pending(cfg, s) - {c} && c in Pending(cfg, s);
  }

  lemma StepKeepsInvariant(cfg: Config, k: nat, s: System, e: Event, s': System)
    requires ValidConfig(cfg) && Invariant(cfg, k, s) && Enabled(k, s, e) && s' == Apply(cfg, k, s, e)
    ensures Invariant(cfg, k, s')
  {
    match e
    case AddTotal(c) => AddTotalKeepsInvariant(cfg, k, s, c);
    case LoadRetries(c) => LoadRetriesKeepsInvariant(cfg, k, s, c);
    case Decide(c) => DecideKeepsInvariant(cfg, k, s, c);
    case AddRetry(c) => AddRetryKeepsInvariant(cfg, k, s, c);
    case Enter(c) => EnterKeepsInvariant(cfg, k, s, c);
    case LoadTotal(c) => LoadTotalKeepsInvariant(cfg, k, s, c);
  }

  lemma InvariantAtFirst(cfg: Config, k: nat)
    ensures Invariant(cfg, k, INITIAL)
  {
    assert Pending(cfg, INITIAL) == {};
  }

  lemma RunKeepsInvariant(cfg: Config, k: nat, es: seq<Event>, ss: seq<System>, i: nat)
    requires IsRun(cfg, k, es, ss) && i < |es| && Invariant(cfg, k, ss[i])
    ensures Invariant(cfg, k, ss[i + 1])
  {
    assert Enabled(k, ss[i], es[i]) && ss[i + 1] == Apply(cfg, k, ss[i], es[i]);
    StepKeepsInvariant(cfg, k, ss[i], es[i], ss[i + 1]);
  }

  lemma {:induction false} InvariantHolds(cfg: Config, k: nat, es: seq<Event>, ss: seq<System>, i: nat)
    requires IsRun(cfg, k, es, ss) && i < |ss|
    ensures Invariant(cfg, k, ss[i])
  {
    if i == 0 {
      InvariantAtFirst(cfg, k);
    } else {
      InvariantHolds(cfg, k, es, ss, i - 1);
      RunKeepsInvariant(cfg, k, es, ss, i - 1);
    }
  }

  /** The overshoot bound: however the atomic steps of Allow interleave, with at most k callers
      inside at once the grants exceed the sequential closed form by at most k - 1. */
  lemma OvershootBound(cfg: Config, k: nat, es: seq<Event>, ss: seq<System>, i: nat)
    requires IsRun(cfg, k, es, ss) && i < |ss|
    ensures ss[i].granted == ss[i].retries
    ensures ss[i].granted > 0 ==> ss[i].granted <= Ceiling(cfg.budget * ss[i].total as real) + k - 1
  {
    InvariantHolds(cfg, k, es, ss, i);
    ShareIsProduct(cfg.budget, ss[i].total);
  }

  ghost predicate Reachable(cfg: Config, k: nat, s: System) {
    exists es, ss :: IsRun(cfg, k, es, ss) && ss[|es|] == s
  }

  lemma ReachableStep(cfg: Config, k: nat, s: System, e: Event, s': System)
    requires Reachable(cfg, k, s) && Enabled(k, s, e) && s' == Apply(cfg, k, s, e)
    ensures Reachable(cfg, k, s')
  {
    var es, ss :| IsRun(cfg, k, es, ss) && ss[|es|] == s;
    assert IsRun(cfg, k, es + [e], ss + [s']);
    assert (ss + [s'])[|es + [e]|] == s';
  }

  // ----- The bound is attained -----

  /** Caller c runs up to its ratio test, alone or beside callers that rest. */
  lemma RunsUpToTest(cfg: Config, k: nat, s: System, c: CallerId) returns (s': System)
    requires Reachable(cfg, k, s) && c !in s.callers && |s.callers| < k
    ensures s' == s.(total := s.total + 1, callers := s.callers[c := LoadedBoth(s.total + 1, s.retries)])
    ensures Reachable(cfg, k, s')
  {
    var s1 := Apply(cfg, k, s, Enter(c));
    ReachableStep(cfg, k, s, Enter(c), s1);
    var s2 := Apply(cfg, k, s1, AddTotal(c));
    ReachableStep(cfg, k, s1, AddTotal(c), s2);
    var s3 := Apply(cfg, k, s2, LoadTotal(c));
    ReachableStep(cfg, k, s2, LoadTotal(c), s3);
    s' := Apply(cfg, k, s3, LoadRetries(c));
    ReachableStep(cfg, k, s3, LoadRetries(c), s');
    assert s'.callers == s.callers[c := LoadedBoth(s.total + 1, s.retries)];
  }

  /** The first n callers have passed the ratio test and have not added to retries. */
  function Resting(n: nat): (callers: map<CallerId, Pc>)
    ensures |callers| == n && forall c: CallerId :: c in callers <==> c < n
  {
    if n == 0 then map[] else Resting(n - 1)[n - 1 := Passed]
  }

  /** Caller n joins the resting ones, when its loaded values let it through. */
  lemma OneMoreRests(cfg: Config, k: nat, s: System, n: nat) returns (s': System)
    requires Reachable(cfg, k, s) && s.callers == Resting(n) && n < k
    requires BelowShare(cfg, s.total + 1, s.retries)
    ensures Reachable(cfg, k, s') && s' == s.(total := s.total + 1, callers := Resting(n + 1))
  {
    var s1 := RunsUpToTest(cfg, k, s, n);
    s' := Apply(cfg, k, s1, Decide(n));
    ReachableStep(cfg, k, s1, Decide(n), s');
    assert s'.callers == Resting(n + 1);
  }

  /** n callers that load before any of them adds all pass. */
  lemma {:induction false} AllRest(cfg: Config, k: nat, n: nat) returns (s: System)
    requires ValidConfig(cfg) && n <= k
    ensures Reachable(cfg, k, s) && s == INITIAL.(total := n, callers := Resting(n))
  {
    if n == 0 {
      s := INITIAL;
      assert IsRun(cfg, k, [], [INITIAL]);
    } else {
      s := AllRest(cfg, k, n - 1);
      ShareGrows(cfg.budget, 0, n - 1);
      s := OneMoreRests(cfg, k, s, n - 1);
    }
  }

  /** The last of the resting callers adds to retries and is granted. */
  lemma OneRestingAdds(cfg: Config, k: nat, s: System, n: nat) returns (s': System)
    requires Reachable(cfg, k, s) && s.callers == Resting(n + 1)
    ensures Reachable(cfg, k, s')
    ensures s' == s.(retries := s.retries + 1, granted := s.granted + 1, callers := Resting(n))
  {
    s' := Apply(cfg, k, s, AddRetry(n));
    ReachableStep(cfg, k, s, AddRetry(n), s');
    assert s'.callers == Resting(n);
  }

  lemma {:induction false} AllRestingAdd(cfg: Config, k: nat, s: System, n: nat) returns (s': System)
    requires Reachable(cfg, k, s) && s.callers == Resting(n)
    ensures Reachable(cfg, k, s') && s'.callers == map[]
    ensures s'.total == s.total && s'.granted == s.granted + n
    decreases n
  {
    s' := s;
    if n > 0 {
      s' := OneRestingAdds(cfg, k, s, n - 1);
      s' := AllRestingAdd(cfg, k, s', n - 1);
    }
  }

  /** Beside the resting callers one more is granted. */
  lemma GrantedBesideResting(cfg: Config, k: nat, s: System, n: nat) returns (s': System)
    requires Reachable(cfg, k, s) && s.callers == Resting(n) && n < k && BelowShare(cfg, s.total + 1, s.retries)
    ensures Reachable(cfg, k, s') && s'.callers == Resting(n)
    ensures s'.total == s.total + 1 && s'.retries == s.retries + 1 && s'.granted == s.granted + 1
  {
    s' := OneMoreRests(cfg, k, s, n);
    s' := OneRestingAdds(cfg, k, s', n);
  }

  /** One sequential caller beside the resting ones is granted each time until the retries have
      caught up with the ceiling, which they do because it rises by less than one at a time. */
  lemma {:induction false} CatchesUp(cfg: Config, k: nat, s: System, n: nat, steps: nat) returns (s': System)
    requires ValidConfig(cfg) && Reachable(cfg, k, s) && s.callers == Resting(n) && n < k && s.total >= 0
    requires s.granted == s.retries <= Ceiling(Share(cfg.budget, s.total))
    requires Share(cfg.budget, s.total) - s.retries as real <= Share(1.0 - cfg.budget, steps)
    ensures Reachable(cfg, k, s') && s'.callers == Resting(n) && s'.total >= 0
    ensures s'.granted == Ceiling(Share(cfg.budget, s'.total))
    decreases steps
  {
    s' := s;
    CeilingBounds(Share(cfg.budget, s.total));
    if s.retries < Ceiling(Share(cfg.budget, s.total)) {
      s' := GrantedBesideResting(cfg, k, s, n);
      CeilingBounds(Share(cfg.budget, s'.total));
      s' := CatchesUp(cfg, k, s', n, steps - 1);
    }
  }

  /** Enough repetitions of a positive step reach any distance. */
  lemma StepsToReach(d: real, x: real) returns (n: nat)
    requires d > 0.0
    ensures Share(d, n) >= x
  {
    var q := x / d;
    n := if q <= 0.0 then 0 else Ceiling(q);
    ShareIsProduct(d, n);
    CeilingBounds(q);
    assert q * d == x;
    assert (n as real - q) * d >= 0.0;
  }

  /** For every budget below one and every k the overshoot of k - 1 happens. */
  lemma OvershootIsAttained(cfg: Config, k: nat)
    requires ValidConfig(cfg) && cfg.budget < 1.0 && k >= 1
    ensures exists s | Reachable(cfg, k, s) ::
              s.callers == map[] && s.total >= 0 && s.granted == Ceiling(Share(cfg.budget, s.total)) + k - 1
  {
    var s := AllRest(cfg, k, k - 1);
    ShareGrows(cfg.budget, 0, s.total);
    CeilingBounds(Share(cfg.budget, s.total));
    var steps := StepsToReach(1.0 - cfg.budget, Share(cfg.budget, s.total));
    s := CatchesUp(cfg, k, s, k - 1, steps);
    s := AllRestingAdd(cfg, k, s, k - 1);
  }

  /** An uninterrupted caller makes, step by step, what AllowAlone makes of the counters. */
  lemma AllowAloneIsReached(cfg: Config, k: nat, s: System, c: CallerId, counters: Counters, now: int)
    returns (s': System)
    requires Reachable(cfg, k, s) && s.callers == map[] && k > 0
    requires counters.total == s.total && counters.retries == s.retries && !Expired(cfg, counters, now)
    ensures Reachable(cfg, k, s') && s'.callers == map[]
    ensures var (counters', granted) := AllowAlone(cfg, counters, now);
            && s'.total == counters'.total && s'.retries == counters'.retries
            && s'.granted == s.granted + (if granted then 1 else 0)
            && s'.refused == s.refused + (if granted then 0 else 1)
  {
    ReachableCounts(cfg, k, s);
    RefusesAtShare(cfg, s.total + 1, s.retries);
    var s1 := RunsUpToTest(cfg, k, s, c);
    s' := Apply(cfg, k, s1, Decide(c));
    ReachableStep(cfg, k, s1, Decide(c), s');
    if c in s'.callers {
      var s2 := Apply(cfg, k, s', AddRetry(c));
      ReachableStep(cfg, k, s', AddRetry(c), s2);
      s' := s2;
    }
    assert s'.callers == map[];
  }

  lemma ReachableCounts(cfg: Config, k: nat, s: System)
    requires Reachable(cfg, k, s)
    ensures s.total >= 0 && s.retries >= 0
  {
    var es, ss :| IsRun(cfg, k, es, ss) && ss[|es|] == s;
    InvariantHolds(cfg, k, es, ss, |es|);
  }

  // ----- When there is no overshoot -----

  /** Callers that have added themselves to total and are still inside. */
  ghost function CountedCallers(s: System): set<CallerId> {
    set c | c in s.callers && !s.callers[c].Entered?
  }

  /** Every call that was counted was granted or refused, or is under way. */
  ghost predicate CallsAccounted(s: System) {
    s.granted + s.refused + |CountedCallers(s)| == s.total
  }

  lemma StepAccounts(cfg: Config, k: nat, s: System, e: Event, s': System)
    requires CallsAccounted(s) && Enabled(k, s, e) && s' == Apply(cfg, k, s, e)
    ensures CallsAccounted(s')
  {
    if e.AddTotal? {
      assert CountedCallers(s') == CountedCallers(s) + {e.c};
    } else if e.c in s.callers && e.c !in s'.callers {
      assert CountedCallers(s') == CountedCallers(s) - {e.c} && e.c in CountedCallers(s);
    } else {
      assert CountedCallers(s') == CountedCallers(s);
    }
  }

  lemma {:induction false} CallsAccountedHolds(cfg: Config, k: nat, es: seq<Event>, ss: seq<System>, i: nat)
    requires IsRun(cfg, k, es, ss) && i < |ss|
    ensures CallsAccounted(ss[i])
  {
    if i == 0 {
      assert CountedCallers(INITIAL) == {};
    } else {
      CallsAccountedHolds(cfg, k, es, ss, i - 1);
      assert Enabled(k, ss[i - 1], es[i - 1]) && ss[i] == Apply(cfg, k, ss[i - 1], es[i - 1]);
      StepAccounts(cfg, k, ss[i - 1], es[i - 1], ss[i]);
    }
  }

  /** In this state more was granted than sequential calls would have been. */
  ghost predicate Overshoots(cfg: Config, s: System) {
    s.total >= 0 && s.granted > Ceiling(Share(cfg.budget, s.total))
  }

  lemma ReachableWithin(cfg: Config, k: nat, s: System)
    requires Reachable(cfg, k, s) && (k <= 1 || cfg.budget == 1.0)
    ensures !Overshoots(cfg, s)
  {
    var es, ss :| IsRun(cfg, k, es, ss) && ss[|es|] == s;
    InvariantHolds(cfg, k, es, ss, |es|);
    if s.total >= 0 {
      ShareIsProduct(cfg.budget, s.total);
      CeilingBounds(Share(cfg.budget, s.total));
      CallsAccountedHolds(cfg, k, es, ss, |es|);
    }
  }

  /** The concurrent budget keeps the sequential closed form as a bound exactly when calls cannot
      overlap or the budget is one. */
  lemma OvershootsIff(cfg: Config, k: nat)
    requires ValidConfig(cfg)
    ensures (exists s | Reachable(cfg, k, s) :: Overshoots(cfg, s)) <==> k >= 2 && cfg.budget < 1.0
  {
    if k >= 2 && cfg.budget < 1.0 {
      OvershootIsAttained(cfg, k);
      var s :| Reachable(cfg, k, s) && s.callers == map[] && s.total >= 0 &&
               s.granted == Ceiling(Share(cfg.budget, s.total)) + k - 1;
      assert Overshoots(cfg, s);
    } else {
      forall s | Reachable(cfg, k, s)
        ensures !Overshoots(cfg, s)
      {
        ReachableWithin(cfg, k, s);
      }
    }
  }
}
