/**
 At most k callers of one retry policy with a budget, at once: each runs the loop of Execute, and
 the atomic steps of Allow interleave with everything else.  The callers are numbered below k; a
 caller that is done may begin its next request.  The run stays within one budget window.

 `requests`, `calls` and `retries` record what happened; the program does not keep them.
 */
module ConcurrentRetry {
  import Budget
  import B = BudgetProtocol
  import R = Retry
  import RetryTheorems

  type CallerId = nat

  /** Where a caller of Execute stands in the pass of its present attempt. */
  datatype Stage =
    | Calling                              // in the next policy
    | Asking(o: R.Outcome)                 // inside Allow
    | Answered(o: R.Outcome, granted: bool)
    | Waiting                              // will retry unless its context is done first

  datatype Caller = Caller(httpMethod: string, attempt: nat, stage: Stage)

  datatype System = System(budget: B.System, callers: map<CallerId, Caller>, requests: nat, calls: nat, retries: nat)

  const INITIAL := System(B.INITIAL, map[], 0, 0, 0)

  datatype Event =
    | Begin(c: CallerId, httpMethod: string)
    | Return(c: CallerId, o: R.Outcome)
    | InsideAllow(step: B.Event)
    | Decide(c: CallerId)
    | Again(c: CallerId)
    | CutShort(c: CallerId)

  datatype Config = Config(retry: R.Config, budget: Budget.Config, k: nat)

  ghost predicate ValidConfig(cfg: Config) {
    R.ValidConfig(cfg.retry) && Budget.ValidConfig(cfg.budget) && cfg.k >= 1
  }

  predicate IsAsking(s: System, c: CallerId) {
    c in s.callers && s.callers[c].stage.Asking?
  }

  predicate Enabled(cfg: Config, s: System, e: Event) {
    match e
    case Begin(c, _) => c < cfg.k && c !in s.callers
    case Return(c, _) => c in s.callers && s.callers[c].stage.Calling?
    case InsideAllow(step) => IsAsking(s, step.c) && B.Enabled(cfg.k, s.budget, step)
    case Decide(c) => c in s.callers && s.callers[c].stage.Answered?
    case Again(c) => c in s.callers && s.callers[c].stage.Waiting?
    case CutShort(c) => c in s.callers && s.callers[c].stage.Waiting?
  }

  function Move(s: System, c: CallerId, stage: Stage): System
    requires c in s.callers
  {
    s.(callers := s.callers[c := s.callers[c].(stage := stage)])
  }

  function Leave(s: System, c: CallerId): System {
    s.(callers := s.callers - {c})
  }

  function Apply(cfg: Config, s: System, e: Event): System
    requires Enabled(cfg, s, e)
  {
    match e
    case Begin(c, httpMethod) =>
      s.(callers := s.callers[c := Caller(httpMethod, 0, Calling)], requests := s.requests + 1, calls := s.calls + 1)
    case Return(c, o) =>
      // A permanent error ends the loop before the budget is asked.
      if o.err.Some? && o.err.value.Permanent? then Leave(s, c) else Move(s, c, Asking(o))
    case InsideAllow(step) =>
      var s1 := s.(budget := B.Apply(cfg.budget, cfg.k, s.budget, step));
      if step.c in s1.budget.callers then s1
      else Move(s1, step.c, Answered(s.callers[step.c].stage.o, s1.budget.granted > s.budget.granted))
    case Decide(c) =>
      var me := s.callers[c];
      if me.stage.granted && R.Wanted(cfg.retry, me.httpMethod, me.stage.o) && me.attempt < cfg.retry.maxRetries then
        Move(s, c, Waiting)
      else
        Leave(s, c)
    case Again(c) =>
      var me := s.callers[c];
      s.(callers := s.callers[c := Caller(me.httpMethod, me.attempt + 1, Calling)],
         calls := s.calls + 1, retries := s.retries + 1)
    case CutShort(c) => Leave(s, c)
  }

  ghost predicate IsRun(cfg: Config, es: seq<Event>, ss: seq<System>) {
    && ValidConfig(cfg)
    && |ss| == |es| + 1
    && ss[0] == INITIAL
    && forall i {:trigger es[i]} :: 0 <= i < |es| ==>
      Enabled(cfg, ss[i], es[i]) && ss[i + 1] == Apply(cfg, ss[i], es[i])
  }

  // ----- The invariant -----

  /** The call this caller is making or has made is not counted by the budget yet. */
  predicate IsUncounted(s: System, c: CallerId) {
    && c in s.callers
    && match s.callers[c].stage
       case Calling => true
       case Asking(_) => c in s.budget.callers ==> s.budget.callers[c] == B.Entered
       case _ => false
  }

  ghost function Uncounted(s: System): set<CallerId> {
    set c | c in s.callers && IsUncounted(s, c)
  }

  /** The caller holds a grant that it has not spent on a retry yet. */
  predicate IsUnspent(s: System, c: CallerId) {
    && c in s.callers
    && match s.callers[c].stage
       case Answered(_, granted) => granted
       case Waiting => true
       case _ => false
  }

  ghost function Unspent(s: System): set<CallerId> {
    set c | c in s.callers && IsUnspent(s, c)
  }

  ghost predicate Invariant(cfg: Config, s: System) {
    && B.Reachable(cfg.budget, cfg.k, s.budget)
    && (forall c :: c in s.budget.callers ==> IsAsking(s, c))
    && s.calls == s.requests + s.retries
    && s.budget.total + |Uncounted(s)| <= s.calls
    && s.retries + |Unspent(s)| <= s.budget.granted
  }

  /** The two sets differ between the states at most in the caller c. */
  lemma SetsChangeAt(s: System, s': System, c: CallerId)
    requires forall d :: d != c ==>
               (IsUncounted(s, d) <==> IsUncounted(s', d)) && (IsUnspent(s, d) <==> IsUnspent(s', d))
    ensures |Uncounted(s')| - |Uncounted(s)|
              == (if IsUncounted(s', c) then 1 else 0) - (if IsUncounted(s, c) then 1 else 0)
    ensures |Unspent(s')| - |Unspent(s)| == (if IsUnspent(s', c) then 1 else 0) - (if IsUnspent(s, c) then 1 else 0)
  {
    ChangeAt(Uncounted(s), Uncounted(s'), c);
    ChangeAt(Unspent(s), Unspent(s'), c);
  }

  lemma ChangeAt(a: set<CallerId>, b: set<CallerId>, c: CallerId)
    requires forall d :: d != c ==> (d in a <==> d in b)
    ensures |b| - |a| == (if c in b then 1 else 0) - (if c in a then 1 else 0)
  {
    assert a - {c} == b - {c};
    assert |a - {c}| == |a| - if c in a then 1 else 0;
    assert |b - {c}| == |b| - if c in b then 1 else 0;
  }

  lemma AllowKeepsInvariant(cfg: Config, s: System, step: B.Event)
    requires ValidConfig(cfg) && Invariant(cfg, s) && Enabled(cfg, s, InsideAllow(step))
    ensures Invariant(cfg, Apply(cfg, s, InsideAllow(step)))
  {
    var s' := Apply(cfg, s, InsideAllow(step));
    B.ReachableStep(cfg.budget, cfg.k, s.budget, step, s'.budget);
    SetsChangeAt(s, s', step.c);
  }

  lemma StepKeepsInvariant(cfg: Config, s: System, e: Event)
    requires ValidConfig(cfg) && Invariant(cfg, s) && Enabled(cfg, s, e)
    ensures Invariant(cfg, Apply(cfg, s, e))
  {
    if e.InsideAllow? {
      AllowKeepsInvariant(cfg, s, e.step);
    } else {
      SetsChangeAt(s, Apply(cfg, s, e), e.c);
    }
  }

  lemma InvariantAtFirst(cfg: Config)
    requires ValidConfig(cfg)
    ensures Invariant(cfg, INITIAL)
  {
    assert B.IsRun(cfg.budget, cfg.k, [], [B.INITIAL]);
    assert Uncounted(INITIAL) == {} && Unspent(INITIAL) == {};
  }

  lemma {:induction false} InvariantHolds(cfg: Config, es: seq<Event>, ss: seq<System>, i: nat)
    requires IsRun(cfg, es, ss) && i < |ss|
    ensures Invariant(cfg, ss[i])
  {
    if i == 0 {
      InvariantAtFirst(cfg);
    } else {
      InvariantHolds(cfg, es, ss, i - 1);
      assert Enabled(cfg, ss[i - 1], es[i - 1]) && ss[i] == Apply(cfg, ss[i - 1], es[i - 1]);
      StepKeepsInvariant(cfg, ss[i - 1], es[i - 1]);
    }
  }

  // ----- Why a request is retried -----

  /** The outcome in the hands of a caller that asks the budget, or has its answer. */
  predicate Holds(me: Caller, o: R.Outcome) {
    match me.stage
    case Asking(o') => o' == o
    case Answered(o', _) => o' == o
    case _ => false
  }

  predicate MayRetry(cfg: Config, me: Caller) {
    && me.attempt <= cfg.retry.maxRetries
    && (me.stage.Waiting? ==> me.attempt < cfg.retry.maxRetries)
  }

  lemma {:induction false} AttemptsWithinLimit(cfg: Config, es: seq<Event>, ss: seq<System>, i: nat)
    requires IsRun(cfg, es, ss) && i < |ss|
    ensures forall c :: c in ss[i].callers ==> MayRetry(cfg, ss[i].callers[c])
  {
    if i > 0 {
      AttemptsWithinLimit(cfg, es, ss, i - 1);
      assert Enabled(cfg, ss[i - 1], es[i - 1]) && ss[i] == Apply(cfg, ss[i - 1], es[i - 1]);
    }
  }

  /** What a caller holds is what its latest call returned, in step k, and that was not permanent. */
  lemma {:induction false} HeldWasReturned(cfg: Config, es: seq<Event>, ss: seq<System>, i: nat, c: CallerId,
                                           o: R.Outcome)
    returns (k: nat)
    requires IsRun(cfg, es, ss) && i < |ss| && c in ss[i].callers && Holds(ss[i].callers[c], o)
    ensures k < i && es[k] == Return(c, o) && !(o.err.Some? && o.err.value.Permanent?)
    ensures c in ss[k].callers && ss[k].callers[c].httpMethod == ss[i].callers[c].httpMethod
  {
    assert Enabled(cfg, ss[i - 1], es[i - 1]) && ss[i] == Apply(cfg, ss[i - 1], es[i - 1]);
    if es[i - 1] == Return(c, o) && ss[i - 1].callers[c].stage.Calling? {
      k := i - 1;
    } else {
      k := HeldWasReturned(cfg, es, ss, i - 1, c, o);
    }
  }

  lemma {:induction false} WaitingWasDecided(cfg: Config, es: seq<Event>, ss: seq<System>, i: nat, c: CallerId)
    returns (m: nat)
    requires IsRun(cfg, es, ss) && i < |ss| && c in ss[i].callers && ss[i].callers[c].stage.Waiting?
    ensures m < i && es[m] == Decide(c) && c in ss[m].callers
    ensures ss[m].callers[c] == ss[i].callers[c].(stage := ss[m].callers[c].stage)
    ensures ss[m].callers[c].stage.Answered? && ss[m].callers[c].stage.granted
    ensures R.Wanted(cfg.retry, ss[m].callers[c].httpMethod, ss[m].callers[c].stage.o)
  {
    assert Enabled(cfg, ss[i - 1], es[i - 1]) && ss[i] == Apply(cfg, ss[i - 1], es[i - 1]);
    if es[i - 1] == Decide(c) {
      m := i - 1;
    } else {
      m := WaitingWasDecided(cfg, es, ss, i - 1, c);
    }
  }

  /** A retry is made for cause: the caller's last call returned, in step k, an outcome that is not
      permanent and that the configuration retries, and the caller has retries left. */
  lemma RetriedForCause(cfg: Config, es: seq<Event>, ss: seq<System>, i: nat) returns (k: nat, o: R.Outcome)
    requires IsRun(cfg, es, ss) && i < |es| && es[i].Again?
    ensures k < i && es[k] == Return(es[i].c, o) && es[i].c in ss[i].callers
    ensures !(o.err.Some? && o.err.value.Permanent?)
    ensures R.Wanted(cfg.retry, ss[i].callers[es[i].c].httpMethod, o)
    ensures ss[i].callers[es[i].c].attempt < cfg.retry.maxRetries
  {
    assert Enabled(cfg, ss[i], es[i]);
    AttemptsWithinLimit(cfg, es, ss, i);
    var m := WaitingWasDecided(cfg, es, ss, i, es[i].c);
    o := ss[m].callers[es[i].c].stage.o;
    k := HeldWasReturned(cfg, es, ss, m, es[i].c, o);
  }

  // ----- Retry amplification under concurrency -----

  /** The grants that the ratio test has decided on but that are not counted yet. */
  ghost function Undelivered(cfg: Config, s: System): nat {
    |B.Pending(cfg.budget, s.budget)|
  }

  /** The retries made and those that may follow from grants on their way. */
  ghost function Committed(cfg: Config, s: System): nat {
    s.retries + |Unspent(s)| + Undelivered(cfg, s)
  }

  /** The calls made, and those that the retries on their way would make. */
  ghost function CallsAhead(cfg: Config, s: System): nat {
    s.calls + |Unspent(s)| + Undelivered(cfg, s)
  }

  /** Each retry comes with a call of its own, so that of the k that concurrency adds to the share only
      the part above the budget counts. */
  ghost predicate Bounded(cfg: Config, s: System) {
    Committed(cfg, s) > 0 ==>
      (Committed(cfg, s) as real)
        < Budget.Share(cfg.budget.budget, CallsAhead(cfg, s)) + Budget.Share(1.0 - cfg.budget.budget, cfg.k)
  }

  lemma {:induction false} SharesAddUp(b: real, n: nat)
    ensures Budget.Share(b, n) + Budget.Share(1.0 - b, n) == n as real
  {
    if n > 0 {
      SharesAddUp(b, n - 1);
    }
  }

  lemma {:induction false} ShareNotFalling(b: real, m: nat, n: nat)
    requires b >= 0.0 && m <= n
    ensures Budget.Share(b, m) <= Budget.Share(b, n)
  {
    if m < n {
      ShareNotFalling(b, m, n - 1);
    }
  }

  /** With fewer than its share granted, p callers on their way do not break the bound. */
  lemma RoomForPending(b: real, k: nat, grants: nat, calls: nat, unspent: nat, p: nat)
    requires 0.0 < b <= 1.0 && p <= k && (grants as real) < Budget.Share(b, calls)
    ensures (grants + p) as real < Budget.Share(b, calls + unspent + p) + Budget.Share(1.0 - b, k)
  {
    RetryTheorems.ShareSplits(b, calls, p);
    ShareNotFalling(b, calls + p, calls + unspent + p);
    ShareNotFalling(1.0 - b, p, k);
    SharesAddUp(b, p);
  }

  /** A caller's load of retries: those it sees are below the share of the calls. */
  lemma LoadKeepsBounded(cfg: Config, s: System, step: B.Event)
    requires ValidConfig(cfg) && Invariant(cfg, s) && Bounded(cfg, s) && Enabled(cfg, s, InsideAllow(step))
    requires step.LoadRetries?
    requires B.Invariant(cfg.budget, cfg.k, s.budget)
    ensures Bounded(cfg, Apply(cfg, s, InsideAllow(step)))
  {
    var s' := Apply(cfg, s, InsideAllow(step));
    SetsChangeAt(s, s', step.c);
    var pc := s'.budget.callers[step.c];
    assert B.LoadedFromPast(s.budget, s.budget.callers[step.c]);
    if Budget.BelowShare(cfg.budget, pc.total, pc.retries) {
      B.PendingWithin(cfg.budget, s'.budget);
      assert s'.budget.callers.Keys == s.budget.callers.Keys;
      Budget.ShareGrows(cfg.budget.budget, pc.total, s.calls);
      RoomForPending(cfg.budget.budget, cfg.k, s.budget.granted, s.calls, |Unspent(s')|, Undelivered(cfg, s'));
    } else {
      B.PendingUnchanged(cfg.budget, s.budget, s'.budget, step.c);
    }
  }

  lemma AllowKeepsBounded(cfg: Config, s: System, step: B.Event)
    requires ValidConfig(cfg) && Invariant(cfg, s) && Bounded(cfg, s) && Enabled(cfg, s, InsideAllow(step))
    requires !step.LoadRetries?
    requires B.Invariant(cfg.budget, cfg.k, s.budget)
    ensures Bounded(cfg, Apply(cfg, s, InsideAllow(step)))
  {
    var s' := Apply(cfg, s, InsideAllow(step));
    SetsChangeAt(s, s', step.c);
    PendingChanges(cfg, s.budget, step);
  }

  /** Only the add to retries takes a caller out of those on their way. */
  lemma PendingChanges(cfg: Config, b: B.System, step: B.Event)
    requires ValidConfig(cfg) && B.Invariant(cfg.budget, cfg.k, b) && B.Enabled(cfg.k, b, step) && !step.LoadRetries?
    ensures var b' := B.Apply(cfg.budget, cfg.k, b, step);
            && |B.Pending(cfg.budget, b')| == |B.Pending(cfg.budget, b)| - (if step.AddRetry? then 1 else 0)
            && b'.granted == b.granted + (if step.AddRetry? then 1 else 0)
  {
    var b' := B.Apply(cfg.budget, cfg.k, b, step);
    if step.Decide? {
      DecideKeepsPending(cfg, b, step);
    } else if step.AddRetry? {
      assert B.Pending(cfg.budget, b') == B.Pending(cfg.budget, b) - {step.c} && step.c in B.Pending(cfg.budget, b);
    } else {
      B.PendingUnchanged(cfg.budget, b, b', step.c);
    }
  }

  lemma DecideKeepsPending(cfg: Config, b: B.System, step: B.Event)
    requires B.Invariant(cfg.budget, cfg.k, b) && B.Enabled(cfg.k, b, step) && step.Decide?
    ensures B.Pending(cfg.budget, B.Apply(cfg.budget, cfg.k, b, step)) == B.Pending(cfg.budget, b)
    ensures B.Apply(cfg.budget, cfg.k, b, step).granted == b.granted
  {
    assert B.LoadedFromPast(b, b.callers[step.c]);
  }

  lemma StepKeepsBounded(cfg: Config, s: System, e: Event)
    requires ValidConfig(cfg) && Invariant(cfg, s) && Bounded(cfg, s) && Enabled(cfg, s, e)
    ensures Bounded(cfg, Apply(cfg, s, e))
  {
    if e.InsideAllow? {
      var es, ss :| B.IsRun(cfg.budget, cfg.k, es, ss) && ss[|es|] == s.budget;
      B.InvariantHolds(cfg.budget, cfg.k, es, ss, |es|);
      if e.step.LoadRetries? {
        LoadKeepsBounded(cfg, s, e.step);
      } else {
        AllowKeepsBounded(cfg, s, e.step);
      }
    } else {
      SetsChangeAt(s, Apply(cfg, s, e), e.c);
    }
  }

  lemma {:induction false} BoundedHolds(cfg: Config, es: seq<Event>, ss: seq<System>, i: nat)
    requires IsRun(cfg, es, ss) && i < |ss|
    ensures Bounded(cfg, ss[i])
  {
    if i == 0 {
      assert B.Pending(cfg.budget, B.INITIAL) == {} && Unspent(INITIAL) == {};
    } else {
      BoundedHolds(cfg, es, ss, i - 1);
      InvariantHolds(cfg, es, ss, i - 1);
      assert Enabled(cfg, ss[i - 1], es[i - 1]) && ss[i] == Apply(cfg, ss[i - 1], es[i - 1]);
      StepKeepsBounded(cfg, ss[i - 1], es[i - 1]);
    }
  }

  /** R retries of Q requests, by k callers with budget b. */
  predicate Amplification(b: real, k: nat, q: nat, r: nat) {
    r as real * (1.0 - b) < b * q as real + (1.0 - b) * k as real
  }

  lemma DropAhead(b: real, k: nat, n: nat, r: nat, ahead: nat)
    requires 0.0 < b <= 1.0
    requires (r + ahead) as real < Budget.Share(b, n + ahead) + Budget.Share(1.0 - b, k)
    ensures (r as real) < Budget.Share(b, n) + Budget.Share(1.0 - b, k)
  {
    RetryTheorems.ShareSplits(b, n, ahead);
    SharesAddUp(b, ahead);
    ShareNotFalling(1.0 - b, 0, ahead);
  }

  lemma SolveForRetries(b: real, k: nat, q: nat, r: nat)
    requires (r as real) < Budget.Share(b, q + r) + Budget.Share(1.0 - b, k)
    ensures Amplification(b, k, q, r)
  {
    RetryTheorems.ShareSplits(b, q, r);
    Budget.ShareIsProduct(b, q);
    Budget.ShareIsProduct(1.0 - b, k);
    LessShare(b, r);
  }

  lemma LessShare(b: real, r: nat)
    ensures r as real * (1.0 - b) == r as real - Budget.Share(b, r)
  {
    SharesAddUp(b, r);
    Budget.ShareIsProduct(1.0 - b, r);
  }

  /** Retry amplification with k callers at once: in one budget window Q requests make R > 0 retries
      only with R * (1 - b) < b * Q + (1 - b) * k, so R < b * Q / (1 - b) + k, for any backend, any
      MaxRetries and any interleaving. */
  lemma ConcurrentAmplification(cfg: Config, es: seq<Event>, ss: seq<System>, i: nat)
    requires IsRun(cfg, es, ss) && i < |ss|
    ensures ss[i].calls == ss[i].requests + ss[i].retries
    ensures ss[i].retries > 0 ==> Amplification(cfg.budget.budget, cfg.k, ss[i].requests, ss[i].retries)
    ensures ss[i].retries as real * (1.0 - cfg.budget.budget)
              < cfg.budget.budget * ss[i].requests as real + cfg.k as real
  {
    InvariantHolds(cfg, es, ss, i);
    BoundedHolds(cfg, es, ss, i);
    var s, b := ss[i], cfg.budget.budget;
    if s.retries > 0 {
      DropAhead(b, cfg.k, s.calls, s.retries, |Unspent(s)| + Undelivered(cfg, s));
      SolveForRetries(b, cfg.k, s.requests, s.retries);
    }
    WeakerForm(b, cfg.k, s.requests, s.retries);
  }

  lemma WeakerForm(b: real, k: nat, q: nat, r: nat)
    requires 0.0 < b <= 1.0 && k >= 1 && (r > 0 ==> Amplification(b, k, q, r))
    ensures r as real * (1.0 - b) < b * q as real + k as real
  {
    Budget.ShareIsProduct(b, q);
    ShareNotFalling(b, 0, q);
    LessShare(b, k);
    ShareNotFalling(b, 0, k);
  }
}
