/**
 Any number of callers of one circuit breaker, interleaved between critical sections.

 A run is a sequence of states linked by events; an event is one critical section of one
 caller, at a clock reading that never goes back.  `admitted`, `outcomes` and `history` are
 records the program does not keep: they log what happened, for the theorems to speak about.
 */
module CircuitProtocol {
  import opened Arithmetic
  import opened Circuit

  type CallerId = nat

  /** Where a caller of Execute stands between two critical sections. */
  datatype Pc =
    | SawOpen                      // released the read lock, wants the write lock
    | SawHalfOpen(seen: nat)       // likewise, remembering the generation it read
    | Calling(token: nat)          // admitted; the backend has not been reported on

  datatype Outcome = Outcome(token: nat, trip: bool)

  datatype System = System(
    core: Core,
    clock: int,
    callers: map<CallerId, Pc>,
    admitted: seq<int>,            // the time of each admission
    outcomes: seq<Outcome>,        // each reported outcome, in the order of the reports
    history: seq<State>)           // history[g] is the state of generation g

  datatype Event =
    | Enter(c: CallerId, now: int)
    | LockAfterOpen(c: CallerId, now: int)
    | LockAfterHalfOpen(c: CallerId, now: int)
    | Report(c: CallerId, trip: bool, now: int)

  function Initial(clock: int): System {
    System(INITIAL, clock, map[], [], [], [Closed])
  }

  predicate Enabled(s: System, e: Event) {
    && e.now >= s.clock
    && match e
       case Enter(c, _) => c !in s.callers
       case LockAfterOpen(c, _) => c in s.callers && s.callers[c].SawOpen?
       case LockAfterHalfOpen(c, _) => c in s.callers && s.callers[c].SawHalfOpen?
       case Report(c, _, _) => c in s.callers && s.callers[c].Calling?
  }

  /** The history grows by one state whenever the generation does. */
  function Note(history: seq<State>, before: Core, after: Core): seq<State> {
    if before.generation == after.generation then history else history + [after.state]
  }

  function Settle(s: System, c: CallerId, v: Verdict, now: int): System {
    var history := Note(s.history, s.core, v.core);
    if v.allowed then
      System(v.core, now, s.callers[c := Calling(v.generation)], s.admitted + [now], s.outcomes, history)
    else
      System(v.core, now, s.callers - {c}, s.admitted, s.outcomes, history)
  }

  function Apply(cfg: Config, s: System, e: Event): System
    requires Enabled(s, e)
  {
    match e
    case Enter(c, now) => (
      match ReadSection(cfg, s.core, now)
      case Admit(g) => Settle(s, c, Verdict(s.core, true, g), now)
      case Reject => s.(clock := now)
      case UpgradeFromOpen => s.(clock := now, callers := s.callers[c := SawOpen])
      case UpgradeFromHalfOpen(g) => s.(clock := now, callers := s.callers[c := SawHalfOpen(g)]))
    case LockAfterOpen(c, now) =>
      Settle(s, c, LockFromOpen(cfg, s.core, now), now)
    case LockAfterHalfOpen(c, now) =>
      Settle(s, c, LockFromHalfOpen(s.core, s.callers[c].seen), now)
    case Report(c, trip, now) =>
      var token := s.callers[c].token;
      var core := Resolve(cfg, s.core, token, trip, now);
      System(core, now, s.callers - {c}, s.admitted,
             s.outcomes + [Outcome(token, trip)], Note(s.history, s.core, core))
  }

  ghost predicate IsRun(cfg: Config, es: seq<Event>, ss: seq<System>) {
    && ValidConfig(cfg)
    && |ss| == |es| + 1
    && ss[0] == Initial(ss[0].clock)
    && forall i {:trigger es[i]} :: 0 <= i < |es| ==> Enabled(ss[i], es[i]) && ss[i + 1] == Apply(cfg, ss[i], es[i])
  }

  /** A sequence of steps from any state. */
  ghost predicate IsPath(cfg: Config, es: seq<Event>, ss: seq<System>) {
    && |ss| == |es| + 1
    && forall i {:trigger es[i]} :: 0 <= i < |es| ==>
         Enabled(ss[i], es[i]) && ss[i + 1] == Apply(cfg, ss[i], es[i])
  }

  /** What an uninterrupted call leaves behind. */
  ghost predicate CallMade(cfg: Config, s: System, c: CallerId, trip: bool, at: CallTimes, s': System) {
    var (core, called) := ExecuteAlone(cfg, s.core, trip, at);
    && s'.core == core && s'.callers == s.callers
    && |s'.admitted| == |s.admitted| + (if called then 1 else 0)
    && (if called then exists token :: s'.outcomes == s.outcomes + [Outcome(token, trip)]
        else s'.outcomes == s.outcomes)
  }

  /** What an uninterrupted allowRequest leaves behind. */
  ghost predicate Asked(cfg: Config, s: System, c: CallerId, at: CallTimes, s': System) {
    var v := AllowRequest(cfg, s.core, at);
    && s'.core == v.core && s'.clock <= at.lock && s'.outcomes == s.outcomes
    && s'.callers == (if v.allowed then s.callers[c := Calling(v.generation)] else s.callers)
    && |s'.admitted| == |s.admitted| + if v.allowed then 1 else 0
  }

  lemma SecondSection(cfg: Config, s: System, s1: System, c: CallerId, at: CallTimes) returns (e: Event)
    requires c !in s.callers && s.clock <= at.read <= at.lock && s1 == Apply(cfg, s, Enter(c, at.read))
    requires c in s1.callers && !s1.callers[c].Calling?
    ensures e.c == c && !e.Report? && Enabled(s1, e) && Asked(cfg, s, c, at, Apply(cfg, s1, e))
  {
    e := if s1.callers[c].SawOpen? then LockAfterOpen(c, at.lock) else LockAfterHalfOpen(c, at.lock);
    assert s1.callers - {c} == s.callers;
  }

  lemma AskIsAPath(cfg: Config, s: System, c: CallerId, at: CallTimes) returns (es: seq<Event>, ss: seq<System>)
    requires c !in s.callers && s.clock <= at.read <= at.lock
    ensures IsPath(cfg, es, ss) && ss[0] == s && Asked(cfg, s, c, at, ss[|es|])
    ensures forall i :: 0 <= i < |es| ==> es[i].c == c && !es[i].Report?
  {
    var s1 := Apply(cfg, s, Enter(c, at.read));
    es, ss := [Enter(c, at.read)], [s, s1];
    if c in s1.callers && !s1.callers[c].Calling? {
      var e := SecondSection(cfg, s, s1, c, at);
      es, ss := es + [e], ss + [Apply(cfg, s1, e)];
    }
  }

  lemma ReportAfterAsk(cfg: Config, s: System, s2: System, c: CallerId, trip: bool, at: CallTimes)
    requires c !in s.callers && at.lock <= at.report && Asked(cfg, s, c, at, s2)
    requires AllowRequest(cfg, s.core, at).allowed
    ensures Enabled(s2, Report(c, trip, at.report))
    ensures CallMade(cfg, s, c, trip, at, Apply(cfg, s2, Report(c, trip, at.report)))
  {
    var s3 := Apply(cfg, s2, Report(c, trip, at.report));
    assert s3.outcomes == s.outcomes + [Outcome(s2.callers[c].token, trip)];
    assert s3.callers == s.callers;
  }

  /** One uninterrupted Execute is a path of this system: its sections are the steps of one caller. */
  lemma ExecuteIsAPath(cfg: Config, s: System, c: CallerId, trip: bool, at: CallTimes)
    returns (es: seq<Event>, ss: seq<System>)
    requires c !in s.callers && s.clock <= at.read <= at.lock <= at.report
    ensures IsPath(cfg, es, ss) && ss[0] == s && CallMade(cfg, s, c, trip, at, ss[|es|])
    ensures forall i :: 0 <= i < |es| ==> es[i].c == c && (es[i].Report? ==> es[i].trip == trip)
  {
    es, ss := AskIsAPath(cfg, s, c, at);
    if AllowRequest(cfg, s.core, at).allowed {
      var s2, e := ss[|es|], Report(c, trip, at.report);
      ReportAfterAsk(cfg, s, s2, c, trip, at);
      es, ss := es + [e], ss + [Apply(cfg, s2, e)];
    }
  }

  // ----- The invariant -----

  predicate Edge(from: State, to: State) {
    || (from == Closed && to == Open)
    || (from == Open && to == HalfOpen)
    || (from == HalfOpen && to != HalfOpen)
  }

  /** The history is a walk from closed along the edges of the state machine, ending in the
      present state, with one entry for each generation. */
  ghost predicate HistoryIsWalk(s: System) {
    && |s.history| == s.core.generation + 1
    && s.history[0] == Closed
    && s.history[s.core.generation] == s.core.state
    && forall g :: 0 < g < |s.history| ==> Edge(s.history[g - 1], s.history[g])
  }

  predicate NamesEpoch(history: seq<State>, pc: Pc) {
    match pc
    case SawOpen => true
    case SawHalfOpen(g) => g < |history| && history[g] == HalfOpen
    case Calling(g) => g < |history| && history[g] != Open
  }

  /** Every token names an epoch that admitted calls: never an open one. */
  ghost predicate TokensNameEpochs(s: System) {
    forall c :: c in s.callers ==> NamesEpoch(s.history, s.callers[c])
  }

  predicate PermitsConserved(cfg: Config, c: Core) {
    if c.state.HalfOpen? then c.permits + c.inFlight == cfg.halfOpenMaxReqs
    else c.permits == 0 && c.inFlight == 0
  }

  /** The unresolved calls that bear the present generation. */
  ghost function Live(s: System): set<CallerId> {
    set c | c in s.callers && s.callers[c] == Calling(s.core.generation)
  }

  /** In half-open some call that can still end the epoch is under way, and no more such
      calls than inFlight says. */
  ghost predicate ProbesCounted(s: System) {
    s.core.state.HalfOpen? ==> 1 <= |Live(s)| <= s.core.inFlight
  }

  /** The length of the run of tripping outcomes of generation g that ends the log. */
  function TrailingTrips(log: seq<Outcome>, g: nat): nat {
    if log == [] then 0
    else
      var last := log[|log| - 1];
      if last.token != g then TrailingTrips(log[..|log| - 1], g)
      else if last.trip then TrailingTrips(log[..|log| - 1], g) + 1
      else 0
  }

  ghost predicate FailuresAreTrailingTrips(cfg: Config, s: System) {
    && (forall k :: 0 <= k < |s.outcomes| ==> s.outcomes[k].token <= s.core.generation)
    && if s.core.state.Closed? then
         s.core.failures == TrailingTrips(s.outcomes, s.core.generation) < cfg.failureThreshold
       else
         s.core.failures == cfg.failureThreshold
  }

  ghost predicate Invariant(cfg: Config, s: System) {
    && HistoryIsWalk(s)
    && TokensNameEpochs(s)
    && PermitsConserved(cfg, s.core)
    && ProbesCounted(s)
    && FailuresAreTrailingTrips(cfg, s)
    && (s.core.state.Open? ==> s.core.openedAt <= s.clock)
  }

  lemma {:induction false} NoTripsOfLaterGenerations(log: seq<Outcome>, g: nat)
    requires forall k :: 0 <= k < |log| ==> log[k].token < g
    ensures TrailingTrips(log, g) == 0
  {
    if log != [] {
      NoTripsOfLaterGenerations(log[..|log| - 1], g);
    }
  }

  lemma AppendedTrip(log: seq<Outcome>, o: Outcome, g: nat)
    ensures TrailingTrips(log + [o], g) ==
            if o.token != g then TrailingTrips(log, g) else if o.trip then TrailingTrips(log, g) + 1 else 0
  {
    assert (log + [o])[..|log|] == log;
  }

  /** One more caller with the token `g`. */
  lemma LiveAfterAdmission(s: System, s': System, c: CallerId, g: nat)
    requires c in s.callers ==> !s.callers[c].Calling?
    requires s'.callers == s.callers[c := Calling(g)] && s'.core.generation == s.core.generation
    ensures |Live(s')| == |Live(s)| + if g == s.core.generation then 1 else 0
    ensures |Live(s)| <= |Live(s')|
  {
    if g == s.core.generation {
      assert Live(s') == Live(s) + {c} && c !in Live(s);
    } else {
      assert Live(s') == Live(s);
    }
  }

  lemma LiveUnchanged(s: System, s': System, c: CallerId)
    requires s'.core.generation == s.core.generation
    requires forall d :: d != c ==>
               (d in s.callers <==> d in s'.callers) && (d in s.callers ==> s'.callers[d] == s.callers[d])
    requires c in s.callers ==> s.callers[c] != Calling(s.core.generation)
    requires c in s'.callers ==> s'.callers[c] != Calling(s.core.generation)
    ensures Live(s') == Live(s)
  {
  }

  lemma EnterKeepsInvariant(cfg: Config, s: System, e: Event)
    requires ValidConfig(cfg) && Invariant(cfg, s) && Enabled(s, e) && e.Enter?
    ensures Invariant(cfg, Apply(cfg, s, e))
  {
    var s' := Apply(cfg, s, e);
    match ReadSection(cfg, s.core, e.now)
    case Admit(g) =>
      LiveAfterAdmission(s, s', e.c, g);
    case _ =>
      LiveUnchanged(s, s', e.c);
  }

  lemma LockAfterOpenKeepsInvariant(cfg: Config, s: System, e: Event)
    requires ValidConfig(cfg) && Invariant(cfg, s) && Enabled(s, e) && e.LockAfterOpen?
    ensures Invariant(cfg, Apply(cfg, s, e))
  {
    var s' := Apply(cfg, s, e);
    var v := LockFromOpen(cfg, s.core, e.now);
    if v.core.generation != s.core.generation {
      assert Live(s') == {e.c};
    } else if v.allowed {
      LiveAfterAdmission(s, s', e.c, v.generation);
    } else {
      LiveUnchanged(s, s', e.c);
    }
  }

  lemma LockAfterHalfOpenKeepsInvariant(cfg: Config, s: System, e: Event)
    requires ValidConfig(cfg) && Invariant(cfg, s) && Enabled(s, e) && e.LockAfterHalfOpen?
    ensures Invariant(cfg, Apply(cfg, s, e))
  {
    var s' := Apply(cfg, s, e);
    var v := LockFromHalfOpen(s.core, s.callers[e.c].seen);
    if v.allowed {
      LiveAfterAdmission(s, s', e.c, v.generation);
    } else {
      LiveUnchanged(s, s', e.c);
    }
  }

  lemma ReportKeepsInvariant(cfg: Config, s: System, e: Event)
    requires ValidConfig(cfg) && Invariant(cfg, s) && Enabled(s, e) && e.Report?
    ensures Invariant(cfg, Apply(cfg, s, e))
  {
    var s' := Apply(cfg, s, e);
    var token := s.callers[e.c].token;
    assert NamesEpoch(s.history, s.callers[e.c]);
    AppendedTrip(s.outcomes, Outcome(token, e.trip), s.core.generation);
    if s'.core.generation != s.core.generation {
      NoTripsOfLaterGenerations(s'.outcomes, s'.core.generation);
    } else if token != s.core.generation {
      LiveUnchanged(s, s', e.c);
    }
  }

  lemma {:induction false} InvariantHolds(cfg: Config, es: seq<Event>, ss: seq<System>, i: nat)
    requires IsRun(cfg, es, ss) && i < |ss|
    ensures Invariant(cfg, ss[i])
  {
    if i > 0 {
      InvariantHolds(cfg, es, ss, i - 1);
      var s, e := ss[i - 1], es[i - 1];
      assert Enabled(s, e) && ss[i] == Apply(cfg, s, e);
      match e
      case Enter(_, _) => EnterKeepsInvariant(cfg, s, e);
      case LockAfterOpen(_, _) => LockAfterOpenKeepsInvariant(cfg, s, e);
      case LockAfterHalfOpen(_, _) => LockAfterHalfOpenKeepsInvariant(cfg, s, e);
      case Report(_, _, _) => ReportKeepsInvariant(cfg, s, e);
    }
  }

  lemma RunStep(cfg: Config, es: seq<Event>, ss: seq<System>, i: nat)
    requires IsRun(cfg, es, ss) && i < |es|
    ensures Invariant(cfg, ss[i]) && Enabled(ss[i], es[i]) && ss[i + 1] == Apply(cfg, ss[i], es[i])
  {
    InvariantHolds(cfg, es, ss, i);
  }

  // ----- Theorems about every run -----

  /** Epoch isolation.  A step either keeps the state and the generation or follows one edge of
      the state machine and adds one to the generation; an outcome of an earlier generation
      changes none of the breaker's fields. */
  lemma EpochIsolation(cfg: Config, es: seq<Event>, ss: seq<System>, i: nat)
    requires IsRun(cfg, es, ss) && i < |es|
    ensures HistoryIsWalk(ss[i]) && TokensNameEpochs(ss[i])
    ensures var c, c' := ss[i].core, ss[i + 1].core;
            if c'.state == c.state then c'.generation == c.generation && c'.openedAt == c.openedAt
            else c'.generation == c.generation + 1 && Edge(c.state, c'.state)
    ensures ss[i].history <= ss[i + 1].history
    ensures es[i].Report? && ss[i].callers[es[i].c].token != ss[i].core.generation ==>
              ss[i].callers[es[i].c].token < ss[i].core.generation && ss[i + 1].core == ss[i].core
  {
    RunStep(cfg, es, ss, i);
    if es[i].Report? {
      assert NamesEpoch(ss[i].history, ss[i].callers[es[i].c]);
    }
  }

  lemma ClockIsLastReading(cfg: Config, es: seq<Event>, ss: seq<System>, i: nat)
    requires IsRun(cfg, es, ss) && i < |es|
    ensures ss[i].clock <= es[i].now == ss[i + 1].clock
  {
    RunStep(cfg, es, ss, i);
  }

  /** Permit conservation across the lock upgrade, and its consequence: a caller that took the
      write lock after it saw an open state is admitted only into a half-open epoch. */
  lemma PermitConservation(cfg: Config, es: seq<Event>, ss: seq<System>, i: nat)
    requires IsRun(cfg, es, ss) && i < |ss|
    ensures PermitsConserved(cfg, ss[i].core)
    ensures ss[i].core.state.HalfOpen? ==> |Live(ss[i])| <= ss[i].core.inFlight
    ensures i < |es| && es[i].LockAfterOpen? && |ss[i + 1].admitted| > |ss[i].admitted| ==>
              ss[i + 1].core.state.HalfOpen? && ss[i + 1].callers[es[i].c] == Calling(ss[i + 1].core.generation)
  {
    InvariantHolds(cfg, es, ss, i);
    if i < |es| {
      assert Enabled(ss[i], es[i]) && ss[i + 1] == Apply(cfg, ss[i], es[i]);
    }
  }

  /** Whatever the outcome of this call is, reporting it ends the half-open epoch. */
  ghost predicate EndsEpoch(cfg: Config, s: System, c: CallerId) {
    && c in s.callers && s.callers[c].Calling?
    && forall trip, now | now >= s.clock ::
         Apply(cfg, s, Report(c, trip, now)).core.state == if trip then Open else Closed
  }

  /** A half-open breaker is never stranded: some call under way will end the epoch, even when
      stale tokens hold the other permits. */
  lemma HalfOpenCanEnd(cfg: Config, es: seq<Event>, ss: seq<System>, i: nat)
    requires IsRun(cfg, es, ss) && i < |ss| && ss[i].core.state.HalfOpen?
    ensures exists c :: EndsEpoch(cfg, ss[i], c)
  {
    InvariantHolds(cfg, es, ss, i);
    assert Live(ss[i]) != {};
    var c :| c in Live(ss[i]);
    assert EndsEpoch(cfg, ss[i], c);
  }

  /** Consecutive-failure semantics: while closed the counter is the trailing run of tripping
      outcomes of the present epoch, otherwise it stays at the threshold; a report opens a closed
      breaker exactly when it makes that run as long as the threshold. */
  lemma OpensExactlyAtThreshold(cfg: Config, es: seq<Event>, ss: seq<System>, i: nat)
    requires IsRun(cfg, es, ss) && i < |es|
    ensures FailuresAreTrailingTrips(cfg, ss[i])
    ensures ss[i].core.state.Closed? ==>
              (ss[i + 1].core.state.Open? <==>
               TrailingTrips(ss[i + 1].outcomes, ss[i].core.generation) == cfg.failureThreshold)
  {
    RunStep(cfg, es, ss, i);
    var s, e := ss[i], es[i];
    if e.Report? {
      AppendedTrip(s.outcomes, Outcome(s.callers[e.c].token, e.trip), s.core.generation);
    }
  }

  /** After the breaker was open at `t0`, with `k` half-open epochs begun since and `base`
      admissions before: each epoch admits at most the configured number, and the k-th began
      no sooner than k open durations later. */
  ghost predicate Paced(cfg: Config, s: System, t0: int, base: nat, k: nat) {
    match s.core.state
    case Closed => false
    case Open =>
      && s.core.openedAt >= t0 + Times(k, cfg.openDuration)
      && |s.admitted| - base <= Times(k, cfg.halfOpenMaxReqs)
    case HalfOpen =>
      && s.clock >= t0 + Times(k, cfg.openDuration)
      && |s.admitted| - base + s.core.permits <= Times(k, cfg.halfOpenMaxReqs)
  }

  lemma PacedStep(cfg: Config, s: System, e: Event, s': System, t0: int, base: nat, k: nat) returns (k': nat)
    requires ValidConfig(cfg) && Invariant(cfg, s) && Enabled(s, e) && s' == Apply(cfg, s, e)
    requires Paced(cfg, s, t0, base, k) && !s'.core.state.Closed?
    ensures Paced(cfg, s', t0, base, k')
  {
    k' := if s.core.state.Open? && s'.core.state.HalfOpen? then k + 1 else k;
  }

  lemma {:induction false} PacedAlongRun(cfg: Config, es: seq<Event>, ss: seq<System>, i: nat, j: nat) returns (k: nat)
    requires IsRun(cfg, es, ss) && i <= j < |ss| && ss[i].core.state.Open?
    requires forall m :: i <= m <= j ==> !ss[m].core.state.Closed?
    ensures Paced(cfg, ss[j], ss[i].core.openedAt, |ss[i].admitted|, k)
    decreases j
  {
    if i == j {
      k := 0;
    } else {
      k := PacedAlongRun(cfg, es, ss, i, j - 1);
      RunStep(cfg, es, ss, j - 1);
      k := PacedStep(cfg, ss[j - 1], es[j - 1], ss[j], ss[i].core.openedAt, |ss[i].admitted|, k);
    }
  }

  /** The admission rate of a broken backend: from any moment the breaker is open, opened at t0,
      until a probe closes it, the calls admitted up to time t are at most HalfOpenMaxReqs for
      each whole OpenDuration since t0, however the callers interleave. */
  lemma AdmissionRateBound(cfg: Config, es: seq<Event>, ss: seq<System>, i: nat, j: nat, t: int)
    requires IsRun(cfg, es, ss) && i <= j < |ss| && ss[i].core.state.Open? && cfg.openDuration > 0
    requires forall m :: i <= m <= j ==> !ss[m].core.state.Closed?
    requires t >= ss[j].clock
    ensures t >= ss[i].core.openedAt
    ensures |ss[j].admitted| - |ss[i].admitted| <= cfg.halfOpenMaxReqs * ((t - ss[i].core.openedAt) / cfg.openDuration)
  {
    var k := PacedAlongRun(cfg, es, ss, i, j);
    InvariantHolds(cfg, es, ss, j);
    WholePeriods(k, cfg.openDuration, cfg.halfOpenMaxReqs, t - ss[i].core.openedAt);
  }

  ghost predicate Reachable(cfg: Config, s: System) {
    exists es, ss :: IsRun(cfg, es, ss) && ss[|es|] == s
  }

  lemma ReachableStep(cfg: Config, s: System, e: Event, s': System)
    requires Reachable(cfg, s) && Enabled(s, e) && s' == Apply(cfg, s, e)
    ensures Reachable(cfg, s')
  {
    var es, ss :| IsRun(cfg, es, ss) && ss[|es|] == s;
    assert IsRun(cfg, es + [e], ss + [s']);
    assert (ss + [s'])[|es + [e]|] == s';
  }

  // ----- What inFlight counts -----

  /** This step admits a caller into a half-open epoch on the token of an earlier one: the section
      after half-open tests the state again, but not the generation. */
  predicate AdmitsStale(s: System, e: Event) {
    && e.LockAfterHalfOpen? && e.c in s.callers && s.callers[e.c].SawHalfOpen?
    && s.core.state.HalfOpen? && s.core.permits > 0
    && s.callers[e.c].seen != s.core.generation
  }

  /** How many of the first i steps did so in the epoch g. */
  function StaleAdmissions(es: seq<Event>, ss: seq<System>, i: nat, g: nat): nat
    requires i <= |es| && |ss| == |es| + 1
  {
    if i == 0 then 0
    else StaleAdmissions(es, ss, i - 1, g) +
         if ss[i - 1].core.generation == g && AdmitsStale(ss[i - 1], es[i - 1]) then 1 else 0
  }

  lemma {:induction false} GenerationNeverFalls(cfg: Config, es: seq<Event>, ss: seq<System>, i: nat, j: nat)
    requires IsRun(cfg, es, ss) && i <= j < |ss|
    ensures ss[i].core.generation <= ss[j].core.generation
    decreases j
  {
    if i < j {
      GenerationNeverFalls(cfg, es, ss, i, j - 1);
      EpochIsolation(cfg, es, ss, j - 1);
    }
  }

  lemma {:induction false} NoneBeforeEpoch(cfg: Config, es: seq<Event>, ss: seq<System>, i: nat, g: nat)
    requires IsRun(cfg, es, ss) && i <= |es| && ss[i].core.generation < g
    ensures StaleAdmissions(es, ss, i, g) == 0
  {
    if i > 0 {
      GenerationNeverFalls(cfg, es, ss, i - 1, i);
      NoneBeforeEpoch(cfg, es, ss, i - 1, g);
    }
  }

  /** One step inside a half-open epoch: inFlight grows with each admission, on whatever token. */
  lemma StepInHalfOpen(cfg: Config, s: System, e: Event, s': System)
    requires ValidConfig(cfg) && Invariant(cfg, s) && Enabled(s, e) && s' == Apply(cfg, s, e)
    requires s.core.state.HalfOpen? && s'.core.state.HalfOpen?
    ensures s'.core.generation == s.core.generation
    ensures s'.core.inFlight - |Live(s')| == s.core.inFlight - |Live(s)| + if AdmitsStale(s, e) then 1 else 0
  {
    if e.LockAfterHalfOpen? && s.core.permits > 0 {
      LiveAfterAdmission(s, s', e.c, s.callers[e.c].seen);
    } else if e.LockAfterOpen? && s.core.permits > 0 {
      LiveAfterAdmission(s, s', e.c, s.core.generation);
    } else {
      LiveUnchanged(s, s', e.c);
    }
  }

  /** The step that begins a half-open epoch admits its first probe. */
  lemma EpochBegins(cfg: Config, s: System, e: Event, s': System)
    requires ValidConfig(cfg) && Invariant(cfg, s) && Enabled(s, e) && s' == Apply(cfg, s, e)
    requires !s.core.state.HalfOpen? && s'.core.state.HalfOpen?
    ensures s'.core.inFlight == 1 && |Live(s')| == 1 && s'.core.generation == s.core.generation + 1
  {
    assert Live(s') == {e.c};
  }

  /** In every half-open epoch inFlight is the number of live probes and of the admissions on older
      tokens, which hold their permits for as long as the epoch lasts.  So it counts the live probes
      exactly when the epoch admitted nobody on an older token. */
  lemma {:induction false} InFlightIsLivePlusStale(cfg: Config, es: seq<Event>, ss: seq<System>, i: nat)
    requires IsRun(cfg, es, ss) && i < |ss| && ss[i].core.state.HalfOpen?
    ensures ss[i].core.inFlight == |Live(ss[i])| + StaleAdmissions(es, ss, i, ss[i].core.generation)
  {
    RunStep(cfg, es, ss, i - 1);
    if ss[i - 1].core.state.HalfOpen? {
      InFlightIsLivePlusStale(cfg, es, ss, i - 1);
      StepInHalfOpen(cfg, ss[i - 1], es[i - 1], ss[i]);
    } else {
      EpochBegins(cfg, ss[i - 1], es[i - 1], ss[i]);
      NoneBeforeEpoch(cfg, es, ss, i - 1, ss[i].core.generation);
    }
  }

  lemma {:induction false} NoStaleAdmissionsIff(es: seq<Event>, ss: seq<System>, i: nat, g: nat)
    requires i <= |es| && |ss| == |es| + 1
    ensures StaleAdmissions(es, ss, i, g) == 0 <==>
            forall k {:trigger es[k]} :: 0 <= k < i && ss[k].core.generation == g ==> !AdmitsStale(ss[k], es[k])
  {
    if i > 0 {
      NoStaleAdmissionsIff(es, ss, i - 1, g);
    }
  }

  lemma InFlightIsLiveIff(cfg: Config, es: seq<Event>, ss: seq<System>, i: nat)
    requires IsRun(cfg, es, ss) && i < |ss| && ss[i].core.state.HalfOpen?
    ensures ss[i].core.inFlight == |Live(ss[i])| <==>
            forall k {:trigger es[k]} :: 0 <= k < i && ss[k].core.generation == ss[i].core.generation ==>
              !AdmitsStale(ss[k], es[k])
  {
    InFlightIsLivePlusStale(cfg, es, ss, i);
    NoStaleAdmissionsIff(es, ss, i, ss[i].core.generation);
  }

  // ----- Which configurations let inFlight miscount -----

  /** Some run reaches a half-open state whose inFlight exceeds its live probes. */
  ghost predicate Miscounts(cfg: Config) {
    exists s | Reachable(cfg, s) :: s.core.state.HalfOpen? && |Live(s)| < s.core.inFlight
  }

  /** Caller 0 has been let through and has tripped the closed breaker n times. */
  lemma {:induction false} TripsInARow(cfg: Config, n: nat) returns (s: System)
    requires ValidConfig(cfg) && n <= cfg.failureThreshold
    ensures Reachable(cfg, s) && s.callers == map[] && s.clock == 0
    ensures s.core == if n < cfg.failureThreshold then INITIAL.(failures := n) else Core(Open, 0, 0, 0, n, 1)
  {
    if n == 0 {
      s := Initial(0);
      assert IsRun(cfg, [], [s]);
    } else {
      var s0 := TripsInARow(cfg, n - 1);
      var s1 := Apply(cfg, s0, Enter(0, 0));
      ReachableStep(cfg, s0, Enter(0, 0), s1);
      s := Apply(cfg, s1, Report(0, true, 0));
      ReachableStep(cfg, s1, Report(0, true, 0), s);
      assert s.callers == map[];
    }
  }

  /** Caller c finds the open duration over and becomes the first probe of a new epoch. */
  lemma FirstProbe(cfg: Config, s: System, c: CallerId, now: int) returns (s': System)
    requires ValidConfig(cfg) && Reachable(cfg, s) && s.core.state.Open? && c !in s.callers
    requires now >= s.clock && now - s.core.openedAt >= cfg.openDuration
    ensures Reachable(cfg, s') && s'.clock == now && s'.callers == s.callers[c := Calling(s'.core.generation)]
    ensures s'.core == s.core.(state := HalfOpen, permits := cfg.halfOpenMaxReqs - 1, inFlight := 1,
                               generation := s.core.generation + 1)
  {
    var s1 := Apply(cfg, s, Enter(c, now));
    ReachableStep(cfg, s, Enter(c, now), s1);
    s' := Apply(cfg, s1, LockAfterOpen(c, now));
    ReachableStep(cfg, s1, LockAfterOpen(c, now), s');
    assert s'.callers == s.callers[c := Calling(s'.core.generation)];
  }

  /** Caller 2 has read the generation of a half-open epoch that is over. */
  lemma SlowReader(cfg: Config) returns (s: System)
    requires ValidConfig(cfg) && cfg.halfOpenMaxReqs >= 2
    ensures Reachable(cfg, s) && s.callers == map[2 := SawHalfOpen(2)]
    ensures s.core.state.Open? && s.core.generation == 3 && s.core.openedAt == s.clock
  {
    var s0 := TripsInARow(cfg, cfg.failureThreshold);
    var now := if cfg.openDuration > 0 then cfg.openDuration else 0;
    var s1 := FirstProbe(cfg, s0, 1, now);
    var s2 := Apply(cfg, s1, Enter(2, now));
    ReachableStep(cfg, s1, Enter(2, now), s2);
    s := Apply(cfg, s2, Report(1, true, now));
    ReachableStep(cfg, s2, Report(1, true, now), s);
    assert s.callers == map[2 := SawHalfOpen(2)];
  }

  lemma StaleTokenCanHoldPermit(cfg: Config)
    requires ValidConfig(cfg) && cfg.halfOpenMaxReqs >= 2
    ensures Miscounts(cfg)
  {
    var s0 := SlowReader(cfg);
    var now := if cfg.openDuration > 0 then s0.clock + cfg.openDuration else s0.clock;
    var s1 := FirstProbe(cfg, s0, 3, now);
    var s2 := Apply(cfg, s1, LockAfterHalfOpen(2, now));
    ReachableStep(cfg, s1, LockAfterHalfOpen(2, now), s2);
    assert s2.callers == map[2 := Calling(2), 3 := Calling(4)];
    assert Live(s2) == {3};
  }

  /** The counter can exceed the live probes under exactly those configurations that admit more than
      one probe: a second permit can go to a caller that read the generation of an earlier epoch. */
  lemma MiscountsIffSeveralPermits(cfg: Config)
    requires ValidConfig(cfg)
    ensures Miscounts(cfg) <==> cfg.halfOpenMaxReqs >= 2
  {
    if Miscounts(cfg) {
      var s :| Reachable(cfg, s) && s.core.state.HalfOpen? && |Live(s)| < s.core.inFlight;
      var es, ss :| IsRun(cfg, es, ss) && ss[|es|] == s;
      InvariantHolds(cfg, es, ss, |es|);
    }
    if cfg.halfOpenMaxReqs >= 2 {
      StaleTokenCanHoldPermit(cfg);
    }
  }

  // ----- A backend that is down -----

  ghost predicate AllTrip(es: seq<Event>) {
    forall k :: 0 <= k < |es| && es[k].Report? ==> es[k].trip
  }

  ghost predicate AtMostCallers(ss: seq<System>, n: nat) {
    forall k :: 0 <= k < |ss| ==> |ss[k].callers| <= n
  }

  /** Before the first trip: every admission has been reported, and counted as a failure, or its
      caller is still in the call. */
  ghost predicate BeforeFirstTrip(s: System) {
    && s.core.state.Closed? && s.core.generation == 0
    && |s.admitted| == s.core.failures + |s.callers|
    && forall c :: c in s.callers ==> s.callers[c] == Calling(0)
  }

  lemma CallerCount(m: map<CallerId, Pc>, c: CallerId, pc: Pc)
    ensures c !in m ==> |m[c := pc]| == |m| + 1
    ensures c in m ==> |m - {c}| == |m| - 1
  {
    if c in m {
      assert (m - {c}).Keys == m.Keys - {c};
    } else {
      assert m[c := pc].Keys == m.Keys + {c};
    }
  }

  lemma DownEnter(cfg: Config, s: System, e: Event)
    requires ValidConfig(cfg) && BeforeFirstTrip(s) && Enabled(s, e) && e.Enter?
    ensures BeforeFirstTrip(Apply(cfg, s, e))
  {
    CallerCount(s.callers, e.c, Calling(0));
  }

  lemma DownReport(cfg: Config, s: System, e: Event, n: nat)
    requires ValidConfig(cfg) && BeforeFirstTrip(s) && Enabled(s, e) && e.Report? && e.trip
    requires s.core.failures < cfg.failureThreshold && |s.callers| <= n
    ensures var s' := Apply(cfg, s, e);
            if s'.core.state.Closed? then BeforeFirstTrip(s')
            else s'.core.state.Open? && |s'.admitted| <= cfg.failureThreshold + n - 1
  {
    CallerCount(s.callers, e.c, Calling(0));
  }

  lemma DownStep(cfg: Config, s: System, e: Event, s': System, n: nat)
    requires ValidConfig(cfg) && Invariant(cfg, s) && BeforeFirstTrip(s)
    requires Enabled(s, e) && s' == Apply(cfg, s, e) && (e.Report? ==> e.trip)
    requires |s.callers| <= n
    ensures if s'.core.state.Closed? then BeforeFirstTrip(s')
            else s'.core.state.Open? && |s'.admitted| <= cfg.failureThreshold + n - 1
  {
    if e.Enter? {
      DownEnter(cfg, s, e);
    } else {
      DownReport(cfg, s, e, n);
    }
  }

  /** While every outcome trips, a breaker that has left closed never closes again. */
  lemma {:induction false} StaysTripped(cfg: Config, es: seq<Event>, ss: seq<System>, i: nat, j: nat)
    requires IsRun(cfg, es, ss) && AllTrip(es) && i <= j < |ss| && !ss[i].core.state.Closed?
    ensures !ss[j].core.state.Closed?
    decreases j
  {
    if i < j {
      StaysTripped(cfg, es, ss, i, j - 1);
      RunStep(cfg, es, ss, j - 1);
    }
  }

  /** The breaker left closed for the first time in step i - 1. */
  ghost predicate FirstTripAt(ss: seq<System>, i: nat) {
    i < |ss| && ss[i].core.state.Open? && forall k :: 0 <= k < i ==> ss[k].core.state.Closed?
  }

  lemma DownRunStep(cfg: Config, es: seq<Event>, ss: seq<System>, n: nat, i: nat)
    requires IsRun(cfg, es, ss) && AllTrip(es) && AtMostCallers(ss, n) && i < |es| && BeforeFirstTrip(ss[i])
    ensures if ss[i + 1].core.state.Closed? then BeforeFirstTrip(ss[i + 1])
            else ss[i + 1].core.state.Open? && |ss[i + 1].admitted| <= cfg.failureThreshold + n - 1
  {
    RunStep(cfg, es, ss, i);
    DownStep(cfg, ss[i], es[i], ss[i + 1], n);
  }

  lemma {:induction false} ClosedUntil(cfg: Config, es: seq<Event>, ss: seq<System>, n: nat, j: nat)
    requires IsRun(cfg, es, ss) && AllTrip(es) && AtMostCallers(ss, n) && j < |ss|
    requires forall k :: 0 <= k <= j ==> ss[k].core.state.Closed?
    ensures BeforeFirstTrip(ss[j])
  {
    if j > 0 {
      ClosedUntil(cfg, es, ss, n, j - 1);
      DownRunStep(cfg, es, ss, n, j - 1);
    }
  }

  lemma ClosedBefore(cfg: Config, es: seq<Event>, ss: seq<System>, j: nat)
    requires IsRun(cfg, es, ss) && AllTrip(es) && j < |ss| && ss[j].core.state.Closed?
    ensures forall k :: 0 <= k <= j ==> ss[k].core.state.Closed?
  {
    forall k | 0 <= k <= j
      ensures ss[k].core.state.Closed?
    {
      if !ss[k].core.state.Closed? {
        StaysTripped(cfg, es, ss, k, j);
      }
    }
  }

  lemma {:induction false} FirstTrip(cfg: Config, es: seq<Event>, ss: seq<System>, n: nat, j: nat) returns (i: nat)
    requires IsRun(cfg, es, ss) && AllTrip(es) && AtMostCallers(ss, n) && j < |ss| && !ss[j].core.state.Closed?
    ensures i <= j && FirstTripAt(ss, i) && |ss[i].admitted| <= cfg.failureThreshold + n - 1
  {
    if ss[j - 1].core.state.Closed? {
      i := j;
      ClosedBefore(cfg, es, ss, j - 1);
      ClosedUntil(cfg, es, ss, n, j - 1);
      DownRunStep(cfg, es, ss, n, j - 1);
    } else {
      i := FirstTrip(cfg, es, ss, n, j - 1);
    }
  }

  /** An outage under concurrency: with at most n callers inside Execute and a backend whose every
      outcome trips, at most FailureThreshold + n - 1 calls reach the backend before the first trip
      at t0, and by time t at most HalfOpenMaxReqs more for each whole OpenDuration since. */
  lemma OutageAdmissions(cfg: Config, es: seq<Event>, ss: seq<System>, n: nat, j: nat, t: int)
    requires IsRun(cfg, es, ss) && AllTrip(es) && AtMostCallers(ss, n)
    requires j < |ss| && t >= ss[j].clock && cfg.openDuration > 0
    ensures ss[j].core.state.Closed? ==> |ss[j].admitted| <= cfg.failureThreshold + n - 1
    ensures !ss[j].core.state.Closed? ==>
              exists i: nat :: i <= j && FirstTripAt(ss, i) &&
                          |ss[j].admitted| <= cfg.failureThreshold + n - 1 +
                                              cfg.halfOpenMaxReqs * ((t - ss[i].core.openedAt) / cfg.openDuration)
  {
    InvariantHolds(cfg, es, ss, j);
    if ss[j].core.state.Closed? {
      ClosedBefore(cfg, es, ss, j);
      ClosedUntil(cfg, es, ss, n, j);
    } else {
      var i := FirstTrip(cfg, es, ss, n, j);
      forall m | i <= m <= j
        ensures !ss[m].core.state.Closed?
      {
        StaysTripped(cfg, es, ss, i, m);
      }
      AdmissionRateBound(cfg, es, ss, i, j, t);
    }
  }
}
