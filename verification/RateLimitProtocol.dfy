/**
 Any number of callers of one rate limiter, its ticker, and its refill loop.  The ticker ticks at
 most once in each interval since the start: a tick may come late within its interval, and the
 intervals it misses are dropped.  A tick waits in a channel of one place; one that finds the place
 taken is lost.  The refill loop takes a tick in one step and sends the token in another, so that one
 tick may be in its hand while the next one waits.

 The counters below `callers` record what happened; the program does not keep them.
 */
module RateLimitProtocol {
  import opened Arithmetic
  import opened RateLimit

  type CallerId = nat

  /** A rate limiter's configuration, its refill interval, and the time its ticker was started. */
  datatype Setting = Setting(cfg: Config, interval: int, start: int)

  ghost predicate ValidSetting(st: Setting) {
    && st.cfg.rate > 0.0 && st.cfg.burst > 0 && st.cfg.waitTimeout >= 0
    && st.interval == Interval(st.cfg.rate)
  }

  datatype Pc =
    | Trying(deadline: int)      // at the non-blocking receive
    | Judging(deadline: int)     // found no token; about to look at the clock
    | Waiting(deadline: int)     // in the blocking select

  datatype System = System(
    tokens: nat,
    tickWaits: bool,
    inHand: bool,                // the refill loop has taken a tick and not yet sent the token
    slot: nat,                   // the interval of the last tick
    closed: bool,
    stopped: bool,               // the refill loop has returned
    clock: int,
    callers: map<CallerId, Pc>,
    entered: nat,
    admitted: nat,
    denied: nat,
    cancelled: nat,
    ticks: nat,
    accepted: nat)

  datatype Event =
    | Enter(c: CallerId, now: int)
    | TryTake(c: CallerId, now: int)
    | Judge(c: CallerId, now: int)
    | Receive(c: CallerId, now: int)
    | TimerFires(c: CallerId, now: int)
    | Cancel(c: CallerId, now: int)
    | Tick(slot: nat, now: int)
    | TakeTick(now: int)
    | Refill(now: int)
    | Close(now: int)
    | Stop(now: int)

  function Initial(st: Setting): System {
    System(st.cfg.burst, false, false, 0, false, false, st.start, map[], 0, 0, 0, 0, 0, 0)
  }

  /** The slot-th interval since the start. */
  predicate InSlot(st: Setting, slot: nat, now: int)
  {
    Times(slot, st.interval) <= now - st.start < Times(slot + 1, st.interval)
  }

  predicate Enabled(st: Setting, s: System, e: Event)
  {
    && e.now >= s.clock
    && match e
       case Enter(c, _) => c !in s.callers
       case TryTake(c, _) => c in s.callers && s.callers[c].Trying?
       case Judge(c, _) => c in s.callers && s.callers[c].Judging?
       case Receive(c, _) => c in s.callers && s.callers[c].Waiting? && s.tokens > 0
       case TimerFires(c, now) => c in s.callers && s.callers[c].Waiting? && now >= s.callers[c].deadline
       case Cancel(c, _) => c in s.callers && s.callers[c].Waiting?
       case Tick(slot, now) =>
         !s.stopped && slot > s.slot && InSlot(st, slot, now)
       case TakeTick(_) => !s.stopped && s.tickWaits && !s.inHand
       case Refill(_) => s.inHand
       case Close(_) => true
       case Stop(_) => s.closed && !s.stopped && !s.inHand
  }

  function Admit(s: System, c: CallerId, now: int): System
    requires s.tokens > 0
  {
    s.(clock := now, tokens := Take(s.tokens).0, callers := s.callers - {c}, admitted := s.admitted + 1)
  }

  function Apply(st: Setting, s: System, e: Event): System
    requires Enabled(st, s, e)
  {
    match e
    case Enter(c, now) =>
      s.(clock := now, callers := s.callers[c := Trying(Deadline(st.cfg, now))], entered := s.entered + 1)
    case TryTake(c, now) =>
      if Take(s.tokens).1 then Admit(s, c, now)
      else s.(clock := now, callers := s.callers[c := Judging(s.callers[c].deadline)])
    case Judge(c, now) =>
      if Denies(st.cfg, s.callers[c].deadline, now) then
        s.(clock := now, callers := s.callers - {c}, denied := s.denied + 1)
      else
        s.(clock := now, callers := s.callers[c := Waiting(s.callers[c].deadline)])
    case Receive(c, now) => Admit(s, c, now)
    case TimerFires(c, now) => s.(clock := now, callers := s.callers[c := Trying(s.callers[c].deadline)])
    case Cancel(c, now) => s.(clock := now, callers := s.callers - {c}, cancelled := s.cancelled + 1)
    case Tick(slot, now) => s.(clock := now, tickWaits := true, slot := slot, ticks := s.ticks + 1)
    case TakeTick(now) => s.(clock := now, tickWaits := false, inHand := true)
    case Refill(now) =>
      var (tokens, accepted) := Refilled(st.cfg, s.tokens);
      s.(clock := now, inHand := false, tokens := tokens, accepted := s.accepted + if accepted then 1 else 0)
    case Close(now) => s.(clock := now, closed := true)
    case Stop(now) => s.(clock := now, stopped := true)
  }

  ghost predicate IsRun(st: Setting, es: seq<Event>, ss: seq<System>) {
    && ValidSetting(st)
    && |ss| == |es| + 1
    && ss[0] == Initial(st)
    && forall i {:trigger es[i]} :: 0 <= i < |es| ==>
         Enabled(st, ss[i], es[i]) && ss[i + 1] == Apply(st, ss[i], es[i])
  }

  predicate CallersAccounted(s: System) {
    s.entered == |s.callers| + s.admitted + s.denied + s.cancelled
  }

  /** Every token is accounted for, and so is every caller. */
  predicate Conserved(st: Setting, s: System) {
    && s.admitted + s.tokens == st.cfg.burst + s.accepted
    && s.tokens <= st.cfg.burst
    && CallersAccounted(s)
  }

  /** The ticks that have come and have neither been used nor lost. */
  function PendingTicks(s: System): nat {
    (if s.tickWaits then 1 else 0) + (if s.inHand then 1 else 0)
  }

  predicate TicksPaced(st: Setting, s: System)
  {
    && st.start + Times(s.slot, st.interval) <= s.clock
    && s.ticks <= s.slot
    && s.accepted + PendingTicks(s) <= s.ticks
  }

  lemma MapSizes<K, V>(m: map<K, V>, k: K, v: V)
    ensures |m[k := v]| == if k in m then |m| else |m| + 1
    ensures |m - {k}| == if k in m then |m| - 1 else |m|
  {
    assert m[k := v].Keys == m.Keys + {k};
    assert (m - {k}).Keys == m.Keys - {k};
  }

  lemma StepKeepsPace(st: Setting, s: System, e: Event)
    requires Enabled(st, s, e) && TicksPaced(st, s)
    ensures TicksPaced(st, Apply(st, s, e))
  {
  }

  lemma StepConservesTokens(st: Setting, s: System, e: Event)
    requires Enabled(st, s, e) && Conserved(st, s)
    ensures var s' := Apply(st, s, e);
            s'.admitted + s'.tokens == st.cfg.burst + s'.accepted && s'.tokens <= st.cfg.burst
  {
  }

  lemma EnterAccounted(st: Setting, s: System, e: Event)
    requires Enabled(st, s, e) && CallersAccounted(s) && e.Enter?
    ensures CallersAccounted(Apply(st, s, e))
  {
    MapSizes(s.callers, e.c, Trying(Deadline(st.cfg, e.now)));
  }

  lemma TryTakeAccounted(st: Setting, s: System, e: Event)
    requires Enabled(st, s, e) && CallersAccounted(s) && e.TryTake?
    ensures CallersAccounted(Apply(st, s, e))
  {
    MapSizes(s.callers, e.c, Judging(s.callers[e.c].deadline));
  }

  lemma JudgeAccounted(st: Setting, s: System, e: Event)
    requires Enabled(st, s, e) && CallersAccounted(s) && e.Judge?
    ensures CallersAccounted(Apply(st, s, e))
  {
    MapSizes(s.callers, e.c, Waiting(s.callers[e.c].deadline));
  }

  lemma WaitAccounted(st: Setting, s: System, e: Event)
    requires Enabled(st, s, e) && CallersAccounted(s) && (e.Receive? || e.TimerFires? || e.Cancel?)
    ensures CallersAccounted(Apply(st, s, e))
  {
    MapSizes(s.callers, e.c, Trying(s.callers[e.c].deadline));
  }

  lemma StepConserves(st: Setting, s: System, e: Event)
    requires Enabled(st, s, e) && Conserved(st, s)
    ensures Conserved(st, Apply(st, s, e))
  {
    StepConservesTokens(st, s, e);
    if e.Enter? {
      EnterAccounted(st, s, e);
    } else if e.TryTake? {
      TryTakeAccounted(st, s, e);
    } else if e.Judge? {
      JudgeAccounted(st, s, e);
    } else if e.Receive? || e.TimerFires? || e.Cancel? {
      WaitAccounted(st, s, e);
    }
  }

  lemma {:induction false} InvariantHolds(st: Setting, es: seq<Event>, ss: seq<System>, i: nat)
    requires IsRun(st, es, ss) && i < |ss|
    ensures Conserved(st, ss[i]) && TicksPaced(st, ss[i])
  {
    if i > 0 {
      InvariantHolds(st, es, ss, i - 1);
      var s, e := ss[i - 1], es[i - 1];
      assert Enabled(st, s, e) && ss[i] == Apply(st, s, e);
      StepConserves(st, s, e);
      StepKeepsPace(st, s, e);
    }
  }

  /** Token conservation: what was admitted and what is left add up to the burst and the accepted
      refills; callers that were denied or gave up took nothing. */
  lemma TokenConservation(st: Setting, es: seq<Event>, ss: seq<System>, i: nat)
    requires IsRun(st, es, ss) && i < |ss|
    ensures ss[i].admitted + ss[i].tokens == st.cfg.burst + ss[i].accepted
    ensures ss[i].tokens <= st.cfg.burst
    ensures ss[i].entered == |ss[i].callers| + ss[i].admitted + ss[i].denied + ss[i].cancelled
  {
    InvariantHolds(st, es, ss, i);
  }

  /** The rate bound: by time t at most Burst + floor((t - start) / interval) calls were admitted. */
  lemma AdmissionRateBound(st: Setting, es: seq<Event>, ss: seq<System>, i: nat, t: int)
    requires IsRun(st, es, ss) && i < |ss| && t >= ss[i].clock
    ensures ss[i].admitted <= st.cfg.burst + (t - st.start) / st.interval
  {
    InvariantHolds(st, es, ss, i);
    var d := st.interval;
    TimesIsProduct(ss[i].slot, d);
    QuotientBound(ss[i].slot, d, t - st.start);
  }

  /** Every refill that is accepted uses up a tick. */
  lemma {:induction false} RefillsNeedTicks(st: Setting, es: seq<Event>, ss: seq<System>, i: nat, j: nat)
    requires IsRun(st, es, ss) && i <= j < |ss|
    ensures ss[j].accepted + PendingTicks(ss[j]) - ss[j].ticks <= ss[i].accepted + PendingTicks(ss[i]) - ss[i].ticks
    ensures ss[j].clock >= ss[i].clock
    decreases j
  {
    if i < j {
      RefillsNeedTicks(st, es, ss, i, j - 1);
      assert Enabled(st, ss[j - 1], es[j - 1]) && ss[j] == Apply(st, ss[j - 1], es[j - 1]);
    }
  }

  lemma SlotNotBefore(st: Setting, slot: nat, now: int, earlier: int)
    requires st.interval > 0 && InSlot(st, slot, now) && st.start <= earlier <= now
    ensures (earlier - st.start) / st.interval <= slot
  {
    var d := st.interval;
    TimesIsProduct(slot + 1, d);
    if (earlier - st.start) / d > slot {
      MulMonotone(slot + 1, (earlier - st.start) / d, d);
    }
  }

  /** The ticks since state i are in distinct intervals, the first no earlier than that of state i. */
  lemma {:induction false} TicksInDistinctSlots(st: Setting, es: seq<Event>, ss: seq<System>, i: nat, j: nat)
    requires IsRun(st, es, ss) && i <= j < |ss|
    ensures ss[j].ticks >= ss[i].ticks && ss[i].clock >= st.start
    ensures ss[j].ticks > ss[i].ticks ==>
              ss[j].ticks - ss[i].ticks <= ss[j].slot - (ss[i].clock - st.start) / st.interval + 1
    decreases j
  {
    RefillsNeedTicks(st, es, ss, 0, i);
    if i < j {
      TicksInDistinctSlots(st, es, ss, i, j - 1);
      RefillsNeedTicks(st, es, ss, i, j - 1);
      var s, e := ss[j - 1], es[j - 1];
      assert Enabled(st, s, e) && ss[j] == Apply(st, s, e);
      if e.Tick? {
        SlotNotBefore(st, e.slot, e.now, ss[i].clock);
      }
    }
  }

  lemma SlotsBetween(d: int, a: int, b: int, slot: nat)
    requires d > 0 && 0 <= a <= b && Times(slot, d) <= b
    ensures slot - a / d <= 1 + (b - a) / d
  {
    TimesIsProduct(slot, d);
    assert a == d * (a / d) + a % d;
    var q := slot - a / d - 1;
    assert q * d == slot * d - d * (a / d) - d;
    QuotientBound(q, d, b - a);
  }

  /** The rate bound over any stretch of a run: between two moments at most Burst + 4 calls are
      admitted, and one more for each whole interval between them.  Of the four one is a tick in the
      refill loop's hand, one a tick that waits, and two are for the intervals that the stretch begins
      and ends in. */
  lemma RateOverInterval(st: Setting, es: seq<Event>, ss: seq<System>, i: nat, j: nat)
    requires IsRun(st, es, ss) && i <= j < |ss|
    ensures ss[j].admitted - ss[i].admitted <= st.cfg.burst + 4 + (ss[j].clock - ss[i].clock) / st.interval
  {
    InvariantHolds(st, es, ss, i);
    InvariantHolds(st, es, ss, j);
    RefillsNeedTicks(st, es, ss, i, j);
    TicksInDistinctSlots(st, es, ss, i, j);
    var d := st.interval;
    SlotsBetween(d, ss[i].clock - st.start, ss[j].clock - st.start, ss[j].slot);
    QuotientBound(0, d, ss[j].clock - ss[i].clock);
  }

  /** Both bounds read in terms of the configured rate, for rates of up to a thousand per second: by any
      time, and between any two moments, the admissions beyond the burst, and beyond Burst + 4, number at
      most the rate times the time, to the nanosecond of the interval. */
  lemma AdmissionsFollowRate(st: Setting, es: seq<Event>, ss: seq<System>, i: nat, j: nat)
    requires IsRun(st, es, ss) && i <= j < |ss| && st.cfg.rate <= 1000.0
    ensures AtRate(st.cfg.rate, ss[j].admitted - st.cfg.burst, ss[j].clock - st.start)
    ensures AtRate(st.cfg.rate, ss[j].admitted - ss[i].admitted - st.cfg.burst - 4, ss[j].clock - ss[i].clock)
  {
    AdmissionRateBound(st, es, ss, j, ss[j].clock);
    RateOverInterval(st, es, ss, i, j);
    RefillsNeedTicks(st, es, ss, 0, j);
    RefillsNeedTicks(st, es, ss, i, j);
    IntervalMeaning(st.cfg.rate);
    CountAtRate(st.cfg.rate, st.interval, ss[j].admitted - st.cfg.burst, ss[j].clock - st.start);
    CountAtRate(st.cfg.rate, st.interval, ss[j].admitted - ss[i].admitted - st.cfg.burst - 4,
                ss[j].clock - ss[i].clock);
  }

  /** n tokens in x nanoseconds are no more than the rate allows. */
  predicate AtRate(rate: real, n: int, x: int) {
    n > 0 ==> n as real * (1_000_000_000.0 - rate) <= x as real * rate
  }

  lemma CountAtRate(rate: real, interval: int, n: int, x: int)
    requires rate > 0.0 && interval > 0 && OnePeriod(interval, rate) && x >= 0 && n <= x / interval
    ensures AtRate(rate, n, x)
  {
    if n > 0 {
      MulMonotone(n, x / interval, interval);
      assert x == interval * (x / interval) + x % interval;
      CountFollowsRate(rate, interval, n, x);
    }
  }

  // ----- The bound over a stretch is attained -----

  /** A run passes through `mid` and ends in s. */
  ghost predicate Passes(st: Setting, mid: System, s: System) {
    exists es, ss, i :: RunThrough(st, es, ss, i, mid, s)
  }

  ghost predicate RunThrough(st: Setting, es: seq<Event>, ss: seq<System>, i: nat, mid: System, s: System) {
    IsRun(st, es, ss) && i <= |es| && ss[i] == mid && ss[|es|] == s
  }

  lemma PassesStep(st: Setting, mid: System, s: System, e: Event) returns (s': System)
    requires Passes(st, mid, s) && Enabled(st, s, e)
    ensures s' == Apply(st, s, e) && Passes(st, mid, s')
  {
    s' := Apply(st, s, e);
    var es, ss, i :| RunThrough(st, es, ss, i, mid, s);
    assert RunThrough(st, es + [e], ss + [s'], i, mid, s');
  }

  /** A caller enters and takes a token at once. */
  lemma OneAdmitted(st: Setting, mid: System, s: System) returns (s': System)
    requires Passes(st, mid, s) && s.callers == map[] && s.tokens > 0
    ensures Passes(st, mid, s') && s'.callers == map[] && s'.clock == s.clock
    ensures s' == s.(tokens := s.tokens - 1, entered := s.entered + 1, admitted := s.admitted + 1)
  {
    s' := PassesStep(st, mid, s, Enter(0, s.clock));
    s' := PassesStep(st, mid, s', TryTake(0, s.clock));
    assert s'.callers == map[];
  }

  lemma {:induction false} AllAdmitted(st: Setting, mid: System, s: System) returns (s': System)
    requires Passes(st, mid, s) && s.callers == map[]
    ensures Passes(st, mid, s') && s'.admitted == s.admitted + s.tokens && s'.clock == s.clock
    decreases s.tokens
  {
    s' := s;
    if s.tokens > 0 {
      s' := OneAdmitted(st, mid, s);
      s' := AllAdmitted(st, mid, s');
    }
  }

  lemma SmallTimes(d: int)
    ensures Times(1, d) == d && Times(2, d) == 2 * d && Times(3, d) == 3 * d
    ensures Times(4, d) == 4 * d && Times(5, d) == 5 * d
  {
    assert Times(2, d) == Times(1, d) + d;
    assert Times(4, d) == Times(3, d) + d;
  }

  /** A full bucket at the end of the third interval: the first tick is in hand, the second waits, that
      of the present interval is still to come, and a caller is about to take a token. */
  lemma EveOfBurst(st: Setting) returns (s: System)
    requires ValidSetting(st)
    ensures Passes(st, s, s) && s.callers.Keys == {0} && s.callers[0].Trying?
    ensures s.tokens == st.cfg.burst && s.inHand && s.tickWaits && !s.stopped
    ensures s.slot == 2 && s.admitted == 0 && s.clock == st.start + 4 * st.interval - 1
  {
    var d, start, s0 := st.interval, st.start, Initial(st);
    SmallTimes(d);
    var s1 := Apply(st, s0, Tick(1, start + d));
    var s2 := Apply(st, s1, TakeTick(start + d));
    var s3 := Apply(st, s2, Tick(2, start + 2 * d));
    s := Apply(st, s3, Enter(0, start + 4 * d - 1));
    var es := [Tick(1, start + d), TakeTick(start + d), Tick(2, start + 2 * d), Enter(0, start + 4 * d - 1)];
    var ss := [s0, s1, s2, s3, s];
    assert IsRun(st, es, ss);
    assert RunThrough(st, es, ss, 4, s, s);
  }

  /** The refill loop fills a bucket short of one token. */
  lemma Sends(st: Setting, mid: System, s: System) returns (s': System)
    requires Passes(st, mid, s) && s.inHand && s.tokens + 1 == st.cfg.burst
    ensures Passes(st, mid, s') && s' == s.(inHand := false, tokens := st.cfg.burst, accepted := s.accepted + 1)
  {
    s' := PassesStep(st, mid, s, Refill(s.clock));
  }

  lemma Takes(st: Setting, mid: System, s: System) returns (s': System)
    requires Passes(st, mid, s) && s.tickWaits && !s.inHand && !s.stopped
    ensures Passes(st, mid, s') && s' == s.(tickWaits := false, inHand := true)
  {
    s' := PassesStep(st, mid, s, TakeTick(s.clock));
  }

  /** One is admitted, and the waiting tick makes up for it. */
  lemma OneAdmittedAndRefilled(st: Setting, mid: System, s: System) returns (s': System)
    requires Passes(st, mid, s) && s.callers == map[] && s.tickWaits && !s.inHand
    requires s.tokens == st.cfg.burst > 0 && !s.stopped
    ensures Passes(st, mid, s') && s'.callers == map[] && !s'.tickWaits && !s'.inHand && s'.tokens == st.cfg.burst
    ensures s'.slot == s.slot && s'.clock == s.clock && !s'.stopped && s'.admitted == s.admitted + 1
  {
    s' := OneAdmitted(st, mid, s);
    s' := Takes(st, mid, s');
    s' := Sends(st, mid, s');
  }

  lemma Ticks(st: Setting, mid: System, s: System, slot: nat, now: int) returns (s': System)
    requires Passes(st, mid, s) && !s.stopped
    requires slot > s.slot && now >= s.clock && InSlot(st, slot, now)
    ensures Passes(st, mid, s') && s' == s.(clock := now, tickWaits := true, slot := slot, ticks := s.ticks + 1)
  {
    s' := PassesStep(st, mid, s, Tick(slot, now));
  }

  /** Under every configuration the bound of RateOverInterval is attained: between some two moments a
      nanosecond apart, Burst + 4 calls are admitted. */
  lemma BurstIsAttained(st: Setting)
    requires ValidSetting(st)
    ensures exists mid, s | Passes(st, mid, s) ::
              s.admitted - mid.admitted == st.cfg.burst + 4 && s.clock == mid.clock + 1
  {
    var d := st.interval;
    SmallTimes(d);
    var mid := EveOfBurst(st);
    var s := PassesStep(st, mid, mid, TryTake(0, mid.clock));
    assert s.callers == map[];
    s := Sends(st, mid, s);
    s := OneAdmittedAndRefilled(st, mid, s);
    s := Ticks(st, mid, s, 3, st.start + 4 * d - 1);
    s := OneAdmittedAndRefilled(st, mid, s);
    s := Ticks(st, mid, s, 4, st.start + 4 * d);
    s := OneAdmittedAndRefilled(st, mid, s);
    s := AllAdmitted(st, mid, s);
  }

  // ----- Who is denied -----

  lemma DeadlineKept(st: Setting, s: System, e: Event, c: CallerId)
    requires Enabled(st, s, e) && c in Apply(st, s, e).callers
    ensures if c in s.callers then Apply(st, s, e).callers[c].deadline == s.callers[c].deadline
            else e.Enter? && e.c == c && Apply(st, s, e).callers[c].deadline == Deadline(st.cfg, e.now)
  {
  }

  /** The Enter of a caller that is inside: it has been inside ever since, and its deadline dates
      from there. */
  lemma {:induction false} InsideSince(st: Setting, es: seq<Event>, ss: seq<System>, i: nat, c: CallerId)
    returns (k: nat)
    requires IsRun(st, es, ss) && i < |ss| && c in ss[i].callers
    ensures k < i && es[k].Enter? && es[k].c == c
    ensures ss[i].callers[c].deadline == Deadline(st.cfg, es[k].now)
    ensures forall m :: k < m <= i ==> c in ss[m].callers
  {
    assert Enabled(st, ss[i - 1], es[i - 1]) && ss[i] == Apply(st, ss[i - 1], es[i - 1]);
    DeadlineKept(st, ss[i - 1], es[i - 1], c);
    if c in ss[i - 1].callers {
      k := InsideSince(st, es, ss, i - 1, c);
    } else {
      k := i - 1;
    }
  }

  lemma JudgingBefore(st: Setting, s: System, e: Event, c: CallerId)
    requires Enabled(st, s, e) && c in Apply(st, s, e).callers && Apply(st, s, e).callers[c].Judging?
    ensures c in s.callers
    ensures !s.callers[c].Judging? ==> e.TryTake? && e.c == c && s.tokens == 0
  {
  }

  lemma DenialStep(st: Setting, s: System, e: Event)
    requires Enabled(st, s, e) && Apply(st, s, e).denied > s.denied
    ensures e.Judge? && e.c in s.callers && s.callers[e.c].Judging?
    ensures st.cfg.waitTimeout == 0 || e.now > s.callers[e.c].deadline
    ensures Apply(st, s, e).tokens == s.tokens && Apply(st, s, e).admitted == s.admitted
  {
  }

  /** A caller that is about to look at the clock has just found the bucket empty. */
  lemma {:induction false} FoundEmpty(st: Setting, es: seq<Event>, ss: seq<System>, i: nat, c: CallerId)
    returns (m: nat)
    requires IsRun(st, es, ss) && i < |ss| && c in ss[i].callers && ss[i].callers[c].Judging?
    ensures m < i && es[m].TryTake? && es[m].c == c && ss[m].tokens == 0
    ensures forall n :: m <= n <= i ==> c in ss[n].callers
  {
    assert Enabled(st, ss[i - 1], es[i - 1]) && ss[i] == Apply(st, ss[i - 1], es[i - 1]);
    JudgingBefore(st, ss[i - 1], es[i - 1], c);
    if ss[i - 1].callers[c].Judging? {
      m := FoundEmpty(st, es, ss, i - 1, c);
    } else {
      m := i - 1;
    }
  }

  /** The look at the clock turns a caller away exactly when it may not wait, or more than WaitTimeout has
      passed since it entered, in step k. */
  lemma JudgedExactly(st: Setting, es: seq<Event>, ss: seq<System>, i: nat) returns (k: nat)
    requires IsRun(st, es, ss) && i < |es| && es[i].Judge?
    ensures k < i && es[k].Enter? && es[k].c == es[i].c
    ensures es[i].c !in ss[i + 1].callers <==> st.cfg.waitTimeout == 0 || es[i].now > es[k].now + st.cfg.waitTimeout
    ensures es[i].c in ss[i + 1].callers ==> ss[i + 1].callers[es[i].c].Waiting?
  {
    assert Enabled(st, ss[i], es[i]) && ss[i + 1] == Apply(st, ss[i], es[i]);
    k := InsideSince(st, es, ss, i, es[i].c);
  }

  /** A caller in the blocking select, which entered in step k, can take any token at once, and leaves the
      select without one as soon as WaitTimeout has passed since it entered, and no sooner. */
  lemma WaiterCanProceed(st: Setting, es: seq<Event>, ss: seq<System>, i: nat, c: CallerId, now: int) returns (k: nat)
    requires IsRun(st, es, ss) && i < |ss| && c in ss[i].callers && ss[i].callers[c].Waiting? && now >= ss[i].clock
    ensures k < i && es[k].Enter? && es[k].c == c
    ensures Enabled(st, ss[i], Receive(c, now)) <==> ss[i].tokens > 0
    ensures Enabled(st, ss[i], TimerFires(c, now)) <==> now >= es[k].now + st.cfg.waitTimeout
    ensures Enabled(st, ss[i], Cancel(c, now))
  {
    k := InsideSince(st, es, ss, i, c);
  }

  /** The token of a tick is lost exactly when the bucket is full, and a call is admitted at once exactly
      when the bucket is not empty. */
  lemma TokensLostOnlyWhenFull(st: Setting, es: seq<Event>, ss: seq<System>, i: nat)
    requires IsRun(st, es, ss) && i < |es|
    ensures es[i].Refill? ==>
              && (ss[i].tokens < st.cfg.burst ==> ss[i + 1].tokens == ss[i].tokens + 1)
              && (ss[i].tokens == st.cfg.burst ==> ss[i + 1].tokens == ss[i].tokens)
    ensures es[i].TryTake? ==> (ss[i + 1].admitted == ss[i].admitted + 1 <==> ss[i].tokens > 0)
  {
    assert Enabled(st, ss[i], es[i]) && ss[i + 1] == Apply(st, ss[i], es[i]);
    InvariantHolds(st, es, ss, i);
  }

  /** A caller that is denied entered more than WaitTimeout ago, unless it may not wait at all, and
      found the bucket empty since; the denial takes no token. */
  lemma DeniedAfterFullWait(st: Setting, es: seq<Event>, ss: seq<System>, i: nat) returns (k: nat, m: nat)
    requires IsRun(st, es, ss) && i < |es| && ss[i + 1].denied > ss[i].denied
    ensures k < m < i && es[i].Judge?
    ensures es[k].Enter? && es[k].c == es[i].c
    ensures es[m].TryTake? && es[m].c == es[i].c && ss[m].tokens == 0
    ensures st.cfg.waitTimeout == 0 || es[i].now > es[k].now + st.cfg.waitTimeout
    ensures ss[i + 1].tokens == ss[i].tokens && ss[i + 1].admitted == ss[i].admitted
  {
    assert Enabled(st, ss[i], es[i]) && ss[i + 1] == Apply(st, ss[i], es[i]);
    DenialStep(st, ss[i], es[i]);
    k := InsideSince(st, es, ss, i, es[i].c);
    m := FoundEmpty(st, es, ss, i, es[i].c);
    assert Enabled(st, ss[k], es[k]);
  }
}
