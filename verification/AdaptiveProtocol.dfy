/**
 Any number of callers of one adaptive timeout: each reads its deadline, makes its call, and
 records how long the call took.  `history` records all latencies ever recorded; the program
 keeps only the window.
 */
module AdaptiveProtocol {
  import opened AdaptiveTimeout

  type CallerId = nat

  datatype System = System(w: Window, callers: map<CallerId, int>, history: seq<int>)

  datatype Event =
    | Start(c: CallerId)
    | Finish(c: CallerId, elapsed: int)

  predicate Enabled(s: System, e: Event) {
    match e
    case Start(c) => c !in s.callers
    case Finish(c, _) => c in s.callers
  }

  function Apply(cfg: Config, s: System, e: Event): System
    requires ValidConfig(cfg) && Enabled(s, e)
  {
    match e
    case Start(c) => s.(callers := s.callers[c := Deadline(cfg, s.w.median)])
    case Finish(c, elapsed) => System(Recorded(cfg, s.w, elapsed), s.callers - {c}, s.history + [elapsed])
  }

  ghost predicate IsRun(cfg: Config, es: seq<Event>, ss: seq<System>) {
    && ValidConfig(cfg)
    && |ss| == |es| + 1
    && ss[0] == System(Window([], cfg.initial), map[], [])
    && forall i {:trigger es[i]} :: 0 <= i < |es| ==> Enabled(ss[i], es[i]) && ss[i + 1] == Apply(cfg, ss[i], es[i])
  }

  /** The size of the window after n records: it grows to 1024, falls to 512 with the next
      record, and grows again. */
  function WindowSize(n: nat): nat {
    if n <= MAX_WINDOW then n else KEPT + (n - MAX_WINDOW - 1) % (MAX_WINDOW - KEPT + 1)
  }

  function Suffix(s: seq<int>, n: nat): seq<int>
    requires n <= |s|
  {
    s[|s| - n..]
  }

  /** The published timeout is the window's order statistic, if it holds enough samples. */
  ghost predicate Publishes(cfg: Config, w: Window) {
    |w.durations| >= cfg.minSamples ==>
      0 <= RankIndex(cfg, |w.durations|) && HasRank(w.durations, w.median, RankIndex(cfg, |w.durations|))
  }

  /** The window holds the last n records of the history. */
  ghost predicate WindowFits(cfg: Config, history: seq<int>, w: Window, n: nat) {
    && n <= |history| && n <= MAX_WINDOW
    && w.durations == Suffix(history, n)
    && Publishes(cfg, w)
    && (cfg.minSamples > MAX_WINDOW || |history| < cfg.minSamples ==> w.median == cfg.initial)
  }

  ghost predicate Invariant(cfg: Config, s: System) {
    WindowFits(cfg, s.history, s.w, WindowSize(|s.history|))
  }

  lemma WindowSizeStep(n: nat)
    ensures WindowSize(0) == 0 && WindowSize(n) <= n && WindowSize(n) <= 1024
    ensures WindowSize(n + 1) == if WindowSize(n) == 1024 then 512 else WindowSize(n) + 1
  {
  }

  lemma FinishKeepsInvariant(cfg: Config, s: System, e: Event)
    requires ValidConfig(cfg) && Invariant(cfg, s) && Enabled(s, e) && e.Finish?
    ensures Invariant(cfg, Apply(cfg, s, e))
  {
    RecordedFits(cfg, s.history, s.w, WindowSize(|s.history|), e.elapsed);
    SizeAfterRecord(cfg, s.history, e.elapsed, Recorded(cfg, s.w, e.elapsed));
  }

  lemma RecordedFits(cfg: Config, history: seq<int>, w: Window, n: nat, d: int)
    requires ValidConfig(cfg) && WindowFits(cfg, history, w, n)
    ensures WindowFits(cfg, history + [d], Recorded(cfg, w, d), if n == MAX_WINDOW then KEPT else n + 1)
  {
    RecordedPublishesRank(cfg, w, d);
    FitsAfterRecord(cfg, history, w, n, d, Recorded(cfg, w, d));
  }

  lemma SizeAfterRecord(cfg: Config, history: seq<int>, d: int, w: Window)
    requires var n := WindowSize(|history|);
             WindowFits(cfg, history + [d], w, if n == MAX_WINDOW then KEPT else n + 1)
    ensures WindowFits(cfg, history + [d], w, WindowSize(|history + [d]|))
  {
    WindowSizeStep(|history|);
    assert |history + [d]| == |history| + 1;
  }

  /** Any window that is trimmed and published as it should be fits the longer history. */
  lemma FitsAfterRecord(cfg: Config, history: seq<int>, w: Window, n: nat, d: int, w': Window)
    requires WindowFits(cfg, history, w, n)
    requires w'.durations == Trim(w.durations + [d]) && Publishes(cfg, w')
    requires |w'.durations| < cfg.minSamples ==> w'.median == w.median
    ensures WindowFits(cfg, history + [d], w', if n == MAX_WINDOW then KEPT else n + 1)
  {
    TrimmedIsSuffix(history, n, d);
  }

  /** Trimming a suffix that has grown by one leaves a suffix of the new size. */
  lemma TrimmedIsSuffix(history: seq<int>, n: nat, d: int)
    requires n <= |history| && n <= MAX_WINDOW
    ensures Trim(Suffix(history, n) + [d]) == Suffix(history + [d], if n == MAX_WINDOW then KEPT else n + 1)
  {
    assert Suffix(history, n) + [d] == Suffix(history + [d], n + 1);
  }

  lemma {:induction false} InvariantHolds(cfg: Config, es: seq<Event>, ss: seq<System>, i: nat)
    requires IsRun(cfg, es, ss) && i < |ss|
    ensures Invariant(cfg, ss[i])
  {
    if i > 0 {
      InvariantHolds(cfg, es, ss, i - 1);
      assert Enabled(ss[i - 1], es[i - 1]) && ss[i] == Apply(cfg, ss[i - 1], es[i - 1]);
      if es[i - 1].Finish? {
        FinishKeepsInvariant(cfg, ss[i - 1], es[i - 1]);
      }
    }
  }

  lemma RunStep(cfg: Config, es: seq<Event>, ss: seq<System>, i: nat)
    requires IsRun(cfg, es, ss) && i < |es|
    ensures Enabled(ss[i], es[i]) && ss[i + 1] == Apply(cfg, ss[i], es[i]) && Invariant(cfg, ss[i + 1])
  {
    InvariantHolds(cfg, es, ss, i + 1);
  }

  // ----- Theorems about every run -----

  /** A remark: as in the source, no step reads the configured time window, so that the same runs happen
      whatever it is. */
  lemma WindowIsIgnored(cfg: Config, window: int, es: seq<Event>, ss: seq<System>)
    ensures IsRun(cfg, es, ss) <==> IsRun(cfg.(window := window), es, ss)
  {
  }

  /** The window is the suffix of the history of the size the trimming leaves, and whenever it
      holds MinSamples samples the published timeout is their order statistic. */
  lemma PublishesOrderStatistic(cfg: Config, es: seq<Event>, ss: seq<System>, i: nat)
    requires IsRun(cfg, es, ss) && i < |ss|
    ensures var s, n := ss[i], WindowSize(|ss[i].history|);
            && n <= |s.history| && n <= 1024
            && s.w.durations == s.history[|s.history| - n..]
            && (n >= cfg.minSamples ==> 0 <= RankIndex(cfg, n) && HasRank(s.w.durations, s.w.median, RankIndex(cfg, n)))
            && (n >= cfg.minSamples ==> IsPercentile(s.w.durations, cfg.percentile, s.w.median))
  {
    InvariantHolds(cfg, es, ss, i);
    var n := WindowSize(|ss[i].history|);
    if n >= cfg.minSamples {
      RankIndexIsPercentileRank(cfg, n);
    }
  }

  /** A call that starts gets the published timeout, or the initial one if that is not positive; with
      enough samples that is their percentile. */
  lemma StartGetsPercentile(cfg: Config, es: seq<Event>, ss: seq<System>, i: nat)
    requires IsRun(cfg, es, ss) && i < |es| && es[i].Start?
    ensures es[i].c in ss[i + 1].callers
    ensures var timeout, published := ss[i + 1].callers[es[i].c], ss[i].w.median;
            && timeout == (if published > 0 then published else cfg.initial)
            && (|ss[i].w.durations| >= cfg.minSamples ==> IsPercentile(ss[i].w.durations, cfg.percentile, published))
  {
    RunStep(cfg, es, ss, i);
    PublishesOrderStatistic(cfg, es, ss, i);
  }

  /** With MinSamples at most 512 the window never again falls short once so many latencies were
      recorded; with more than 1024 it always does, and the timeout stays the initial one. */
  lemma WhenSamplesSuffice(cfg: Config, es: seq<Event>, ss: seq<System>, i: nat)
    requires IsRun(cfg, es, ss) && i < |ss|
    ensures cfg.minSamples <= 512 && |ss[i].history| >= cfg.minSamples ==> |ss[i].w.durations| >= cfg.minSamples
    ensures cfg.minSamples > 1024 || |ss[i].history| < cfg.minSamples ==> ss[i].w.median == cfg.initial
  {
    InvariantHolds(cfg, es, ss, i);
    WindowSizeStep(|ss[i].history|);
  }

  /** Exactly the values of MinSamples up to 512 have that effect: for each greater value the
      window holds fewer samples again after some record. */
  lemma SamplesSufficeForeverIff(minSamples: nat)
    ensures minSamples <= 512 <==> forall n :: n >= minSamples ==> WindowSize(n) >= minSamples
  {
    if minSamples <= KEPT {
      forall n | n >= minSamples
        ensures WindowSize(n) >= minSamples
      {
        WindowSizeStep(n);
      }
    } else {
      var n := if minSamples > MAX_WINDOW then minSamples else MAX_WINDOW + 1;
      WindowSizeStep(n);
      assert WindowSize(n) < minSamples;
    }
  }

  ghost predicate RespectsDeadlines(es: seq<Event>, ss: seq<System>)
    requires |ss| == |es| + 1
  {
    forall i {:trigger es[i]} :: 0 <= i < |es| && es[i].Finish? && es[i].c in ss[i].callers ==>
      es[i].elapsed <= ss[i].callers[es[i].c]
  }

  ghost predicate AllWithin(cfg: Config, s: System) {
    && s.w.median <= cfg.initial
    && (forall c :: c in s.callers ==> s.callers[c] <= cfg.initial)
    && (forall k :: 0 <= k < |s.history| ==> s.history[k] <= cfg.initial)
  }

  lemma StepStaysWithin(cfg: Config, s: System, e: Event, s': System)
    requires ValidConfig(cfg) && Enabled(s, e) && s' == Apply(cfg, s, e)
    requires Invariant(cfg, s') && AllWithin(cfg, s)
    requires e.Finish? ==> e.elapsed <= s.callers[e.c]
    ensures AllWithin(cfg, s')
  {
    if e.Finish? && |s'.w.durations| >= cfg.minSamples {
      assert s'.w.median in s'.w.durations;
      var k :| 0 <= k < |s'.w.durations| && s'.w.durations[k] == s'.w.median;
      assert s'.w.median == s'.history[|s'.history| - |s'.w.durations| + k];
    }
  }

  lemma RunStaysWithin(cfg: Config, es: seq<Event>, ss: seq<System>, i: nat)
    requires IsRun(cfg, es, ss) && RespectsDeadlines(es, ss) && i < |es| && AllWithin(cfg, ss[i])
    ensures AllWithin(cfg, ss[i + 1])
  {
    RunStep(cfg, es, ss, i);
    assert es[i].Finish? ==> es[i].elapsed <= ss[i].callers[es[i].c];
    StepStaysWithin(cfg, ss[i], es[i], ss[i + 1]);
  }

  /** If every call respects its deadline, the published timeout never exceeds the initial one. */
  lemma {:induction false} NeverExceedsInitial(cfg: Config, es: seq<Event>, ss: seq<System>, i: nat)
    requires IsRun(cfg, es, ss) && RespectsDeadlines(es, ss) && i < |ss|
    ensures AllWithin(cfg, ss[i])
  {
    if i > 0 {
      NeverExceedsInitial(cfg, es, ss, i - 1);
      RunStaysWithin(cfg, es, ss, i - 1);
    }
  }
}
