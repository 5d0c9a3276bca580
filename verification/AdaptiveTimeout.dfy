/**
 The adaptive timeout of adaptive.go: a trimmed window of latencies and the order statistic it
 publishes.  Durations are integer nanoseconds.
 */
module AdaptiveTimeout {
  import opened Arithmetic
  import opened Wrappers

  /** `window` is read by nothing but its default. */
  datatype Config = Config(initial: int, percentile: int, window: int, minSamples: int)

  function WithDefaults(given: Config): Config {
    Config(
      if given.initial == 0 then 5 * SECOND else given.initial,
      if given.percentile <= 0 || given.percentile > 100 then 99 else given.percentile,
      if given.window == 0 then 300 * SECOND else given.window,
      if given.minSamples < 10 then 10 else given.minSamples)
  }

  lemma DefaultsFillZeros(given: Config)
    ensures var cfg := WithDefaults(given);
            && cfg.initial == (if given.initial != 0 then given.initial else 5_000_000_000)
            && cfg.window == (if given.window != 0 then given.window else 300_000_000_000)
            && (0 < given.percentile <= 100 ==> cfg.percentile == given.percentile)
            && (given.percentile <= 0 || given.percentile > 100 ==> cfg.percentile == 99)
            && cfg.minSamples >= 10 && (given.minSamples >= 10 ==> cfg.minSamples == given.minSamples)
            && (given.minSamples < 10 ==> cfg.minSamples == 10)
    ensures WithDefaults(WithDefaults(given)) == WithDefaults(given)
  {
  }

  predicate ValidConfig(cfg: Config) {
    0 < cfg.percentile <= 100 && cfg.minSamples >= 10
  }

  const MAX_WINDOW := 1024
  const KEPT := 512

  // ----- Sorting, and order statistics without it -----

  function Insert(x: int, s: seq<int>): seq<int> {
    if s == [] || x <= s[0] then [x] + s else [s[0]] + Insert(x, s[1..])
  }

  /** The sorted copy of a slice. */
  function Sorted(s: seq<int>): seq<int> {
    if s == [] then [] else Insert(s[0], Sorted(s[1..]))
  }

  function CountBelow(s: seq<int>, x: int): nat {
    if s == [] then 0 else (if s[0] < x then 1 else 0) + CountBelow(s[1..], x)
  }

  /** x has rank r in s: it is an element, at most r elements are smaller, and more than r are
      not greater. */
  ghost predicate HasRank(s: seq<int>, x: int, r: nat) {
    x in s && CountBelow(s, x) <= r < CountBelow(s, x + 1)
  }

  predicate IsSorted(s: seq<int>) {
    forall i, j :: 0 <= i < j < |s| ==> s[i] <= s[j]
  }

  lemma {:induction false} InsertSorts(x: int, s: seq<int>)
    requires IsSorted(s)
    ensures IsSorted(Insert(x, s)) && |Insert(x, s)| == |s| + 1
    ensures forall y :: y in Insert(x, s) <==> y == x || y in s
  {
    if s == [] || x <= s[0] {
    } else {
      InsertSorts(x, s[1..]);
      assert forall y :: y in s <==> y == s[0] || y in s[1..];
      var t := Insert(x, s[1..]);
      forall k | 0 <= k < |t|
        ensures s[0] <= t[k]
      {
        assert t[k] in t;
        if t[k] != x {
          var i :| 0 <= i < |s[1..]| && s[1..][i] == t[k];
          assert s[0] <= s[1 + i];
        }
      }
    }
  }

  lemma {:induction false} SortedSorts(s: seq<int>)
    ensures IsSorted(Sorted(s)) && |Sorted(s)| == |s|
    ensures forall y :: y in Sorted(s) <==> y in s
  {
    if s != [] {
      SortedSorts(s[1..]);
      InsertSorts(s[0], Sorted(s[1..]));
      assert forall y :: y in s <==> y == s[0] || y in s[1..];
    }
  }

  lemma {:induction false} InsertCounts(x: int, s: seq<int>, y: int)
    ensures CountBelow(Insert(x, s), y) == CountBelow(s, y) + if x < y then 1 else 0
  {
    if s == [] || x <= s[0] {
      assert ([x] + s)[1..] == s;
    } else {
      InsertCounts(x, s[1..], y);
      var t := Insert(x, s[1..]);
      assert ([s[0]] + t)[1..] == t;
    }
  }

  lemma {:induction false} SortedCounts(s: seq<int>, y: int)
    ensures CountBelow(Sorted(s), y) == CountBelow(s, y)
  {
    if s != [] {
      SortedCounts(s[1..], y);
      InsertCounts(s[0], Sorted(s[1..]), y);
    }
  }

  /** In a sorted sequence whose first r elements are below x and whose others are not. */
  lemma {:induction false} CountBelowBounds(s: seq<int>, x: int, r: nat)
    requires r <= |s|
    ensures (forall i :: r <= i < |s| ==> s[i] >= x) ==> CountBelow(s, x) <= r
    ensures (forall i :: 0 <= i < r ==> s[i] < x) ==> CountBelow(s, x) >= r
  {
    if s != [] {
      CountBelowBounds(s[1..], x, if r > 0 then r - 1 else 0);
    }
  }

  lemma SortedElementHasRank(t: seq<int>, r: nat)
    requires IsSorted(t) && r < |t|
    ensures HasRank(t, t[r], r)
  {
    CountBelowBounds(t, t[r], r);
    CountBelowBounds(t, t[r] + 1, r + 1);
  }

  /** Indexing the sorted copy yields the order statistic. */
  lemma SortedIndexHasRank(s: seq<int>, r: nat)
    requires r < |s|
    ensures |Sorted(s)| == |s| && HasRank(s, Sorted(s)[r], r)
  {
    SortedSorts(s);
    var x := Sorted(s)[r];
    SortedElementHasRank(Sorted(s), r);
    SortedCounts(s, x);
    SortedCounts(s, x + 1);
    assert x in Sorted(s);
  }

  // ----- The policy -----

  datatype Window = Window(durations: seq<int>, median: int)

  /** The index into n sorted samples; exact as integer division for every window size. */
  function RankIndex(cfg: Config, n: nat): int {
    (n - 1) * cfg.percentile / 100
  }

  /** r is the whole part of p percent of n - 1. */
  predicate IsPercentileRank(p: int, n: nat, r: nat) {
    100 * r <= (n - 1) * p < 100 * (r + 1)
  }

  /** x is the p-th percentile of the samples: the rank of x, by counting, is p percent of the way. */
  ghost predicate IsPercentile(s: seq<int>, p: int, x: int) {
    exists r: nat :: IsPercentileRank(p, |s|, r) && HasRank(s, x, r)
  }

  lemma RankIndexIsPercentileRank(cfg: Config, n: nat)
    requires 0 < cfg.percentile <= 100 && n > 0
    ensures 0 <= RankIndex(cfg, n) && IsPercentileRank(cfg.percentile, n, RankIndex(cfg, n))
  {
    RankIndexInRange(cfg, n);
    var x := (n - 1) * cfg.percentile;
    assert x == 100 * (x / 100) + x % 100;
  }

  lemma RankIndexInRange(cfg: Config, n: nat)
    requires 0 < cfg.percentile <= 100 && n > 0
    ensures 0 <= RankIndex(cfg, n) < n
  {
    MulMonotone(0, n - 1, cfg.percentile);
    MulMonotone(cfg.percentile, 100, n - 1);
  }

  function Trim(s: seq<int>): seq<int> {
    if |s| > MAX_WINDOW then s[|s| - KEPT..] else s
  }

  function Recorded(cfg: Config, w: Window, d: int): Window
    requires ValidConfig(cfg)
  {
    var durations := Trim(w.durations + [d]);
    if |durations| >= cfg.minSamples then
      RankIndexInRange(cfg, |durations|);
      SortedSorts(durations);
      Window(durations, Sorted(durations)[RankIndex(cfg, |durations|)])
    else
      Window(durations, w.median)
  }

  lemma RecordedPublishesRank(cfg: Config, w: Window, d: int)
    requires ValidConfig(cfg)
    ensures var w' := Recorded(cfg, w, d);
            var n := |w'.durations|;
            && w'.durations == Trim(w.durations + [d])
            && (if n >= cfg.minSamples then
                  0 <= RankIndex(cfg, n) && HasRank(w'.durations, w'.median, RankIndex(cfg, n))
                else w'.median == w.median)
            && (n >= cfg.minSamples ==> IsPercentile(w'.durations, cfg.percentile, w'.median))
  {
    var durations := Trim(w.durations + [d]);
    if |durations| >= cfg.minSamples {
      RankIndexInRange(cfg, |durations|);
      SortedIndexHasRank(durations, RankIndex(cfg, |durations|));
      RankIndexIsPercentileRank(cfg, |durations|);
    }
  }

  /** The window takes in every sample until it holds 1024, and with the next one keeps the last 512. */
  lemma TrimmedTo(s: seq<int>, d: int)
    requires |s| <= 1024
    ensures |s| < 1024 ==> Trim(s + [d]) == s + [d]
    ensures |s| == 1024 ==> Trim(s + [d]) == s[513..] + [d]
  {
    if |s| == 1024 {
      assert (s + [d])[513..] == s[513..] + [d];
    }
  }

  function Deadline(cfg: Config, median: int): int {
    if median <= 0 then cfg.initial else median
  }

  class AdaptiveTimeoutPolicy {
    const cfg: Config
    var durations: seq<int>
    var median: int

    function Fields(): Window
      reads this
    {
      Window(durations, median)
    }

    constructor (given: Config)
      ensures cfg == WithDefaults(given) && ValidConfig(cfg)
      ensures Fields() == Window([], cfg.initial)
    {
      var c := WithDefaults(given);
      cfg := c;
      durations := [];
      median := c.initial;
    }

    /** The timeout Execute gives a call. */
    method NextDeadline() returns (timeout: int)
      ensures timeout == Deadline(cfg, median)
      ensures timeout == if median > 0 then median else cfg.initial
    {
      timeout := median;
      if timeout <= 0 {
        timeout := cfg.initial;
      }
    }

    method Record(d: int)
      requires ValidConfig(cfg)
      modifies this
      ensures Fields() == Recorded(cfg, old(Fields()), d)
      ensures |durations| >= cfg.minSamples ==> IsPercentile(durations, cfg.percentile, median)
      ensures |durations| < cfg.minSamples ==> median == old(median)
    {
      RecordedPublishesRank(cfg, Fields(), d);
      durations := durations + [d];
      if |durations| > MAX_WINDOW {
        durations := durations[|durations| - KEPT..];
      }
      if |durations| >= cfg.minSamples {
        var sorted := Sorted(durations);
        SortedSorts(durations);
        RankIndexInRange(cfg, |durations|);
        median := sorted[(|sorted| - 1) * cfg.percentile / 100];
      }
    }
  }
}
