/**
 The bound of BoundedOvertaking is attained under every configuration with priorities and a buffer: all
 workers wait at the inner select when the high-priority request arrives, and each of them takes one
 normal request first.
 */
module OvertakingAttainment {
  import opened Bulkhead
  import opened BulkheadProtocol

  /** A run through `mid` to s, in which the request h waits in the high queue from `mid` on. */
  ghost predicate WaitsAlong(cfg: Config, es: seq<Event>, ss: seq<System>, i: nat, mid: System, s: System, h: Request) {
    && IsRun(cfg, es, ss) && i <= |es| && ss[i] == mid && ss[|es|] == s
    && forall k :: i <= k <= |es| ==> h in ss[k].sh.highQ
  }

  ghost predicate WaitsFrom(cfg: Config, mid: System, s: System, h: Request) {
    exists es, ss, i :: WaitsAlong(cfg, es, ss, i, mid, s, h)
  }

  lemma Do(cfg: Config, mid: System, s: System, h: Request, e: Event) returns (s': System)
    requires WaitsFrom(cfg, mid, s, h) && Enabled(cfg, s, e) && h in Apply(cfg, s, e).sh.highQ
    ensures s' == Apply(cfg, s, e) && WaitsFrom(cfg, mid, s', h)
  {
    s' := Apply(cfg, s, e);
    var es, ss, i :| WaitsAlong(cfg, es, ss, i, mid, s, h);
    assert WaitsAlong(cfg, es + [e], ss + [s'], i, mid, s', h);
  }

  /** The first m workers have polled in vain, and nothing else has happened. */
  ghost predicate Polled(cfg: Config, s: System, m: nat) {
    && |s.workers| == cfg.maxConcurrent && m <= cfg.maxConcurrent
    && s == Initial(cfg).(workers := s.workers)
    && (forall w :: 0 <= w < m ==> s.workers[w] == Inner)
    && (forall w :: m <= w < cfg.maxConcurrent ==> s.workers[w] == Outer)
  }

  lemma {:induction false} AllPoll(cfg: Config, m: nat) returns (es: seq<Event>, ss: seq<System>)
    requires cfg.maxConcurrent > 0 && cfg.priority && m <= cfg.maxConcurrent
    ensures IsRun(cfg, es, ss) && Polled(cfg, ss[|es|], m)
  {
    if m == 0 {
      es, ss := [], [Initial(cfg)];
    } else {
      es, ss := AllPoll(cfg, m - 1);
      var s, e := ss[|es|], Poll(m - 1);
      es, ss := es + [e], ss + [Apply(cfg, s, e)];
    }
  }

  /** The high-priority request arrives; all workers are at the inner select. */
  lemma Arrives(cfg: Config, h: Request) returns (mid: System)
    requires cfg.maxConcurrent > 0 && cfg.maxQueue > 0 && cfg.priority && cfg.marked(h)
    ensures WaitsFrom(cfg, mid, mid, h) && OvertakenBy(cfg, mid, h, [])
    ensures InnerWorkers(mid.workers) == cfg.maxConcurrent
  {
    var es, ss := AllPoll(cfg, cfg.maxConcurrent);
    var s := ss[|es|];
    AllInner(s.workers);
    var s1 := Apply(cfg, s, Arrive(h));
    mid := Apply(cfg, s1, Send(h));
    var es', ss' := es + [Arrive(h), Send(h)], ss + [s1, mid];
    assert IsRun(cfg, es', ss');
    assert WaitsAlong(cfg, es', ss', |es'|, mid, mid, h);
  }

  lemma {:induction false} AllInner(ws: seq<Worker>)
    requires forall w :: 0 <= w < |ws| ==> ws[w] == Inner
    ensures InnerWorkers(ws) == |ws|
  {
    if ws != [] {
      AllInner(ws[1..]);
    }
  }

  /** These normal requests have arrived since and been taken, each by a worker of its own. */
  ghost predicate OvertakenBy(cfg: Config, s: System, h: Request, taken: seq<Request>) {
    && |taken| <= cfg.maxConcurrent == |s.workers|
    && s.sh.highQ == [h] && s.sh.queue == [] && !s.sh.closed && |s.deqLow| == |taken|
    && (forall r :: r in s.arrived <==> r == h || r in taken)
    && (forall w :: |taken| <= w < cfg.maxConcurrent ==> s.workers[w] == Inner)
  }

  lemma OneOvertakes(cfg: Config, mid: System, s: System, h: Request, taken: seq<Request>, r: Request)
    returns (s': System)
    requires cfg.maxQueue > 0 && cfg.priority && WaitsFrom(cfg, mid, s, h) && OvertakenBy(cfg, s, h, taken)
    requires |taken| < cfg.maxConcurrent && !cfg.marked(r) && r != h && r !in taken
    ensures WaitsFrom(cfg, mid, s', h) && OvertakenBy(cfg, s', h, taken + [r])
  {
    s' := Do(cfg, mid, s, h, Arrive(r));
    s' := Do(cfg, mid, s', h, Send(r));
    s' := Do(cfg, mid, s', h, TakeLow(|taken|));
  }

  lemma {:induction false} AllOvertake(cfg: Config, mid: System, h: Request, low: seq<Request>) returns (s: System)
    requires cfg.maxQueue > 0 && cfg.priority && WaitsFrom(cfg, mid, mid, h) && OvertakenBy(cfg, mid, h, [])
    requires |low| <= cfg.maxConcurrent && Normal(cfg, h, low)
    ensures WaitsFrom(cfg, mid, s, h) && OvertakenBy(cfg, s, h, low)
  {
    if low == [] {
      s := mid;
    } else {
      var n := |low| - 1;
      s := AllOvertake(cfg, mid, h, low[..n]);
      s := OneOvertakes(cfg, mid, s, h, low[..n], low[n]);
      assert low[..n] + [low[n]] == low;
    }
  }

  /** Different requests without the priority mark. */
  ghost predicate Normal(cfg: Config, h: Request, low: seq<Request>) {
    && (forall i :: 0 <= i < |low| ==> !cfg.marked(low[i]) && low[i] != h)
    && (forall i, j :: 0 <= i < j < |low| ==> low[i] != low[j])
  }

  /** While one high-priority request waits, as many normal requests as there are workers can be
      dequeued before it. */
  lemma OvertakingIsAttained(cfg: Config, h: Request, low: seq<Request>)
    requires cfg.maxConcurrent > 0 && cfg.maxQueue > 0 && cfg.priority && cfg.marked(h)
    requires |low| == cfg.maxConcurrent && Normal(cfg, h, low)
    ensures exists mid, s | WaitsFrom(cfg, mid, s, h) :: |s.deqLow| - |mid.deqLow| == cfg.maxConcurrent
  {
    var mid := Arrives(cfg, h);
    var s := AllOvertake(cfg, mid, h, low);
  }
}
