/**
 What becomes of a request whose caller was denied.  The caller leaves; a request it has sent
 stays.  The theorems say exactly which requests can still run in some continuation.
 */
module DeniedRequests {
  import opened Bulkhead
  import opened BulkheadProtocol

  /** A continuation from s in which the request has started at the end. */
  ghost predicate RunsAlong(cfg: Config, s: System, es: seq<Event>, ss: seq<System>, r: Request) {
    IsPath(cfg, es, ss) && ss[0] == s && r in ss[|es|].started
  }

  ghost predicate CanRun(cfg: Config, s: System, r: Request) {
    exists es, ss :: RunsAlong(cfg, s, es, ss, r)
  }

  lemma StartedCanRun(cfg: Config, s: System, r: Request)
    requires r in s.started
    ensures CanRun(cfg, s, r)
  {
    assert RunsAlong(cfg, s, [], [s], r);
  }

  lemma CanRunAfterStep(cfg: Config, s: System, e: Event, r: Request)
    requires Enabled(cfg, s, e) && CanRun(cfg, Apply(cfg, s, e), r)
    ensures CanRun(cfg, s, r)
  {
    var es, ss :| RunsAlong(cfg, Apply(cfg, s, e), es, ss, r);
    var es', ss' := [e] + es, [s] + ss;
    forall i {:trigger es'[i]} | 0 <= i < |es'|
      ensures Enabled(cfg, ss'[i], es'[i]) && ss'[i + 1] == Apply(cfg, ss'[i], es'[i])
    {
      if i > 0 {
        assert es'[i] == es[i - 1];
      }
    }
    assert ss'[|es'|] == ss[|es|];
    assert RunsAlong(cfg, s, es', ss', r);
  }

  // ----- The condition -----

  /** How many requests are before the first r in a queue. */
  function Ahead(q: seq<Request>, r: Request): nat {
    if q == [] || q[0] == r then 0 else 1 + Ahead(q[1..], r)
  }

  lemma {:induction false} AheadOfAppended(q: seq<Request>, x: Request, r: Request)
    requires r in q
    ensures Ahead(q + [x], r) == Ahead(q, r)
  {
    if q[0] != r {
      assert r in q[1..];
      AheadOfAppended(q[1..], x, r);
      assert (q + [x])[1..] == q[1..] + [x];
    }
  }

  predicate Carries(w: Worker, r: Request) {
    w == Taken(r) || w == Announced(r)
  }

  ghost predicate Carried(s: System, r: Request) {
    exists w :: 0 <= w < |s.workers| && Carries(s.workers[w], r)
  }

  ghost predicate SomeWorkerLeft(s: System) {
    exists w :: 0 <= w < |s.workers| && s.workers[w] != Stopped
  }

  /** The request has started, or a worker is about to start it, or it waits where some worker can
      still fetch it.  After Close a worker that prefers the high queue takes from the normal queue
      only if it waited at both when the bulkhead closed, and then only once. */
  ghost predicate Startable(cfg: Config, s: System, r: Request) {
    || r in s.started
    || Carried(s, r)
    || (r in s.sh.highQ && SomeWorkerLeft(s))
    || (r in s.sh.queue &&
        if cfg.priority && s.sh.quit then Ahead(s.sh.queue, r) < InnerWorkers(s.workers) else SomeWorkerLeft(s))
  }

  // ----- Necessary -----

  lemma {:induction false} InnerWorkerExists(ws: seq<Worker>) returns (w: nat)
    requires InnerWorkers(ws) > 0
    ensures w < |ws| && ws[w].Inner?
  {
    if ws[0].Inner? {
      w := 0;
    } else {
      w := InnerWorkerExists(ws[1..]);
      w := w + 1;
    }
  }

  lemma InnerWorkerLeft(s: System)
    requires InnerWorkers(s.workers) > 0
    ensures SomeWorkerLeft(s)
  {
    var w := InnerWorkerExists(s.workers);
    assert s.workers[w] != Stopped;
  }

  /** A worker that stands somewhere after a step had not stopped before it. */
  lemma WorkersLeftBefore(cfg: Config, s: System, e: Event)
    requires Enabled(cfg, s, e) && SomeWorkerLeft(Apply(cfg, s, e))
    ensures SomeWorkerLeft(s)
  {
    var s' := Apply(cfg, s, e);
    var w :| 0 <= w < |s'.workers| && s'.workers[w] != Stopped;
    assert s.workers[w] != Stopped;
  }

  lemma CarriedBefore(cfg: Config, s: System, e: Event, r: Request)
    requires Invariant(cfg, s) && Enabled(cfg, s, e) && Accepted(s, r) > 0
    requires Carried(Apply(cfg, s, e), r)
    ensures Startable(cfg, s, r)
  {
    var s' := Apply(cfg, s, e);
    var w :| 0 <= w < |s'.workers| && Carries(s'.workers[w], r);
    if !Carries(s.workers[w], r) {
      FetchedBefore(cfg, s, e, w, r);
      assert s.workers[w] != Stopped;
      if e.TakeLow? && cfg.priority {
        InnerUpdate(s.workers, w, Taken(r));
      }
    }
  }

  /** A worker that has just come to carry the request took it from the head of a queue. */
  lemma FetchedBefore(cfg: Config, s: System, e: Event, w: nat, r: Request)
    requires AcceptedOnce(s, r) && Enabled(cfg, s, e) && Accepted(s, r) > 0 && w < |s.workers|
    requires Carries(Apply(cfg, s, e).workers[w], r) && !Carries(s.workers[w], r)
    ensures e == TakeHigh(w) || e == TakeLow(w)
    ensures e.TakeHigh? ==> s.sh.highQ[0] == r
    ensures e.TakeLow? ==> s.sh.queue[0] == r && AtLowReceive(cfg, s.workers[w])
    ensures !s.workers[w].Stopped?
  {
  }

  lemma LowBefore(cfg: Config, s: System, e: Event, r: Request)
    requires Invariant(cfg, s) && Enabled(cfg, s, e) && Accepted(s, r) > 0
    requires cfg.priority && Apply(cfg, s, e).sh.quit && r in Apply(cfg, s, e).sh.queue
    requires Ahead(Apply(cfg, s, e).sh.queue, r) < InnerWorkers(Apply(cfg, s, e).workers)
    ensures Startable(cfg, s, r)
  {
    WaitedBefore(cfg, s, e, r);
    if e.Close? {
      InnerWorkerLeft(s);
    } else {
      if e.TakeLow? {
        RequestsCounted(cfg, s, r);
      } else {
        AheadKept(cfg, s, e, r);
      }
      InnerFalls(cfg, s, e);
    }
  }

  /** Only a take from the normal queue brings a request in it forward. */
  lemma AheadKept(cfg: Config, s: System, e: Event, r: Request)
    requires Enabled(cfg, s, e) && !e.TakeLow? && r in s.sh.queue
    ensures Ahead(Apply(cfg, s, e).sh.queue, r) == Ahead(s.sh.queue, r)
  {
    if e.Send? {
      AheadOfAppended(s.sh.queue, e.r, r);
    }
  }

  /** Once the bulkhead is closed no worker comes to wait at both queues; a take from the normal queue
      uses one up. */
  lemma InnerFalls(cfg: Config, s: System, e: Event)
    requires Enabled(cfg, s, e) && cfg.priority && s.sh.quit
    ensures InnerWorkers(Apply(cfg, s, e).workers) <= InnerWorkers(s.workers) - if e.TakeLow? then 1 else 0
  {
    if !e.Arrive? && !e.Send? && !e.Notice? && !e.Collect? && !e.GiveUp? && !e.Close? {
      InnerUpdate(s.workers, e.w, Apply(cfg, s, e).workers[e.w]);
    }
  }

  lemma StartableBefore(cfg: Config, s: System, e: Event, r: Request)
    requires Invariant(cfg, s) && Enabled(cfg, s, e) && Accepted(s, r) > 0
    requires Startable(cfg, Apply(cfg, s, e), r)
    ensures Startable(cfg, s, r)
  {
    var s' := Apply(cfg, s, e);
    if r in s'.started {
      StartedBefore(cfg, s, e, r);
    } else if Carried(s', r) {
      CarriedBefore(cfg, s, e, r);
    } else if cfg.priority && s'.sh.quit && !(r in s'.sh.highQ && SomeWorkerLeft(s')) {
      LowBefore(cfg, s, e, r);
    } else {
      WorkersLeftBefore(cfg, s, e);
      WaitedBefore(cfg, s, e, r);
    }
  }

  lemma StartedBefore(cfg: Config, s: System, e: Event, r: Request)
    requires Enabled(cfg, s, e) && r in Apply(cfg, s, e).started
    ensures r in s.started || Carried(s, r)
  {
    if r !in s.started {
      assert Carries(s.workers[e.w], r);
    }
  }

  /** A request that was accepted and is in a queue was in it before. */
  lemma WaitedBefore(cfg: Config, s: System, e: Event, r: Request)
    requires AcceptedOnce(s, r) && Enabled(cfg, s, e) && Accepted(s, r) > 0
    ensures r in Apply(cfg, s, e).sh.highQ ==> r in s.sh.highQ
    ensures r in Apply(cfg, s, e).sh.queue ==> r in s.sh.queue
    ensures s.sh.quit ==> Apply(cfg, s, e).sh.quit
  {
  }

  lemma TailOfPath(cfg: Config, es: seq<Event>, ss: seq<System>)
    requires IsPath(cfg, es, ss) && es != []
    ensures Enabled(cfg, ss[0], es[0]) && ss[1] == Apply(cfg, ss[0], es[0])
    ensures IsPath(cfg, es[1..], ss[1..])
  {
    var es', ss' := es[1..], ss[1..];
    forall i {:trigger es'[i]} | 0 <= i < |es'|
      ensures Enabled(cfg, ss'[i], es'[i]) && ss'[i + 1] == Apply(cfg, ss'[i], es'[i])
    {
      assert es'[i] == es[i + 1];
    }
  }

  lemma {:induction false} RunnersWereStartable(cfg: Config, es: seq<Event>, ss: seq<System>, r: Request)
    requires IsPath(cfg, es, ss) && Invariant(cfg, ss[0]) && Accepted(ss[0], r) > 0 && r in ss[|es|].started
    ensures Startable(cfg, ss[0], r)
  {
    if es != [] {
      TailOfPath(cfg, es, ss);
      StepKeepsInvariant(cfg, ss[0], es[0]);
      RunnersWereStartable(cfg, es[1..], ss[1..], r);
      StartableBefore(cfg, ss[0], es[0], r);
    }
  }

  // ----- Sufficient -----

  /** Worker w can fetch the request, or has it. */
  predicate Reaches(cfg: Config, s: System, r: Request, w: nat) {
    && w < |s.workers| && s.workers[w] != Stopped
    && (Carries(s.workers[w], r) || r in s.sh.highQ || (r in s.sh.queue && !(cfg.priority && s.sh.quit)))
  }

  /** What worker w does next on its way. */
  function NextMove(cfg: Config, s: System, w: nat): Event
    requires w < |s.workers| && s.workers[w] != Stopped
  {
    match s.workers[w]
    case Taken(_) => Announce(w)
    case Announced(_) => Begin(w)
    case Running(_) => End(w)
    case Delivering(_) => Deliver(w)
    case Outer => if s.sh.highQ != [] then TakeHigh(w) else if cfg.priority then Poll(w) else TakeLow(w)
    case _ => if s.sh.highQ != [] then TakeHigh(w) else TakeLow(w)
  }

  /** How many requests worker w fetches before it has this one. */
  function Distance(s: System, r: Request, w: nat): nat
    requires w < |s.workers|
  {
    if Carries(s.workers[w], r) then 0
    else if r in s.sh.highQ then 1 + Ahead(s.sh.highQ, r)
    else 1 + |s.sh.highQ| + Ahead(s.sh.queue, r)
  }

  function StepsToFetch(w: Worker): nat {
    match w
    case Taken(_) => 6
    case Announced(_) => 5
    case Running(_) => 4
    case Delivering(_) => 3
    case Outer => 2
    case _ => 1
  }

  lemma NextMoveProgresses(cfg: Config, s: System, r: Request, w: nat)
    requires Invariant(cfg, s) && Reaches(cfg, s, r, w)
    ensures Enabled(cfg, s, NextMove(cfg, s, w))
    ensures var s' := Apply(cfg, s, NextMove(cfg, s, w));
            || r in s'.started
            || (Reaches(cfg, s', r, w) &&
                (Distance(s', r, w) < Distance(s, r, w) ||
                 (Distance(s', r, w) == Distance(s, r, w) && StepsToFetch(s'.workers[w]) < StepsToFetch(s.workers[w]))))
  {
    WorkerCanMove(cfg, s, w);
    assert WorkerFits(cfg, s, s.workers[w]);
  }

  lemma {:induction false} ReachedCanRun(cfg: Config, s: System, r: Request, w: nat)
    requires Invariant(cfg, s) && Reaches(cfg, s, r, w)
    ensures CanRun(cfg, s, r)
    decreases Distance(s, r, w), StepsToFetch(s.workers[w])
  {
    var e := NextMove(cfg, s, w);
    NextMoveProgresses(cfg, s, r, w);
    var s' := Apply(cfg, s, e);
    if r in s'.started {
      StartedCanRun(cfg, s', r);
    } else {
      StepKeepsInvariant(cfg, s, e);
      ReachedCanRun(cfg, s', r, w);
    }
    CanRunAfterStep(cfg, s, e, r);
  }

  /** After Close each worker that waits at both queues can still take one normal request. */
  lemma {:induction false} AheadCanRun(cfg: Config, s: System, r: Request)
    requires Invariant(cfg, s) && cfg.priority && r in s.sh.queue
    requires Ahead(s.sh.queue, r) < InnerWorkers(s.workers)
    ensures CanRun(cfg, s, r)
    decreases Ahead(s.sh.queue, r)
  {
    var w := InnerWorkerExists(s.workers);
    var e := TakeLow(w);
    var s' := Apply(cfg, s, e);
    StepKeepsInvariant(cfg, s, e);
    if s.sh.queue[0] == r {
      ReachedCanRun(cfg, s', r, w);
    } else {
      InnerUpdate(s.workers, w, s'.workers[w]);
      AheadCanRun(cfg, s', r);
    }
    CanRunAfterStep(cfg, s, e, r);
  }

  lemma StartableCanRun(cfg: Config, s: System, r: Request)
    requires Invariant(cfg, s) && Startable(cfg, s, r)
    ensures CanRun(cfg, s, r)
  {
    if r in s.started {
      StartedCanRun(cfg, s, r);
    } else if Carried(s, r) {
      var w :| 0 <= w < |s.workers| && Carries(s.workers[w], r);
      ReachedCanRun(cfg, s, r, w);
    } else if cfg.priority && s.sh.quit && !(r in s.sh.highQ && SomeWorkerLeft(s)) {
      AheadCanRun(cfg, s, r);
    } else {
      var w :| 0 <= w < |s.workers| && s.workers[w] != Stopped;
      ReachedCanRun(cfg, s, r, w);
    }
  }

  // ----- Theorems about every run -----

  /** An accepted request can still run, in some continuation, exactly when it is startable. */
  lemma AcceptedRunsIff(cfg: Config, es: seq<Event>, ss: seq<System>, i: nat, r: Request)
    requires IsRun(cfg, es, ss) && i < |ss| && Accepted(ss[i], r) > 0
    ensures CanRun(cfg, ss[i], r) <==> Startable(cfg, ss[i], r)
  {
    InvariantHolds(cfg, es, ss, i);
    if CanRun(cfg, ss[i], r) {
      var es', ss' :| RunsAlong(cfg, ss[i], es', ss', r);
      RunnersWereStartable(cfg, es', ss', r);
    }
    if Startable(cfg, ss[i], r) {
      StartableCanRun(cfg, ss[i], r);
    }
  }

  lemma {:induction false} HolderExists(ws: seq<Worker>, r: Request) returns (w: nat)
    requires Held(ws, 0, r) > 0 && Held(ws, 2, r) == 0
    ensures w < |ws| && Carries(ws[w], r)
  {
    if Holds(ws[0], 0, r) > 0 {
      w := 0;
    } else {
      w := HolderExists(ws[1..], r);
      w := w + 1;
    }
  }

  /** Until the bulkhead is closed every accepted request is startable. */
  lemma StartableUntilClosed(cfg: Config, s: System, r: Request)
    requires Invariant(cfg, s) && !s.sh.quit && cfg.maxConcurrent > 0 && Accepted(s, r) > 0
    ensures Startable(cfg, s, r)
  {
    RequestsCounted(cfg, s, r);
    assert Conserved(s, 2, r);
    assert WorkerFits(cfg, s, s.workers[0]);
    if r !in s.started && Held(s.workers, 0, r) > 0 {
      var w := HolderExists(s.workers, r);
      assert Carried(s, r);
    }
  }

  /** The caller has left without sending. */
  ghost predicate LeftUnsent(s: System, r: Request) {
    r in s.arrived && r !in s.callers && Accepted(s, r) == 0
  }

  lemma {:induction false} UnsentNeverRuns(cfg: Config, es: seq<Event>, ss: seq<System>, r: Request)
    requires IsPath(cfg, es, ss) && Invariant(cfg, ss[0]) && LeftUnsent(ss[0], r)
    ensures r !in ss[|es|].started
  {
    if es == [] {
      StartedWasAccepted(cfg, ss[0], r);
    } else {
      TailOfPath(cfg, es, ss);
      StepKeepsInvariant(cfg, ss[0], es[0]);
      UnsentNeverRuns(cfg, es[1..], ss[1..], r);
    }
  }

  /** A caller is denied.  If it had not sent its request, the request was never accepted and never
      runs.  If it had, the request can still run exactly when it is startable; until the bulkhead is
      closed, it always can. */
  lemma DeniedRequestRunsIff(cfg: Config, es: seq<Event>, ss: seq<System>, i: nat, r: Request)
    requires IsRun(cfg, es, ss) && i < |es| && es[i] == GiveUp(r)
    ensures At(ss[i], r, Sending) <==> Accepted(ss[i + 1], r) == 0
    ensures CanRun(cfg, ss[i + 1], r) <==> !At(ss[i], r, Sending) && Startable(cfg, ss[i + 1], r)
    ensures !ss[i].sh.quit ==> (CanRun(cfg, ss[i + 1], r) <==> !At(ss[i], r, Sending))
  {
    InvariantHolds(cfg, es, ss, i);
    InvariantHolds(cfg, es, ss, i + 1);
    assert Enabled(cfg, ss[i], es[i]) && ss[i + 1] == Apply(cfg, ss[i], es[i]);
    assert AcceptedOnce(ss[i], r);
    if At(ss[i], r, Sending) {
      if CanRun(cfg, ss[i + 1], r) {
        var es', ss' :| RunsAlong(cfg, ss[i + 1], es', ss', r);
        UnsentNeverRuns(cfg, es', ss', r);
      }
    } else {
      AcceptedRunsIff(cfg, es, ss, i + 1, r);
      if !ss[i].sh.quit {
        StartableUntilClosed(cfg, ss[i + 1], r);
      }
    }
  }

  lemma {:induction false} NoneInner(ws: seq<Worker>)
    requires forall w :: 0 <= w < |ws| ==> ws[w] == Outer
    ensures InnerWorkers(ws) == 0
  {
    if ws != [] {
      NoneInner(ws[1..]);
    }
  }

  /** With priorities a worker that is left does not suffice: under every such configuration Close can
      come while a normal request waits, its caller gone, and no continuation runs it. */
  lemma CloseCanStrand(cfg: Config, r: Request)
    requires cfg.maxConcurrent > 0 && cfg.maxQueue > 0 && cfg.priority && !cfg.marked(r)
    ensures exists es, ss | IsRun(cfg, es, ss) ::
              var s := ss[|es|];
              Accepted(s, r) > 0 && r !in s.callers && SomeWorkerLeft(s) && !CanRun(cfg, s, r)
  {
    var es, ss := SentThenClosed(cfg, r);
    NoneInner(ss[4].workers);
    assert ss[4].workers[0] == Outer;
    AcceptedRunsIff(cfg, es, ss, 4, r);
  }

  /** A request is sent, its caller gives up, and the bulkhead is closed. */
  lemma SentThenClosed(cfg: Config, r: Request) returns (es: seq<Event>, ss: seq<System>)
    requires cfg.maxConcurrent > 0 && cfg.maxQueue > 0 && cfg.priority && !cfg.marked(r)
    ensures IsRun(cfg, es, ss) && |es| == 4
    ensures ss[4].workers == Initial(cfg).workers && ss[4].callers == map[] && ss[4].started == []
    ensures ss[4].sh == Shared([r], [], 0, 1, true, true) && Accepted(ss[4], r) == 1
  {
    var s0 := Initial(cfg);
    var s1 := Apply(cfg, s0, Arrive(r));
    var s2 := Apply(cfg, s1, Send(r));
    var s3 := Apply(cfg, s2, GiveUp(r));
    var s4 := Apply(cfg, s3, Close);
    es, ss := [Arrive(r), Send(r), GiveUp(r), Close], [s0, s1, s2, s3, s4];
    assert s4.enqLow == [r] && s4.enqHigh == [];
  }

  // ----- Callers that still wait to send -----

  /** What happens next so that a waiting sender gets through: it sends if there is room, or is taken by
      worker w if there is no buffer, or else w makes room. */
  function MoveForSender(cfg: Config, s: System, r: Request, w: nat): Event
    requires w < |s.workers| && s.workers[w] != Stopped
  {
    if cfg.maxQueue > 0 && HasRoom(cfg, s.sh, r) then Send(r)
    else if cfg.maxQueue == 0 && AtLowReceive(cfg, s.workers[w]) then HandOver(r, w)
    else NextMove(cfg, s, w)
  }

  lemma MoveForSenderIsOpen(cfg: Config, s: System, r: Request, w: nat)
    requires Invariant(cfg, s) && At(s, r, Sending) && !s.sh.quit && w < |s.workers|
    ensures s.workers[w] != Stopped && Enabled(cfg, s, MoveForSender(cfg, s, r, w))
  {
    WorkerCanMove(cfg, s, w);
    assert WorkerFits(cfg, s, s.workers[w]);
  }

  lemma SentIsAccepted(cfg: Config, s: System, e: Event, r: Request)
    requires Enabled(cfg, s, e) && (e == Send(r) || (e.HandOver? && e.r == r))
    ensures Accepted(Apply(cfg, s, e), r) > 0 && Apply(cfg, s, e).sh.quit == s.sh.quit
  {
  }

  lemma NextMoveDrains(cfg: Config, s: System, w: nat)
    requires w < |s.workers| && s.workers[w] != Stopped && Enabled(cfg, s, NextMove(cfg, s, w))
    ensures var s' := Apply(cfg, s, NextMove(cfg, s, w));
            && s'.sh.quit == s.sh.quit && s'.callers == s.callers && |s'.workers| == |s.workers|
            && (|s'.sh.highQ| + |s'.sh.queue| < |s.sh.highQ| + |s.sh.queue| ||
                (|s'.sh.highQ| + |s'.sh.queue| == |s.sh.highQ| + |s.sh.queue| &&
                 StepsToFetch(s'.workers[w]) < StepsToFetch(s.workers[w])))
  {
  }

  lemma {:induction false} SenderCanRun(cfg: Config, s: System, r: Request, w: nat)
    requires Invariant(cfg, s) && At(s, r, Sending) && !s.sh.quit && w < |s.workers|
    ensures CanRun(cfg, s, r)
    decreases |s.sh.highQ| + |s.sh.queue|, StepsToFetch(s.workers[w])
  {
    MoveForSenderIsOpen(cfg, s, r, w);
    var e := MoveForSender(cfg, s, r, w);
    var s' := Apply(cfg, s, e);
    StepKeepsInvariant(cfg, s, e);
    if e == NextMove(cfg, s, w) {
      NextMoveDrains(cfg, s, w);
      SenderCanRun(cfg, s', r, w);
    } else {
      SentIsAccepted(cfg, s, e, r);
      StartableUntilClosed(cfg, s', r);
      StartableCanRun(cfg, s', r);
    }
    CanRunAfterStep(cfg, s, e, r);
  }

  /** Until the bulkhead is closed, every caller that waits can still have its request run, whether it
      has sent it or not and whether there is a buffer or not. */
  lemma EveryCallerCanBeServed(cfg: Config, es: seq<Event>, ss: seq<System>, i: nat, r: Request)
    requires IsRun(cfg, es, ss) && i < |ss| && r in ss[i].callers && !ss[i].sh.quit
    ensures CanRun(cfg, ss[i], r)
  {
    InvariantHolds(cfg, es, ss, i);
    assert AcceptedOnce(ss[i], r);
    if ss[i].callers[r] == Sending {
      SenderCanRun(cfg, ss[i], r, 0);
    } else {
      StartableUntilClosed(cfg, ss[i], r);
      StartableCanRun(cfg, ss[i], r);
    }
  }

  // ----- Shutting down -----

  ghost predicate AllStopped(s: System) {
    forall w :: 0 <= w < |s.workers| ==> s.workers[w] == Stopped
  }

  ghost predicate StopsAlong(cfg: Config, s: System, es: seq<Event>, ss: seq<System>) {
    IsPath(cfg, es, ss) && ss[0] == s && AllStopped(ss[|es|])
  }

  ghost predicate CanStop(cfg: Config, s: System) {
    exists es, ss :: StopsAlong(cfg, s, es, ss)
  }

  lemma CanStopAfterStep(cfg: Config, s: System, e: Event)
    requires Enabled(cfg, s, e) && CanStop(cfg, Apply(cfg, s, e))
    ensures CanStop(cfg, s)
  {
    var es, ss :| StopsAlong(cfg, Apply(cfg, s, e), es, ss);
    var es', ss' := [e] + es, [s] + ss;
    forall i {:trigger es'[i]} | 0 <= i < |es'|
      ensures Enabled(cfg, ss'[i], es'[i]) && ss'[i + 1] == Apply(cfg, ss'[i], es'[i])
    {
      if i > 0 {
        assert es'[i] == es[i - 1];
      }
    }
    assert ss'[|es'|] == ss[|es|];
    assert StopsAlong(cfg, s, es', ss');
  }

  /** What a worker of a closed bulkhead does to come to its end. */
  function MoveToStop(s: System, w: nat): Event
    requires w < |s.workers| && s.workers[w] != Stopped
  {
    match s.workers[w]
    case Taken(_) => Announce(w)
    case Announced(_) => Begin(w)
    case Running(_) => End(w)
    case Delivering(_) => Deliver(w)
    case _ => Quit(w)
  }

  lemma MoveToStopProgresses(cfg: Config, s: System, w: nat)
    requires Invariant(cfg, s) && s.sh.quit && w < |s.workers| && s.workers[w] != Stopped
    ensures Enabled(cfg, s, MoveToStop(s, w))
    ensures var s' := Apply(cfg, s, MoveToStop(s, w));
            && s'.sh.quit && |s'.workers| == |s.workers|
            && (forall v :: w < v < |s.workers| ==> s'.workers[v] == s.workers[v])
            && (s'.workers[w] == Stopped || StepsToFetch(s'.workers[w]) < StepsToFetch(s.workers[w]))
  {
    WorkerCanMove(cfg, s, w);
  }

  lemma {:induction false} WorkersCanStop(cfg: Config, s: System, w: nat)
    requires Invariant(cfg, s) && s.sh.quit && w <= |s.workers|
    requires forall v :: w <= v < |s.workers| ==> s.workers[v] == Stopped
    ensures CanStop(cfg, s)
    decreases w, if w > 0 && s.workers[w - 1] != Stopped then StepsToFetch(s.workers[w - 1]) else 0
  {
    if w == 0 {
      assert StopsAlong(cfg, s, [], [s]);
    } else if s.workers[w - 1] == Stopped {
      WorkersCanStop(cfg, s, w - 1);
    } else {
      var e := MoveToStop(s, w - 1);
      MoveToStopProgresses(cfg, s, w - 1);
      StepKeepsInvariant(cfg, s, e);
      var s' := Apply(cfg, s, e);
      if s'.workers[w - 1] == Stopped {
        WorkersCanStop(cfg, s', w - 1);
      } else {
        WorkersCanStop(cfg, s', w);
      }
      CanStopAfterStep(cfg, s, e);
    }
  }

  /** A closed bulkhead can come to rest: from every state some continuation ends all workers. */
  lemma ClosedCanStop(cfg: Config, es: seq<Event>, ss: seq<System>, i: nat)
    requires IsRun(cfg, es, ss) && i < |ss| && ss[i].sh.quit
    ensures CanStop(cfg, ss[i])
  {
    InvariantHolds(cfg, es, ss, i);
    WorkersCanStop(cfg, ss[i], |ss[i].workers|);
  }
}
