/**
 The workers of one bulkhead and any number of callers, interleaved between their atomic actions.

 A blocked send or receive is an event that is not enabled yet; a timeout or a cancelled context
 may strike a caller at any moment.  The fields from `arrived` on record what happened; of these
 the program keeps only what each request's own channels show.
 */
module BulkheadProtocol {
  import opened Bulkhead

  datatype Worker =
    | Outer                   // at the head of the loop
    | Inner                   // polled the high queue in vain; in the blocking select
    | Taken(r: Request)       // received a request
    | Announced(r: Request)   // closed its `dequeued` channel
    | Running(r: Request)     // in the call
    | Delivering(r: Request)  // the call returned; about to send the result
    | Stopped

  datatype Caller =
    | Sending
    | Queued
    | Awaiting

  datatype System = System(
    sh: Shared,
    workers: seq<Worker>,
    callers: map<Request, Caller>,
    announced: seq<Request>,     // whose `dequeued` channel is closed, in the order of the closings
    results: set<Request>,       // whose result channel, of one place, holds a value
    arrived: set<Request>,
    enqHigh: seq<Request>,
    deqHigh: seq<Request>,
    enqLow: seq<Request>,
    deqLow: seq<Request>,
    started: seq<Request>,
    ended: seq<Request>,
    finished: seq<Request>)

  datatype Event =
    | Arrive(r: Request)
    | Send(r: Request)
    | HandOver(r: Request, w: nat)
    | Notice(r: Request)
    | Collect(r: Request)
    | GiveUp(r: Request)
    | Poll(w: nat)
    | TakeHigh(w: nat)
    | TakeLow(w: nat)
    | Announce(w: nat)
    | Begin(w: nat)
    | End(w: nat)
    | Deliver(w: nat)
    | Quit(w: nat)
    | Close

  function Initial(cfg: Config): System {
    System(INITIAL, seq(cfg.maxConcurrent, _ => Outer), map[], [], {}, {}, [], [], [], [], [], [], [])
  }

  /** Whether a worker is at the receive that takes from the normal queue. */
  predicate AtLowReceive(cfg: Config, w: Worker) {
    if cfg.priority then w.Inner? else w.Outer?
  }

  predicate At(s: System, r: Request, stage: Caller) {
    r in s.callers && s.callers[r] == stage
  }

  predicate Enabled(cfg: Config, s: System, e: Event) {
    match e
    case Arrive(r) => !s.sh.closed && r !in s.arrived
    case Send(r) => At(s, r, Sending) && cfg.maxQueue > 0 && HasRoom(cfg, s.sh, r)
    case HandOver(r, w) => At(s, r, Sending) && cfg.maxQueue == 0 && w < |s.workers| && AtLowReceive(cfg, s.workers[w])
    case Notice(r) => At(s, r, Queued) && r in s.announced
    case Collect(r) => At(s, r, Awaiting) && r in s.results
    case GiveUp(r) => r in s.callers
    case Poll(w) => w < |s.workers| && cfg.priority && s.workers[w].Outer? && s.sh.highQ == [] && !s.sh.quit
    case TakeHigh(w) =>
      w < |s.workers| && cfg.priority && (s.workers[w].Outer? || s.workers[w].Inner?) && s.sh.highQ != []
    case TakeLow(w) => w < |s.workers| && AtLowReceive(cfg, s.workers[w]) && s.sh.queue != []
    case Announce(w) => w < |s.workers| && s.workers[w].Taken?
    case Begin(w) => w < |s.workers| && s.workers[w].Announced?
    case End(w) => w < |s.workers| && s.workers[w].Running? && s.sh.inFlight > 0
    case Deliver(w) => w < |s.workers| && s.workers[w].Delivering? && s.workers[w].r !in s.results
    case Quit(w) => w < |s.workers| && (s.workers[w].Outer? || s.workers[w].Inner?) && s.sh.quit
    case Close => true
  }

  function Apply(cfg: Config, s: System, e: Event): System
    requires Enabled(cfg, s, e)
  {
    match e
    case Arrive(r) => s.(arrived := s.arrived + {r}, callers := s.callers[r := Sending])
    case Send(r) =>
      var s1 := s.(sh := Enqueue(cfg, s.sh, r), callers := s.callers[r := Queued]);
      if GoesHigh(cfg, r) then s1.(enqHigh := s.enqHigh + [r]) else s1.(enqLow := s.enqLow + [r])
    case HandOver(r, w) =>
      s.(callers := s.callers[r := Awaiting], workers := s.workers[w := Taken(r)],
         enqLow := s.enqLow + [r], deqLow := s.deqLow + [r])
    case Notice(r) => s.(callers := s.callers[r := Awaiting])
    case Collect(r) => s.(callers := s.callers - {r}, results := s.results - {r})
    case GiveUp(r) => s.(callers := s.callers - {r}, sh := Denied(s.sh))
    case Poll(w) => s.(workers := s.workers[w := Inner])
    case TakeHigh(w) =>
      var r := s.sh.highQ[0];
      s.(workers := s.workers[w := Taken(r)], sh := DequeueHigh(s.sh), deqHigh := s.deqHigh + [r])
    case TakeLow(w) =>
      var r := s.sh.queue[0];
      s.(workers := s.workers[w := Taken(r)], sh := DequeueLow(s.sh), deqLow := s.deqLow + [r])
    case Announce(w) =>
      var r := s.workers[w].r;
      s.(workers := s.workers[w := Announced(r)], announced := s.announced + [r])
    case Begin(w) =>
      var r := s.workers[w].r;
      s.(workers := s.workers[w := Running(r)], sh := Began(s.sh), started := s.started + [r])
    case End(w) =>
      var r := s.workers[w].r;
      s.(workers := s.workers[w := Delivering(r)], sh := Ended(s.sh), ended := s.ended + [r])
    case Deliver(w) =>
      var r := s.workers[w].r;
      s.(workers := s.workers[w := Outer], results := s.results + {r}, finished := s.finished + [r])
    case Quit(w) => s.(workers := s.workers[w := Stopped])
    case Close => s.(sh := ShutDown(s.sh))
  }

  ghost predicate IsPath(cfg: Config, es: seq<Event>, ss: seq<System>) {
    && |ss| == |es| + 1
    && forall i {:trigger es[i]} :: 0 <= i < |es| ==>
      Enabled(cfg, ss[i], es[i]) && ss[i + 1] == Apply(cfg, ss[i], es[i])
  }

  ghost predicate IsRun(cfg: Config, es: seq<Event>, ss: seq<System>) {
    cfg.maxConcurrent > 0 && IsPath(cfg, es, ss) && ss[0] == Initial(cfg)
  }

  // ----- Counting a request -----

  /** How often r occurs in a log. */
  function Count(q: seq<Request>, r: Request): nat {
    multiset(q)[r]
  }

  /** How far a worker is with the request it holds. */
  function Progress(w: Worker): int {
    match w
    case Taken(_) => 0
    case Announced(_) => 1
    case Running(_) => 2
    case Delivering(_) => 3
    case _ => -1
  }

  function Holds(w: Worker, level: nat, r: Request): nat {
    if Progress(w) >= level && w.r == r then 1 else 0
  }

  /** How many workers hold r and are at least so far with it. */
  function Held(ws: seq<Worker>, level: nat, r: Request): nat {
    if ws == [] then 0 else Holds(ws[0], level, r) + Held(ws[1..], level, r)
  }

  lemma {:induction false} HeldUpdate(ws: seq<Worker>, w: nat, pc: Worker, level: nat, r: Request)
    requires w < |ws|
    ensures Held(ws[w := pc], level, r) == Held(ws, level, r) - Holds(ws[w], level, r) + Holds(pc, level, r)
    ensures Held(ws, level, r) >= Holds(ws[w], level, r)
  {
    if w == 0 {
      assert ws[w := pc][1..] == ws[1..];
    } else {
      HeldUpdate(ws[1..], w - 1, pc, level, r);
      assert ws[w := pc][1..] == ws[1..][w - 1 := pc];
    }
  }

  lemma {:induction false} NothingHeldAtFirst(ws: seq<Worker>, level: nat, r: Request)
    requires forall w :: 0 <= w < |ws| ==> ws[w] == Outer
    ensures Held(ws, level, r) == 0
  {
    if ws != [] {
      NothingHeldAtFirst(ws[1..], level, r);
    }
  }

  /** How many workers are in the call. */
  function RunningWorkers(ws: seq<Worker>): nat {
    if ws == [] then 0 else (if ws[0].Running? then 1 else 0) + RunningWorkers(ws[1..])
  }

  lemma {:induction false} RunningUpdate(ws: seq<Worker>, w: nat, pc: Worker)
    requires w < |ws|
    ensures RunningWorkers(ws[w := pc])
              == RunningWorkers(ws) - (if ws[w].Running? then 1 else 0) + (if pc.Running? then 1 else 0)
    ensures ws[w].Running? ==> RunningWorkers(ws) > 0
  {
    if w == 0 {
      assert ws[w := pc][1..] == ws[1..];
    } else {
      RunningUpdate(ws[1..], w - 1, pc);
      assert ws[w := pc][1..] == ws[1..][w - 1 := pc];
    }
  }

  lemma {:induction false} RunningAtMostAll(ws: seq<Worker>)
    ensures RunningWorkers(ws) <= |ws|
    ensures (forall w :: 0 <= w < |ws| ==> ws[w] == Outer) ==> RunningWorkers(ws) == 0
  {
    if ws != [] {
      RunningAtMostAll(ws[1..]);
    }
  }

  // ----- The invariant -----

  ghost predicate Fifo(cfg: Config, s: System) {
    && s.deqHigh + s.sh.highQ == s.enqHigh
    && s.deqLow + s.sh.queue == s.enqLow
    && |s.sh.highQ| <= cfg.maxQueue && |s.sh.queue| <= cfg.maxQueue
    && (!cfg.priority ==> s.sh.highQ == [])
  }

  function Accepted(s: System, r: Request): nat {
    Count(s.enqHigh, r) + Count(s.enqLow, r)
  }

  predicate AcceptedOnce(s: System, r: Request) {
    && Accepted(s, r) <= 1
    && (Accepted(s, r) > 0 ==> r in s.arrived && !At(s, r, Sending))
    && (r in s.callers ==> r in s.arrived)
    && (r in s.callers && s.callers[r] != Sending ==> Accepted(s, r) > 0)
  }

  /** How often r came as far as `level`. */
  function Reached(s: System, level: nat, r: Request): nat {
    match level
    case 0 => Count(s.deqHigh, r) + Count(s.deqLow, r)
    case 1 => Count(s.announced, r)
    case 2 => Count(s.started, r)
    case _ => Count(s.ended, r)
  }

  /** Whatever came so far is still with a worker or finished. */
  predicate Conserved(s: System, level: nat, r: Request) {
    Reached(s, level, r) == Held(s.workers, level, r) + Count(s.finished, r)
  }

  /** Only with priorities is there an inner select, and only a quit worker has stopped. */
  predicate WorkerFits(cfg: Config, s: System, w: Worker) {
    (w.Inner? ==> cfg.priority) && (w.Stopped? ==> s.sh.quit)
  }

  ghost predicate Invariant(cfg: Config, s: System) {
    && |s.workers| == cfg.maxConcurrent
    && (forall w :: 0 <= w < |s.workers| ==> WorkerFits(cfg, s, s.workers[w]))
    && Fifo(cfg, s)
    && (forall r :: AcceptedOnce(s, r))
    && (forall level, r :: 0 <= level <= 3 ==> Conserved(s, level, r))
    && (forall r :: r in s.results ==> r in s.finished)
    && s.sh.inFlight == RunningWorkers(s.workers)
  }

  lemma StepKeepsHighFifo(cfg: Config, s: System, e: Event)
    requires Fifo(cfg, s) && Enabled(cfg, s, e)
    ensures var s' := Apply(cfg, s, e);
            && s'.deqHigh + s'.sh.highQ == s'.enqHigh && |s'.sh.highQ| <= cfg.maxQueue
            && (!cfg.priority ==> s'.sh.highQ == [])
  {
  }

  lemma StepKeepsLowFifo(cfg: Config, s: System, e: Event)
    requires Fifo(cfg, s) && Enabled(cfg, s, e)
    ensures var s' := Apply(cfg, s, e);
            s'.deqLow + s'.sh.queue == s'.enqLow && |s'.sh.queue| <= cfg.maxQueue
  {
  }

  lemma StepKeepsFifo(cfg: Config, s: System, e: Event)
    requires Fifo(cfg, s) && Enabled(cfg, s, e)
    ensures Fifo(cfg, Apply(cfg, s, e)) && |Apply(cfg, s, e).workers| == |s.workers|
  {
    StepKeepsHighFifo(cfg, s, e);
    StepKeepsLowFifo(cfg, s, e);
  }

  lemma StepKeepsAcceptedOnce(cfg: Config, s: System, e: Event, r: Request)
    requires AcceptedOnce(s, r) && Enabled(cfg, s, e)
    ensures AcceptedOnce(Apply(cfg, s, e), r)
  {
  }

  lemma StepKeepsWorkersFit(cfg: Config, s: System, e: Event)
    requires Enabled(cfg, s, e) && forall w :: 0 <= w < |s.workers| ==> WorkerFits(cfg, s, s.workers[w])
    ensures var s' := Apply(cfg, s, e);
            && (s.sh.quit ==> s'.sh.quit)
            && forall w :: 0 <= w < |s'.workers| ==> WorkerFits(cfg, s', s'.workers[w])
  {
    var s' := Apply(cfg, s, e);
    forall w | 0 <= w < |s'.workers|
      ensures WorkerFits(cfg, s', s'.workers[w])
    {
      assert WorkerFits(cfg, s, s.workers[w]);
    }
  }

  lemma HandOverConserves(cfg: Config, s: System, x: Request, w: nat, level: nat, r: Request)
    requires Conserved(s, level, r) && Enabled(cfg, s, HandOver(x, w)) && level <= 3
    ensures Conserved(Apply(cfg, s, HandOver(x, w)), level, r)
  {
    HeldUpdate(s.workers, w, Taken(x), level, r);
  }

  lemma TakeConserves(cfg: Config, s: System, e: Event, level: nat, r: Request)
    requires Conserved(s, level, r) && Enabled(cfg, s, e) && level <= 3
    requires e.TakeHigh? || e.TakeLow?
    ensures Conserved(Apply(cfg, s, e), level, r)
  {
    var x := if e.TakeHigh? then s.sh.highQ[0] else s.sh.queue[0];
    HeldUpdate(s.workers, e.w, Taken(x), level, r);
  }

  lemma AnnounceConserves(cfg: Config, s: System, w: nat, level: nat, r: Request)
    requires Conserved(s, level, r) && Enabled(cfg, s, Announce(w)) && level <= 3
    ensures Conserved(Apply(cfg, s, Announce(w)), level, r)
  {
    var x := s.workers[w].r;
    HeldUpdate(s.workers, w, Announced(x), level, r);
  }

  lemma BeginConserves(cfg: Config, s: System, w: nat, level: nat, r: Request)
    requires Conserved(s, level, r) && Enabled(cfg, s, Begin(w)) && level <= 3
    ensures Conserved(Apply(cfg, s, Begin(w)), level, r)
  {
    var x := s.workers[w].r;
    HeldUpdate(s.workers, w, Running(x), level, r);
  }

  lemma EndConserves(cfg: Config, s: System, w: nat, level: nat, r: Request)
    requires Conserved(s, level, r) && Enabled(cfg, s, End(w)) && level <= 3
    ensures Conserved(Apply(cfg, s, End(w)), level, r)
  {
    var x := s.workers[w].r;
    HeldUpdate(s.workers, w, Delivering(x), level, r);
  }

  lemma DeliverConserves(cfg: Config, s: System, w: nat, level: nat, r: Request)
    requires Conserved(s, level, r) && Enabled(cfg, s, Deliver(w)) && level <= 3
    ensures Conserved(Apply(cfg, s, Deliver(w)), level, r)
  {
    HeldUpdate(s.workers, w, Outer, level, r);
  }

  lemma StepConserves(cfg: Config, s: System, e: Event, level: nat, r: Request)
    requires Conserved(s, level, r) && Enabled(cfg, s, e) && level <= 3
    ensures Conserved(Apply(cfg, s, e), level, r)
  {
    match e
    case HandOver(x, w) => HandOverConserves(cfg, s, x, w, level, r);
    case TakeHigh(_) => TakeConserves(cfg, s, e, level, r);
    case TakeLow(_) => TakeConserves(cfg, s, e, level, r);
    case Announce(w) => AnnounceConserves(cfg, s, w, level, r);
    case Begin(w) => BeginConserves(cfg, s, w, level, r);
    case End(w) => EndConserves(cfg, s, w, level, r);
    case Deliver(w) => DeliverConserves(cfg, s, w, level, r);
    case Poll(w) => HeldUpdate(s.workers, w, Inner, level, r);
    case Quit(w) => HeldUpdate(s.workers, w, Stopped, level, r);
    case _ =>
  }

  lemma StepKeepsInFlight(cfg: Config, s: System, e: Event)
    requires s.sh.inFlight == RunningWorkers(s.workers) && Enabled(cfg, s, e)
    ensures Apply(cfg, s, e).sh.inFlight == RunningWorkers(Apply(cfg, s, e).workers)
  {
    if !e.Arrive? && !e.Send? && !e.Notice? && !e.Collect? && !e.GiveUp? && !e.Close? {
      RunningUpdate(s.workers, e.w, Apply(cfg, s, e).workers[e.w]);
    }
  }

  lemma StepKeepsInvariant(cfg: Config, s: System, e: Event)
    requires Invariant(cfg, s) && Enabled(cfg, s, e)
    ensures Invariant(cfg, Apply(cfg, s, e))
  {
    var s' := Apply(cfg, s, e);
    StepKeepsFifo(cfg, s, e);
    StepKeepsWorkersFit(cfg, s, e);
    StepKeepsInFlight(cfg, s, e);
    forall r
      ensures AcceptedOnce(s', r)
    {
      StepKeepsAcceptedOnce(cfg, s, e, r);
    }
    forall level, r | 0 <= level <= 3
      ensures Conserved(s', level, r)
    {
      StepConserves(cfg, s, e, level, r);
    }
  }

  lemma InvariantAtFirst(cfg: Config)
    ensures Invariant(cfg, Initial(cfg))
  {
    RunningAtMostAll(Initial(cfg).workers);
    forall level, r | 0 <= level <= 3
      ensures Conserved(Initial(cfg), level, r)
    {
      NothingHeldAtFirst(Initial(cfg).workers, level, r);
    }
  }

  lemma {:induction false} InvariantHolds(cfg: Config, es: seq<Event>, ss: seq<System>, i: nat)
    requires IsRun(cfg, es, ss) && i < |ss|
    ensures Invariant(cfg, ss[i])
  {
    if i == 0 {
      InvariantAtFirst(cfg);
    } else {
      InvariantHolds(cfg, es, ss, i - 1);
      assert Enabled(cfg, ss[i - 1], es[i - 1]) && ss[i] == Apply(cfg, ss[i - 1], es[i - 1]);
      StepKeepsInvariant(cfg, ss[i - 1], es[i - 1]);
    }
  }

  // ----- Theorems about every run -----

  lemma RequestsCounted(cfg: Config, s: System, r: Request)
    requires Invariant(cfg, s)
    ensures Count(s.sh.highQ, r) + Count(s.sh.queue, r) + Held(s.workers, 0, r) + Count(s.finished, r)
              == Accepted(s, r) <= 1
    ensures Held(s.workers, 0, r) + Count(s.finished, r) <= 1
  {
    assert AcceptedOnce(s, r) && Conserved(s, 0, r);
  }

  /** FIFO and conservation: each queue gives its requests out in the order it took them in, and
      every accepted request is in exactly one place: a buffer, one worker, or finished. */
  lemma FifoAndConservation(cfg: Config, es: seq<Event>, ss: seq<System>, i: nat, r: Request)
    requires IsRun(cfg, es, ss) && i < |ss|
    ensures ss[i].deqHigh + ss[i].sh.highQ == ss[i].enqHigh
    ensures ss[i].deqLow + ss[i].sh.queue == ss[i].enqLow
    ensures |ss[i].sh.highQ| <= cfg.maxQueue && |ss[i].sh.queue| <= cfg.maxQueue
    ensures Accepted(ss[i], r) <= 1
    ensures Count(ss[i].sh.highQ, r) + Count(ss[i].sh.queue, r) + Held(ss[i].workers, 0, r) + Count(ss[i].finished, r)
            == Accepted(ss[i], r)
  {
    InvariantHolds(cfg, es, ss, i);
    RequestsCounted(cfg, ss[i], r);
  }

  lemma {:induction false} HeldFallsWithLevel(ws: seq<Worker>, level: nat, r: Request)
    ensures Held(ws, level, r) <= Held(ws, 0, r)
  {
    if ws != [] {
      HeldFallsWithLevel(ws[1..], level, r);
    }
  }

  lemma StartedWasAccepted(cfg: Config, s: System, r: Request)
    requires Invariant(cfg, s)
    ensures Count(s.started, r) <= Accepted(s, r) <= 1
  {
    RequestsCounted(cfg, s, r);
    assert Conserved(s, 2, r);
    HeldFallsWithLevel(s.workers, 2, r);
  }

  /** Every request runs at most once, and only after it was accepted. */
  lemma RunsAtMostOnce(cfg: Config, es: seq<Event>, ss: seq<System>, i: nat, r: Request)
    requires IsRun(cfg, es, ss) && i < |ss|
    ensures Count(ss[i].started, r) <= Accepted(ss[i], r) <= 1
  {
    InvariantHolds(cfg, es, ss, i);
    StartedWasAccepted(cfg, ss[i], r);
  }

  lemma WorkerCanMove(cfg: Config, s: System, w: nat)
    requires Invariant(cfg, s) && w < |s.workers|
    ensures s.workers[w].Delivering? ==> Enabled(cfg, s, Deliver(w))
    ensures s.workers[w].Running? ==> Enabled(cfg, s, End(w))
    ensures s.workers[w].Taken? ==> s.workers[w].r !in s.announced
  {
    if Progress(s.workers[w]) >= 0 {
      var r := s.workers[w].r;
      RequestsCounted(cfg, s, r);
      HeldUpdate(s.workers, w, Outer, 0, r);
      HeldUpdate(s.workers, w, Outer, 1, r);
      HeldFallsWithLevel(s.workers[w := Outer], 1, r);
      assert Conserved(s, 1, r);
    }
    RunningUpdate(s.workers, w, Outer);
  }

  /** A worker never blocks on the result it delivers and never closes a channel that is closed,
      whether or not the caller has left. */
  lemma WorkersNeverBlock(cfg: Config, es: seq<Event>, ss: seq<System>, i: nat, w: nat)
    requires IsRun(cfg, es, ss) && i < |ss| && w < |ss[i].workers|
    ensures ss[i].workers[w].Delivering? ==> Enabled(cfg, ss[i], Deliver(w))
    ensures ss[i].workers[w].Running? ==> Enabled(cfg, ss[i], End(w))
    ensures ss[i].workers[w].Taken? ==> ss[i].workers[w].r !in ss[i].announced
  {
    InvariantHolds(cfg, es, ss, i);
    WorkerCanMove(cfg, ss[i], w);
  }

  /** InFlight is the number of workers in the call, so never more than the workers there are. */
  lemma InFlightBounded(cfg: Config, es: seq<Event>, ss: seq<System>, i: nat)
    requires IsRun(cfg, es, ss) && i < |ss|
    ensures ss[i].sh.inFlight == RunningWorkers(ss[i].workers) <= cfg.maxConcurrent
  {
    InvariantHolds(cfg, es, ss, i);
    RunningAtMostAll(ss[i].workers);
  }

  /** The requests that are in the channel a caller sends to: sent and not yet received. */
  function WaitingBefore(cfg: Config, s: System, r: Request): int {
    if cfg.priority && cfg.marked(r) then |s.enqHigh| - |s.deqHigh| else |s.enqLow| - |s.deqLow|
  }

  /** A sender waits for room and for nothing else: its send goes through exactly when fewer than MaxQueue
      requests of its kind wait. */
  lemma SendsIffRoom(cfg: Config, es: seq<Event>, ss: seq<System>, i: nat, r: Request)
    requires IsRun(cfg, es, ss) && i < |ss| && At(ss[i], r, Sending) && cfg.maxQueue > 0
    ensures Enabled(cfg, ss[i], Send(r)) <==> WaitingBefore(cfg, ss[i], r) < cfg.maxQueue
  {
    InvariantHolds(cfg, es, ss, i);
    assert |ss[i].deqHigh + ss[i].sh.highQ| == |ss[i].enqHigh| && |ss[i].deqLow + ss[i].sh.queue| == |ss[i].enqLow|;
  }

  /** How many of the first i steps were denials. */
  function Denials(es: seq<Event>, i: nat): nat
    requires i <= |es|
  {
    if i == 0 then 0 else Denials(es, i - 1) + if es[i - 1].GiveUp? then 1 else 0
  }

  /** The denied counter counts the callers that were turned away or gave up. */
  lemma {:induction false} DeniedCounts(cfg: Config, es: seq<Event>, ss: seq<System>, i: nat)
    requires IsRun(cfg, es, ss) && i < |ss|
    ensures ss[i].sh.denied == Denials(es, i)
  {
    if i > 0 {
      DeniedCounts(cfg, es, ss, i - 1);
      assert Enabled(cfg, ss[i - 1], es[i - 1]) && ss[i] == Apply(cfg, ss[i - 1], es[i - 1]);
    }
  }

  lemma {:induction false} ClosedOnce(cfg: Config, es: seq<Event>, ss: seq<System>, i: nat)
    requires IsRun(cfg, es, ss) && i < |ss|
    ensures ss[i].sh.closed == ss[i].sh.quit
    ensures ss[i].sh.quit <==> exists k :: 0 <= k < i && es[k].Close?
  {
    if i > 0 {
      ClosedOnce(cfg, es, ss, i - 1);
      assert Enabled(cfg, ss[i - 1], es[i - 1]) && ss[i] == Apply(cfg, ss[i - 1], es[i - 1]);
    }
  }

  // ----- Callers get their results -----

  /** The result of a request that has finished waits in its channel for a caller that still waits. */
  ghost predicate ResultsKept(s: System) {
    forall r :: r in s.finished && r in s.callers ==> r in s.results
  }

  lemma StepKeepsResults(cfg: Config, s: System, e: Event)
    requires Invariant(cfg, s) && ResultsKept(s) && Enabled(cfg, s, e)
    ensures ResultsKept(Apply(cfg, s, e))
  {
    if e.Arrive? {
      RequestsCounted(cfg, s, e.r);
      assert AcceptedOnce(s, e.r);
    }
  }

  lemma {:induction false} ResultsKeptHolds(cfg: Config, es: seq<Event>, ss: seq<System>, i: nat)
    requires IsRun(cfg, es, ss) && i < |ss|
    ensures ResultsKept(ss[i])
  {
    if i > 0 {
      ResultsKeptHolds(cfg, es, ss, i - 1);
      InvariantHolds(cfg, es, ss, i - 1);
      assert Enabled(cfg, ss[i - 1], es[i - 1]) && ss[i] == Apply(cfg, ss[i - 1], es[i - 1]);
      StepKeepsResults(cfg, ss[i - 1], es[i - 1]);
    }
  }

  /** A caller whose request has finished can take the result at once, or first the note that the request
      was dequeued; and at any time it can give up. */
  lemma ResultsReachCallers(cfg: Config, es: seq<Event>, ss: seq<System>, i: nat, r: Request)
    requires IsRun(cfg, es, ss) && i < |ss| && r in ss[i].callers
    ensures r in ss[i].finished && ss[i].callers[r] == Awaiting ==> Enabled(cfg, ss[i], Collect(r))
    ensures r in ss[i].finished && ss[i].callers[r] == Queued ==> Enabled(cfg, ss[i], Notice(r))
    ensures r in ss[i].finished ==> ss[i].callers[r] != Sending
    ensures Enabled(cfg, ss[i], GiveUp(r))
  {
    InvariantHolds(cfg, es, ss, i);
    ResultsKeptHolds(cfg, es, ss, i);
    RequestsCounted(cfg, ss[i], r);
    assert Conserved(ss[i], 1, r) && AcceptedOnce(ss[i], r);
  }

  /** A closed bulkhead lets nobody in. */
  lemma {:induction false} NobodyEntersClosed(cfg: Config, es: seq<Event>, ss: seq<System>, i: nat, j: nat)
    requires IsRun(cfg, es, ss) && i <= j < |ss| && ss[i].sh.closed
    ensures ss[j].sh.closed && ss[j].arrived == ss[i].arrived
    decreases j
  {
    if i < j {
      NobodyEntersClosed(cfg, es, ss, i, j - 1);
      assert Enabled(cfg, ss[j - 1], es[j - 1]) && ss[j] == Apply(cfg, ss[j - 1], es[j - 1]);
    }
  }

  // ----- Bounded overtaking -----

  /** How many workers polled the high queue in vain and wait for either. */
  function InnerWorkers(ws: seq<Worker>): nat {
    if ws == [] then 0 else (if ws[0].Inner? then 1 else 0) + InnerWorkers(ws[1..])
  }

  lemma {:induction false} InnerUpdate(ws: seq<Worker>, w: nat, pc: Worker)
    requires w < |ws|
    ensures InnerWorkers(ws[w := pc])
              == InnerWorkers(ws) - (if ws[w].Inner? then 1 else 0) + (if pc.Inner? then 1 else 0)
  {
    if w == 0 {
      assert ws[w := pc][1..] == ws[1..];
    } else {
      InnerUpdate(ws[1..], w - 1, pc);
      assert ws[w := pc][1..] == ws[1..][w - 1 := pc];
    }
  }

  lemma {:induction false} InnerAtMostAll(ws: seq<Worker>)
    ensures InnerWorkers(ws) <= |ws|
  {
    if ws != [] {
      InnerAtMostAll(ws[1..]);
    }
  }

  /** While the high queue holds a request, each normal request that is dequeued uses up a worker
      that was past the outer poll. */
  lemma OvertakingStep(cfg: Config, s: System, e: Event)
    requires Fifo(cfg, s) && Enabled(cfg, s, e) && s.sh.highQ != []
    ensures var s' := Apply(cfg, s, e);
            |s'.deqLow| + InnerWorkers(s'.workers) <= |s.deqLow| + InnerWorkers(s.workers)
  {
    if e.Poll? || e.TakeHigh? || e.TakeLow? || e.Announce? || e.Begin? || e.End? || e.Deliver? || e.Quit? {
      InnerUpdate(s.workers, e.w, Apply(cfg, s, e).workers[e.w]);
    }
  }

  lemma {:induction false} OvertakingAlongRun(cfg: Config, es: seq<Event>, ss: seq<System>, i: nat, j: nat, h: Request)
    requires IsRun(cfg, es, ss) && i <= j < |ss|
    requires forall k :: i <= k <= j ==> h in ss[k].sh.highQ
    ensures |ss[j].deqLow| + InnerWorkers(ss[j].workers) <= |ss[i].deqLow| + InnerWorkers(ss[i].workers)
    decreases j
  {
    if i < j {
      OvertakingAlongRun(cfg, es, ss, i, j - 1, h);
      InvariantHolds(cfg, es, ss, j - 1);
      assert Enabled(cfg, ss[j - 1], es[j - 1]) && ss[j] == Apply(cfg, ss[j - 1], es[j - 1]);
      assert h in ss[j - 1].sh.highQ;
      OvertakingStep(cfg, ss[j - 1], es[j - 1]);
    }
  }

  /** Bounded overtaking: as long as a high-priority request waits in the high queue, at most
      MaxConcurrent normal requests are dequeued, and only by workers that were already past the
      outer poll when it began to wait. */
  lemma BoundedOvertaking(cfg: Config, es: seq<Event>, ss: seq<System>, i: nat, j: nat, h: Request)
    requires IsRun(cfg, es, ss) && i <= j < |ss|
    requires forall k :: i <= k <= j ==> h in ss[k].sh.highQ
    ensures |ss[j].deqLow| - |ss[i].deqLow| <= InnerWorkers(ss[i].workers) <= cfg.maxConcurrent
  {
    OvertakingAlongRun(cfg, es, ss, i, j, h);
    InvariantHolds(cfg, es, ss, i);
    InnerAtMostAll(ss[i].workers);
  }
}
