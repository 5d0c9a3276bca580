/**
 Any number of callers of one singleflight policy, interleaved between its critical sections.
 Flights are numbered in the order they start; `results` records what each Execute returned.
 The upstream call of a flight is in progress while its leader is at `Leading`.
 */
module SingleflightProtocol {
  import opened Wrappers
  import opened Singleflight

  type CallerId = nat

  datatype Flight = Flight(key: Key, leader: CallerId, record: Record)

  datatype Stage =
    | Leading       // the upstream call is in progress
    | Filled        // it returned; the followers still wait
    | Published     // the followers may go
    | Unlisted      // the entry was deleted
    | Waiting       // a follower

  datatype Caller = Caller(key: Key, flight: nat, stage: Stage)

  datatype Result = Result(key: Key, flight: nat, delivery: Delivery)

  datatype System = System(
    calls: map<Key, nat>,
    flights: seq<Flight>,
    clock: int,
    callers: map<CallerId, Caller>,
    results: seq<Result>)

  datatype Event =
    | Enter(c: CallerId, key: Key, now: int, created: int)  // the age test's reading of the clock, and a leader's
    | Return(c: CallerId, u: Upstream)
    | Publish(c: CallerId)
    | Unlist(c: CallerId)
    | Finish(c: CallerId)

  function Initial(clock: int): System {
    System(map[], [], clock, map[], [])
  }

  /** Every entry and every caller names a flight that exists. */
  predicate WellFormed(s: System) {
    && (forall k :: k in s.calls ==> s.calls[k] < |s.flights|)
    && (forall c :: c in s.callers ==> s.callers[c].flight < |s.flights|)
  }

  predicate At(s: System, c: CallerId, stage: Stage) {
    c in s.callers && s.callers[c].stage == stage
  }

  /** A follower waits until the flight is done; the upstream call does not panic. */
  predicate Enabled(s: System, e: Event)
    requires WellFormed(s)
  {
    match e
    case Enter(c, _, now, created) => c !in s.callers && s.clock <= now <= created
    case Return(c, u) => At(s, c, Leading) && Proper(u)
    case Publish(c) => At(s, c, Filled)
    case Unlist(c) => At(s, c, Published)
    case Finish(c) =>
      && (At(s, c, Unlisted) || (At(s, c, Waiting) && RecordOf(s, c).done))
      && Proper(RecordOf(s, c).returned)
  }

  /** The record of the flight that a caller leads or waits for. */
  function RecordOf(s: System, c: CallerId): Record
    requires WellFormed(s) && c in s.callers
  {
    s.flights[s.callers[c].flight].record
  }

  /** When the flight listed under the key was created, if there is one. */
  function CreatedOf(s: System, key: Key): Option<int>
    requires WellFormed(s)
  {
    if key in s.calls then Some(s.flights[s.calls[key]].record.created) else None
  }

  function Move(s: System, c: CallerId, stage: Stage): map<CallerId, Caller>
    requires c in s.callers
  {
    s.callers[c := s.callers[c].(stage := stage)]
  }

  /** A leader works on its flight's record and moves on. */
  function Advance(s: System, c: CallerId, record: Record, stage: Stage): System
    requires WellFormed(s) && c in s.callers
  {
    var f := s.callers[c].flight;
    s.(flights := s.flights[f := s.flights[f].(record := record)], callers := Move(s, c, stage))
  }

  function Apply(s: System, e: Event): System
    requires WellFormed(s) && Enabled(s, e)
  {
    match e
    case Enter(c, key, now, created) =>
      if Joins(CreatedOf(s, key), now) then
        s.(clock := now, callers := s.callers[c := Caller(key, s.calls[key], Waiting)])
      else
        var f := |s.flights|;
        s.(clock := created, calls := Listed(s.calls, key, f), callers := s.callers[c := Caller(key, f, Leading)],
           flights := s.flights + [Flight(key, c, Begun(created))])
    case Return(c, u) => Advance(s, c, Completed(RecordOf(s, c), u), Filled)
    case Publish(c) => Advance(s, c, Singleflight.Published(RecordOf(s, c)), Published)
    case Unlist(c) =>
      s.(calls := Delisted(s.calls, s.callers[c].key), callers := Move(s, c, Unlisted))
    case Finish(c) =>
      var me := s.callers[c];
      s.(callers := s.callers - {c}, results := s.results + [Result(me.key, me.flight, HandOut(RecordOf(s, c)))])
  }

  ghost predicate IsRun(es: seq<Event>, ss: seq<System>) {
    && |ss| == |es| + 1
    && ss[0] == Initial(ss[0].clock)
    && forall i {:trigger es[i]} :: 0 <= i < |es| ==>
         WellFormed(ss[i]) && Enabled(ss[i], es[i]) && ss[i + 1] == Apply(ss[i], es[i])
  }

  // ----- The invariant -----

  /** A flight's record agrees with where its leader stands. */
  predicate StageFits(f: Flight, c: CallerId, stage: Stage) {
    match stage
    case Leading => f.leader == c && !f.record.done
    case Filled => f.leader == c && Proper(f.record.returned) && !f.record.done
    case Published => f.leader == c && f.record.done
    case Unlisted => f.leader == c && f.record.done
    case Waiting => true
  }

  predicate CallerFits(s: System, c: CallerId)
    requires c in s.callers
  {
    var me := s.callers[c];
    me.flight < |s.flights| && s.flights[me.flight].key == me.key && StageFits(s.flights[me.flight], c, me.stage)
  }

  ghost predicate CallersFit(s: System) {
    forall c :: c in s.callers ==> CallerFits(s, c)
  }

  predicate FlightFits(f: Flight) {
    f.record.done ==> Proper(f.record.returned) && f.record.bodyBytes == BufferedBody(f.record.returned)
  }

  ghost predicate FlightsFit(s: System) {
    forall f :: 0 <= f < |s.flights| ==> FlightFits(s.flights[f])
  }

  predicate InsideExecute(stage: Stage) {
    stage.Leading? || stage.Filled? || stage.Published?
  }

  /** The leader of a listed flight is still between starting it and deleting its key. */
  predicate LeaderInside(s: System, f: nat) {
    && f < |s.flights|
    && s.flights[f].leader in s.callers
    && s.callers[s.flights[f].leader].flight == f
    && InsideExecute(s.callers[s.flights[f].leader].stage)
  }

  ghost predicate EntriesFit(s: System) {
    forall k :: k in s.calls ==> LeaderInside(s, s.calls[k]) && s.flights[s.calls[k]].key == k
  }

  predicate ResultFits(s: System, r: Result) {
    && r.flight < |s.flights|
    && s.flights[r.flight].key == r.key
    && s.flights[r.flight].record.done
    && Proper(s.flights[r.flight].record.returned)
    && r.delivery == Deliver(s.flights[r.flight].record.returned)
  }

  ghost predicate ResultsFit(s: System) {
    forall i :: 0 <= i < |s.results| ==> ResultFits(s, s.results[i])
  }

  /** The leader of a flight that is not done is at work on it. */
  predicate LeaderAtWork(s: System, f: nat) {
    && f < |s.flights|
    && s.flights[f].leader in s.callers
    && s.callers[s.flights[f].leader].flight == f
    && (s.callers[s.flights[f].leader].stage.Leading? || s.callers[s.flights[f].leader].stage.Filled?)
  }

  ghost predicate FlightsLed(s: System) {
    forall f :: 0 <= f < |s.flights| && !s.flights[f].record.done ==> LeaderAtWork(s, f)
  }

  ghost predicate Invariant(s: System) {
    CallersFit(s) && FlightsFit(s) && FlightsLed(s) && EntriesFit(s) && ResultsFit(s)
  }

  lemma StepKeepsLeaders(s: System, e: Event)
    requires Invariant(s) && WellFormed(s) && Enabled(s, e)
    ensures FlightsLed(Apply(s, e))
  {
    var s' := Apply(s, e);
    if !e.Enter? {
      assert CallerFits(s, e.c);
    }
    forall f | 0 <= f < |s'.flights| && !s'.flights[f].record.done
      ensures LeaderAtWork(s', f)
    {
      if f < |s.flights| {
        assert LeaderAtWork(s, f);
      }
    }
  }

  lemma StepKeepsCallers(s: System, e: Event)
    requires CallersFit(s) && FlightsFit(s) && EntriesFit(s) && WellFormed(s) && Enabled(s, e)
    ensures CallersFit(Apply(s, e))
  {
    var s' := Apply(s, e);
    forall c | c in s'.callers
      ensures CallerFits(s', c)
    {
      if c in s.callers {
        assert CallerFits(s, c);
      }
      if !e.Enter? {
        assert CallerFits(s, e.c);
      }
    }
  }

  lemma StepKeepsFlights(s: System, e: Event)
    requires CallersFit(s) && FlightsFit(s) && WellFormed(s) && Enabled(s, e)
    ensures FlightsFit(Apply(s, e))
  {
    var s' := Apply(s, e);
    if !e.Enter? {
      assert CallerFits(s, e.c);
    }
    forall f | 0 <= f < |s'.flights|
      ensures FlightFits(s'.flights[f])
    {
      if f < |s.flights| {
        assert FlightFits(s.flights[f]);
      }
    }
  }

  lemma EnterKeepsEntries(s: System, e: Event)
    requires EntriesFit(s) && WellFormed(s) && Enabled(s, e) && e.Enter?
    ensures EntriesFit(Apply(s, e))
  {
    var s' := Apply(s, e);
    forall k | k in s'.calls
      ensures LeaderInside(s', s'.calls[k]) && s'.flights[s'.calls[k]].key == k
    {
      if k in s.calls && s'.calls[k] == s.calls[k] {
        assert LeaderInside(s, s.calls[k]);
      }
    }
  }

  lemma StepKeepsEntries(s: System, e: Event)
    requires CallersFit(s) && EntriesFit(s) && WellFormed(s) && Enabled(s, e)
    ensures EntriesFit(Apply(s, e))
  {
    if e.Enter? {
      EnterKeepsEntries(s, e);
    } else {
      var s' := Apply(s, e);
      assert CallerFits(s, e.c);
      forall k | k in s'.calls
        ensures LeaderInside(s', s'.calls[k]) && s'.flights[s'.calls[k]].key == k
      {
        assert LeaderInside(s, s.calls[k]);
      }
    }
  }

  lemma StepKeepsResults(s: System, e: Event)
    requires Invariant(s) && WellFormed(s) && Enabled(s, e)
    ensures ResultsFit(Apply(s, e))
  {
    var s' := Apply(s, e);
    if !e.Enter? {
      var me := s.callers[e.c];
      assert CallerFits(s, e.c) && FlightFits(s.flights[me.flight]);
    }
    forall i | 0 <= i < |s'.results|
      ensures ResultFits(s', s'.results[i])
    {
      if i < |s.results| {
        assert ResultFits(s, s.results[i]);
      }
    }
  }

  lemma {:induction false} InvariantHolds(es: seq<Event>, ss: seq<System>, i: nat)
    requires IsRun(es, ss) && i < |ss|
    ensures Invariant(ss[i]) && WellFormed(ss[i])
  {
    if i > 0 {
      InvariantHolds(es, ss, i - 1);
      var s, e := ss[i - 1], es[i - 1];
      assert Enabled(s, e) && ss[i] == Apply(s, e);
      StepKeepsCallers(s, e);
      StepKeepsFlights(s, e);
      StepKeepsEntries(s, e);
      StepKeepsLeaders(s, e);
      StepKeepsResults(s, e);
      assert EntriesFit(ss[i]);
    }
  }

  // ----- Theorems about every run -----

  /** What a record says was returned is what the upstream call of its flight returned. */
  lemma {:induction false} ReturnedByUpstream(es: seq<Event>, ss: seq<System>, i: nat, f: nat) returns (k: nat)
    requires IsRun(es, ss) && i < |ss| && f < |ss[i].flights| && Proper(ss[i].flights[f].record.returned)
    ensures k < i && es[k].Return? && At(ss[k], es[k].c, Leading) && ss[k].callers[es[k].c].flight == f
    ensures ss[i].flights[f].record.returned == es[k].u
  {
    var s, e := ss[i - 1], es[i - 1];
    assert Enabled(s, e) && ss[i] == Apply(s, e);
    if e.Return? && s.callers[e.c].flight == f {
      k := i - 1;
    } else {
      k := ReturnedByUpstream(es, ss, i - 1, f);
    }
  }

  /** The whole of what an upstream call returned: its error, or its status and every byte of its body. */
  predicate IsWhole(u: Upstream, d: Delivery) {
    match d
    case Failed(err) => u.err == Some(err)
    case Delivered(status, body, contentLength) =>
      && u.err.None? && u.val.Some? && status == u.val.value.status && contentLength == |body|
      && (u.val.value.body.Some? ==> body == u.val.value.body.value)
      && (u.val.value.body.None? ==> body == [])
  }

  /** Every caller gets the whole of what one upstream call of its own key returned, in step k; callers
      of one flight get the same. */
  lemma EveryCallerGetsItsFlight(es: seq<Event>, ss: seq<System>, i: nat, r: nat) returns (k: nat)
    requires IsRun(es, ss) && i < |ss| && r < |ss[i].results|
    ensures k < i && es[k].Return? && At(ss[k], es[k].c, Leading)
    ensures var result, leader := ss[i].results[r], ss[k].callers[es[k].c];
            && leader.key == result.key && leader.flight == result.flight && IsWhole(es[k].u, result.delivery)
            && result.flight < |ss[i].flights| && ss[i].flights[result.flight].key == result.key
    ensures forall q :: 0 <= q < |ss[i].results| && ss[i].results[q].flight == ss[i].results[r].flight ==>
              ss[i].results[q].delivery == ss[i].results[r].delivery
  {
    InvariantHolds(es, ss, i);
    assert ResultFits(ss[i], ss[i].results[r]);
    k := ReturnedByUpstream(es, ss, i, ss[i].results[r].flight);
    InvariantHolds(es, ss, k);
    assert CallerFits(ss[k], es[k].c);
    KeysNeverChange(es, ss, k, i, ss[i].results[r].flight);
    forall q | 0 <= q < |ss[i].results| && ss[i].results[q].flight == ss[i].results[r].flight
      ensures ss[i].results[q].delivery == ss[i].results[r].delivery
    {
      assert ResultFits(ss[i], ss[i].results[q]);
    }
  }

  lemma {:induction false} KeysNeverChange(es: seq<Event>, ss: seq<System>, k: nat, i: nat, f: nat)
    requires IsRun(es, ss) && k <= i < |ss| && f < |ss[k].flights|
    ensures f < |ss[i].flights| && ss[i].flights[f].key == ss[k].flights[f].key
    decreases i
  {
    if k < i {
      KeysNeverChange(es, ss, k, i - 1, f);
      assert Enabled(ss[i - 1], es[i - 1]) && ss[i] == Apply(ss[i - 1], es[i - 1]);
    }
  }

  /** No follower waits in vain: its flight is done, and then it can return, or the flight's leader
      is in the upstream call or about to publish what that returned. */
  lemma FollowersAreServed(es: seq<Event>, ss: seq<System>, i: nat, c: CallerId)
    requires IsRun(es, ss) && i < |ss| && At(ss[i], c, Waiting)
    ensures WellFormed(ss[i]) && ss[i].callers[c].flight < |ss[i].flights|
    ensures var f := ss[i].callers[c].flight;
            var leader := ss[i].flights[f].leader;
            || Enabled(ss[i], Finish(c))
            || (At(ss[i], leader, Leading) && ss[i].callers[leader].flight == f)
            || (At(ss[i], leader, Filled) && ss[i].callers[leader].flight == f && Enabled(ss[i], Publish(leader)))
  {
    InvariantHolds(es, ss, i);
    assert CallerFits(ss[i], c);
    var f := ss[i].callers[c].flight;
    assert FlightFits(ss[i].flights[f]);
    if !ss[i].flights[f].record.done {
      assert LeaderAtWork(ss[i], f);
      var leader := ss[i].flights[f].leader;
      assert CallerFits(ss[i], leader);
    }
  }

  /** No leader is stuck either: whatever its upstream call returns it can take, and each later stage has
      its step. */
  lemma LeadersAreNeverStuck(es: seq<Event>, ss: seq<System>, i: nat, c: CallerId, u: Upstream)
    requires IsRun(es, ss) && i < |ss| && c in ss[i].callers && Proper(u)
    ensures WellFormed(ss[i])
    ensures match ss[i].callers[c].stage
            case Leading => Enabled(ss[i], Return(c, u))
            case Filled => Enabled(ss[i], Publish(c))
            case Published => Enabled(ss[i], Unlist(c))
            case Unlisted => Enabled(ss[i], Finish(c))
            case Waiting => true
  {
    InvariantHolds(es, ss, i);
    assert CallerFits(ss[i], c);
    assert FlightFits(ss[i].flights[ss[i].callers[c].flight]);
  }

  /** A leader that is done deletes the entry of its key, even if that is another flight's by then. */
  lemma UnlistTakesAnyEntry(es: seq<Event>, ss: seq<System>, i: nat)
    requires IsRun(es, ss) && i < |es| && es[i].Unlist?
    ensures es[i].c in ss[i].callers && ss[i + 1].calls == ss[i].calls - {ss[i].callers[es[i].c].key}
  {
    assert Enabled(ss[i], es[i]) && ss[i + 1] == Apply(ss[i], es[i]);
  }

  /** Nothing leaks: each entry's leader is still inside Execute, with or without expiry, so the
      map is empty when nobody is. */
  lemma EntriesNeverLeak(es: seq<Event>, ss: seq<System>, i: nat)
    requires IsRun(es, ss) && i < |ss|
    ensures forall k :: k in ss[i].calls ==> LeaderInside(ss[i], ss[i].calls[k])
    ensures ss[i].callers == map[] ==> ss[i].calls == map[]
  {
    InvariantHolds(es, ss, i);
    if ss[i].callers == map[] {
      assert forall k :: k !in ss[i].calls;
    }
  }

  /** No caller ever finds an expired entry under its key.  A flight that outlives the TTL does not
      matter as long as nobody asks for its key then. */
  ghost predicate NoExpiredEntryMet(es: seq<Event>, ss: seq<System>)
    requires IsRun(es, ss)
  {
    forall i {:trigger es[i]} :: 0 <= i < |es| ==> !FindsExpired(ss[i], es[i])
  }

  /** This step is a caller that finds an expired entry under its key. */
  ghost predicate FindsExpired(s: System, e: Event) {
    && WellFormed(s) && e.Enter?
    && e.key in s.calls && Expired(s.flights[s.calls[e.key]].record.created, e.now)
  }

  /** Each flight whose leader has not deleted its key is the listed one. */
  ghost predicate LeadersListed(s: System) {
    forall c :: c in s.callers && InsideExecute(s.callers[c].stage) ==>
      s.callers[c].key in s.calls && s.calls[s.callers[c].key] == s.callers[c].flight
  }

  lemma StepKeepsLeadersListed(s: System, e: Event)
    requires Invariant(s) && WellFormed(s) && Enabled(s, e) && LeadersListed(s) && !FindsExpired(s, e)
    ensures LeadersListed(Apply(s, e))
  {
    var s' := Apply(s, e);
    forall c | c in s'.callers && InsideExecute(s'.callers[c].stage)
      ensures s'.callers[c].key in s'.calls && s'.calls[s'.callers[c].key] == s'.callers[c].flight
    {
      if c in s.callers && e.Unlist? && c != e.c {
        assert CallerFits(s, c);
        assert CallerFits(s, e.c);
      }
    }
  }

  lemma {:induction false} LeadersListedHolds(es: seq<Event>, ss: seq<System>, i: nat)
    requires IsRun(es, ss) && NoExpiredEntryMet(es, ss) && i < |ss|
    ensures LeadersListed(ss[i])
  {
    if i > 0 {
      LeadersListedHolds(es, ss, i - 1);
      InvariantHolds(es, ss, i - 1);
      assert Enabled(ss[i - 1], es[i - 1]) && ss[i] == Apply(ss[i - 1], es[i - 1]);
      StepKeepsLeadersListed(ss[i - 1], es[i - 1]);
    }
  }

  predicate Leads(s: System, c: CallerId, key: Key) {
    c in s.callers && s.callers[c].key == key && InsideExecute(s.callers[c].stage)
  }

  /** At most one caller per key is between starting a flight and deleting its entry. */
  ghost predicate OneLeaderPerKey(s: System) {
    forall c, d, key :: Leads(s, c, key) && Leads(s, d, key) ==> c == d
  }

  lemma ListedLeaderIsUnique(s: System)
    requires Invariant(s) && LeadersListed(s)
    ensures OneLeaderPerKey(s)
  {
    forall c, d, key | Leads(s, c, key) && Leads(s, d, key)
      ensures c == d
    {
      assert CallerFits(s, c) && CallerFits(s, d);
    }
  }

  ghost predicate HasOtherLeader(s: System, c: CallerId, key: Key) {
    exists d :: d != c && Leads(s, d, key)
  }

  /** A caller that finds an expired entry starts a second upstream call for the key while the
      flight it found is still under way. */
  lemma ExpiryStartsSecondCall(es: seq<Event>, ss: seq<System>, i: nat)
    requires IsRun(es, ss) && i < |es| && FindsExpired(ss[i], es[i])
    ensures At(ss[i + 1], es[i].c, Leading) && Leads(ss[i + 1], es[i].c, es[i].key)
    ensures HasOtherLeader(ss[i + 1], es[i].c, es[i].key)
  {
    InvariantHolds(es, ss, i);
    var s, e := ss[i], es[i];
    assert Enabled(s, e) && ss[i + 1] == Apply(s, e);
    assert LeaderInside(s, s.calls[e.key]);
    var d := s.flights[s.calls[e.key]].leader;
    assert CallerFits(s, d);
    assert Leads(ss[i + 1], d, e.key);
  }

  /** At every moment of a run at most one leader per key is inside Execute if and only if no caller
      ever finds an expired entry. */
  lemma OneLeaderPerKeyIff(es: seq<Event>, ss: seq<System>)
    requires IsRun(es, ss)
    ensures NoExpiredEntryMet(es, ss) <==> forall i :: 0 <= i < |ss| ==> OneLeaderPerKey(ss[i])
  {
    if NoExpiredEntryMet(es, ss) {
      forall i | 0 <= i < |ss|
        ensures OneLeaderPerKey(ss[i])
      {
        InvariantHolds(es, ss, i);
        LeadersListedHolds(es, ss, i);
        ListedLeaderIsUnique(ss[i]);
      }
    } else {
      var i :| 0 <= i < |es| && FindsExpired(ss[i], es[i]);
      ExpiryStartsSecondCall(es, ss, i);
      assert !OneLeaderPerKey(ss[i + 1]);
    }
  }

  /** Every flight leaves the map within the TTL: whenever somebody reads the clock, no entry at all is
      expired. */
  ghost predicate AllLeaveInTime(es: seq<Event>, ss: seq<System>)
    requires IsRun(es, ss)
  {
    forall i {:trigger es[i]} :: 0 <= i < |es| && es[i].Enter? ==> NoneExpired(ss[i], es[i].now)
  }

  ghost predicate NoneExpired(s: System, now: int) {
    WellFormed(s) ==> forall k :: k in s.calls ==> !Expired(s.flights[s.calls[k]].record.created, now)
  }

  lemma LeavingInTimeSuffices(es: seq<Event>, ss: seq<System>)
    requires IsRun(es, ss) && AllLeaveInTime(es, ss)
    ensures NoExpiredEntryMet(es, ss)
  {
  }

  /** As long as no caller finds an expired entry, so in particular if every flight leaves the map within
      the TTL, at most one upstream call per key is in progress at any moment. */
  lemma AtMostOneUpstreamCall(es: seq<Event>, ss: seq<System>, i: nat, c: CallerId, d: CallerId)
    requires IsRun(es, ss) && (NoExpiredEntryMet(es, ss) || AllLeaveInTime(es, ss)) && i < |ss|
    requires At(ss[i], c, Leading) && At(ss[i], d, Leading) && ss[i].callers[c].key == ss[i].callers[d].key
    ensures c == d
  {
    OneLeaderPerKeyIff(es, ss);
    assert OneLeaderPerKey(ss[i]);
    assert Leads(ss[i], c, ss[i].callers[c].key) && Leads(ss[i], d, ss[i].callers[c].key);
  }

  /** The TTL does run out in some run, for every key: a slow upstream call is enough. */
  lemma TwoUpstreamCallsHappen(key: Key)
    ensures exists es, ss | IsRun(es, ss) ::
              var s := ss[|es|];
              At(s, 0, Leading) && At(s, 1, Leading) && s.callers[0].key == s.callers[1].key == key
  {
    var s0 := Initial(0);
    var s1 := Apply(s0, Enter(0, key, 0, 0));
    assert s1.calls == map[key := 0] && s1.flights == [Flight(key, 0, Begun(0))];
    var s2 := Apply(s1, Enter(1, key, TTL + 1, TTL + 1));
    assert IsRun([Enter(0, key, 0, 0), Enter(1, key, TTL + 1, TTL + 1)], [s0, s1, s2]);
  }
}
