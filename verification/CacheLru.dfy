/**
 When the cache's eviction is least-recently-used.  An entry is used when it is stored and
 whenever it is hit; the eviction looks at the stores alone.
 */
module CacheLru {
  import opened Wrappers
  import opened Cache
  import opened CacheProtocol

  /** The time of the last hit under a key, if there was one. */
  function LastHit(hits: seq<Hit>, key: Key): Option<int> {
    if hits == [] then None
    else if hits[|hits| - 1].key == key then Some(hits[|hits| - 1].now)
    else LastHit(hits[..|hits| - 1], key)
  }

  function LastUse(s: System, key: Key): int
    requires key in s.entries
  {
    match LastHit(s.hits, key)
    case None => s.entries[key].createdAt
    case Some(hit) => if hit > s.entries[key].createdAt then hit else s.entries[key].createdAt
  }

  ghost predicate LeastRecentlyUsed(s: System, victim: Key) {
    && victim in s.entries
    && forall k :: k in s.entries ==> LastUse(s, victim) <= LastUse(s, k)
  }

  ghost predicate Evicts(s: System, e: Event, victim: Key) {
    e.Store? && victim in s.entries && victim !in e.kept
  }

  lemma EvictsTheOldest(cfg: Config, s: System, e: Event, victim: Key)
    requires Enabled(cfg, s, e) && Evicts(s, e, victim)
    ensures IsVictim(s.entries, e.evictAt, victim) && |s.entries| >= cfg.maxEntries
  {
  }

  /** An eviction is least-recently-used exactly when the victim, if it was ever hit, was not hit
      later than some other entry was last used. */
  lemma VictimIsLruIff(cfg: Config, es: seq<Event>, ss: seq<System>, i: nat, victim: Key)
    requires IsRun(cfg, es, ss) && i < |es| && Evicts(ss[i], es[i], victim)
    ensures LeastRecentlyUsed(ss[i], victim) <==>
            (LastHit(ss[i].hits, victim).Some? ==>
               forall k :: k in ss[i].entries ==> LastHit(ss[i].hits, victim).value <= LastUse(ss[i], k))
  {
    assert Enabled(cfg, ss[i], es[i]);
    EvictsTheOldest(cfg, ss[i], es[i], victim);
  }

  /** Entry k was stored after entry j, and then j was hit. */
  predicate HitAfterLaterStore(s: System, j: Key, k: Key)
    requires j in s.entries && k in s.entries
  {
    && s.entries[j].createdAt < s.entries[k].createdAt
    && LastHit(s.hits, j).Some? && LastHit(s.hits, j).value > s.entries[k].createdAt
  }

  /** If no entry was hit after another one was stored later, the next eviction is
      least-recently-used. */
  lemma NoLateHitsMeansLru(cfg: Config, es: seq<Event>, ss: seq<System>, i: nat, victim: Key)
    requires IsRun(cfg, es, ss) && i < |es| && Evicts(ss[i], es[i], victim)
    requires forall j, k :: j in ss[i].entries && k in ss[i].entries ==> !HitAfterLaterStore(ss[i], j, k)
    ensures LeastRecentlyUsed(ss[i], victim)
  {
    assert Enabled(cfg, ss[i], es[i]);
    EvictsTheOldest(cfg, ss[i], es[i], victim);
    var watermark := InvariantHolds(cfg, es, ss, i);
    EntriesHaveDistinctTimes(ss[i], watermark);
    forall k | k in ss[i].entries
      ensures LastUse(ss[i], victim) <= LastUse(ss[i], k)
    {
      if k != victim {
        assert !HitAfterLaterStore(ss[i], victim, k);
      }
    }
  }

  // ----- Which configurations evict the least recently used -----

  ghost predicate AlwaysLru(cfg: Config) {
    forall es, ss, i, victim :: IsRun(cfg, es, ss) && 0 <= i < |es| && Evicts(ss[i], es[i], victim) ==>
      LeastRecentlyUsed(ss[i], victim)
  }

  lemma {:induction false} LatestIsLater(log: seq<Write>, seen: nat, key: Key)
    requires seen <= |log| && Latest(log[..seen], key).Some? && LogAdvances(log, log[|log| - 1].time)
    ensures Latest(log, key).Some? && Latest(log, key).value.time >= Latest(log[..seen], key).value.time
  {
    var j := LatestIsInLog(log[..seen], key);
    WrittenIsLatest(log, j);
    var i := LatestIsInLog(log, key);
  }

  /** A write is not newer than the latest one of its key. */
  lemma {:induction false} WrittenIsLatest(log: seq<Write>, j: nat)
    requires j < |log| && forall a, b :: 0 <= a < b < |log| ==> log[a].time < log[b].time
    ensures Latest(log, log[j].key).Some? && Latest(log, log[j].key).value.time >= log[j].time
  {
    if log[|log| - 1].key != log[j].key {
      WrittenIsLatest(log[..|log| - 1], j);
    }
  }

  lemma {:induction false} LastHitIsAHit(hits: seq<Hit>, key: Key) returns (h: nat)
    requires LastHit(hits, key).Some?
    ensures h < |hits| && hits[h].key == key && hits[h].now == LastHit(hits, key).value
  {
    if hits[|hits| - 1].key == key {
      h := |hits| - 1;
    } else {
      h := LastHitIsAHit(hits[..|hits| - 1], key);
    }
  }

  /** An entry's key is hit less than the TTL after the entry was made. */
  lemma HitsComeEarly(cfg: Config, s: System, watermark: int, key: Key)
    requires Invariant(cfg, s, watermark) && key in s.entries && LastHit(s.hits, key).Some?
    ensures LastHit(s.hits, key).value < s.entries[key].createdAt + cfg.ttl
  {
    var h := LastHitIsAHit(s.hits, key);
    assert FoundLatest(s.log, key, Some(s.hits[h].entry), s.hits[h].seen);
    LatestIsLater(s.log, s.hits[h].seen, key);
  }

  /** With so short a TTL, or one entry, a hit cannot come between. */
  lemma ShortTtlIsLru(cfg: Config, es: seq<Event>, ss: seq<System>, i: nat, victim: Key)
    requires cfg.maxEntries == 1 || cfg.ttl <= 2
    requires IsRun(cfg, es, ss) && i < |es| && Evicts(ss[i], es[i], victim)
    ensures LeastRecentlyUsed(ss[i], victim)
  {
    var s := ss[i];
    assert Enabled(cfg, s, es[i]);
    EvictsTheOldest(cfg, s, es[i], victim);
    var watermark := InvariantHolds(cfg, es, ss, i);
    EntriesHaveDistinctTimes(s, watermark);
    forall k | k in s.entries
      ensures LastUse(s, victim) <= LastUse(s, k)
    {
      if k != victim {
        if cfg.maxEntries == 1 {
          TwoEntries(s.entries, victim, k);
        } else if LastHit(s.hits, victim).Some? {
          HitsComeEarly(cfg, s, watermark, victim);
        }
      }
    }
  }

  lemma TwoEntries(m: Entries, j: Key, k: Key)
    requires j in m && k in m && j != k
    ensures |m| >= 2
  {
    assert {j, k} <= m.Keys;
    assert |m.Keys - {j, k}| == |m.Keys| - 2;
  }

  // ----- An eviction that is not -----

  function Path(n: nat): string {
    if n == 0 then "" else Path(n - 1) + "x"
  }

  lemma {:induction false} PathLength(n: nat)
    ensures |Path(n)| == n
  {
    if n > 0 {
      PathLength(n - 1);
    }
  }

  /** The n-th of endlessly many keys. */
  function KeyNo(n: nat): Key {
    "GET /" + Path(n)
  }

  lemma KeysDiffer(j: nat, k: nat)
    requires j != k
    ensures KeyNo(j) != KeyNo(k)
  {
    PathLength(j);
    PathLength(k);
  }

  function KeysBelow(n: nat): set<Key> {
    if n == 0 then {} else KeysBelow(n - 1) + {KeyNo(n - 1)}
  }

  lemma {:induction false} LaterKeyIsNew(n: nat, k: nat)
    requires n <= k
    ensures KeyNo(k) !in KeysBelow(n)
  {
    if n > 0 {
      LaterKeyIsNew(n - 1, k);
      KeysDiffer(n - 1, k);
    }
  }

  ghost predicate Reachable(cfg: Config, s: System) {
    exists es, ss :: IsRun(cfg, es, ss) && ss[|es|] == s
  }

  /** One more step. */
  lemma Extended(cfg: Config, es: seq<Event>, ss: seq<System>, e: Event, s': System)
    requires IsRun(cfg, es, ss) && Enabled(cfg, ss[|es|], e)
    requires (e.Check? ==> e.c in ss[|es|].callers) && s' == Apply(cfg, ss[|es|], e)
    ensures IsRun(cfg, es + [e], ss + [s'])
  {
    var es', ss' := es + [e], ss + [s'];
    forall i {:trigger es'[i]} | 0 <= i < |es'|
      ensures Enabled(cfg, ss'[i], es'[i]) && ss'[i + 1] == Apply(cfg, ss'[i], es'[i])
    {
      if i < |es| {
        assert Enabled(cfg, ss[i], es[i]) && ss[i + 1] == Apply(cfg, ss[i], es[i]);
      }
    }
  }

  lemma ReachableStep(cfg: Config, s: System, e: Event, s': System)
    requires Reachable(cfg, s) && Enabled(cfg, s, e) && (e.Check? ==> e.c in s.callers) && s' == Apply(cfg, s, e)
    ensures Reachable(cfg, s')
  {
    var es, ss :| IsRun(cfg, es, ss) && ss[|es|] == s;
    Extended(cfg, es, ss, e, s');
    assert (ss + [s'])[|es + [e]|] == s';
  }

  /** Of the n keys stored so far the first was hit after the second was stored. */
  ghost predicate FirstHitLate(s: System, n: nat) {
    && n >= 2 && s.callers == map[] && |s.entries| == n && s.clock >= 3
    && s.entries.Keys == KeysBelow(n) && KeyNo(0) in s.entries && KeyNo(1) in s.entries
    && s.entries[KeyNo(0)].createdAt == 1 && s.entries[KeyNo(1)].createdAt == 2
    && (forall key :: key in s.entries && key != KeyNo(0) ==> s.entries[key].createdAt > 1)
    && |s.hits| == 1 && s.hits[0].key == KeyNo(0) && s.hits[0].now == 3
  }

  lemma TwoStoresAndAHit(cfg: Config) returns (s: System)
    requires cfg.maxEntries >= 2 && cfg.ttl > 2
    ensures Reachable(cfg, s) && FirstHitLate(s, 2)
  {
    KeysDiffer(0, 1);
    var s0 := Initial(0);
    assert IsRun(cfg, [], [s0]);
    var s1 := Apply(cfg, s0, Store(KeyNo(0), 200, [], 1, 1, map[]));
    ReachableStep(cfg, s0, Store(KeyNo(0), 200, [], 1, 1, map[]), s1);
    var e2 := Store(KeyNo(1), 200, [], 2, 2, s1.entries);
    var s2 := Apply(cfg, s1, e2);
    ReachableStep(cfg, s1, e2, s2);
    var s3 := Apply(cfg, s2, Look(0, KeyNo(0), 3));
    ReachableStep(cfg, s2, Look(0, KeyNo(0), 3), s3);
    s := Apply(cfg, s3, Check(0, 3));
    ReachableStep(cfg, s3, Check(0, 3), s);
    assert s.entries == map[KeyNo(0) := Entry(200, [], 1), KeyNo(1) := Entry(200, [], 2)];
    assert s.entries.Keys == KeysBelow(2) by {
      assert KeysBelow(1) == {KeyNo(0)};
    }
    assert s.callers == map[];
  }

  lemma OneMoreKey(cfg: Config, s: System, n: nat) returns (s': System)
    requires Reachable(cfg, s) && FirstHitLate(s, n) && n < cfg.maxEntries
    ensures Reachable(cfg, s') && FirstHitLate(s', n + 1)
  {
    LaterKeyIsNew(n, n);
    var e := Store(KeyNo(n), 200, [], s.clock + 1, s.clock + 1, s.entries);
    s' := Apply(cfg, s, e);
    ReachableStep(cfg, s, e, s');
    assert s'.entries.Keys == s.entries.Keys + {KeyNo(n)};
  }

  lemma {:induction false} FillUp(cfg: Config, n: nat) returns (s: System)
    requires cfg.maxEntries >= n >= 2 && cfg.ttl > 2
    ensures Reachable(cfg, s) && FirstHitLate(s, n)
  {
    if n == 2 {
      s := TwoStoresAndAHit(cfg);
    } else {
      s := FillUp(cfg, n - 1);
      s := OneMoreKey(cfg, s, n - 1);
    }
  }

  lemma FirstIsNotLru(s: System, n: nat)
    requires FirstHitLate(s, n)
    ensures !LeastRecentlyUsed(s, KeyNo(0))
  {
    KeysDiffer(0, 1);
    assert s.hits[..|s.hits| - 1] == [];
    assert LastHit(s.hits, KeyNo(1)) == None;
    assert LastUse(s, KeyNo(0)) == 3 && LastUse(s, KeyNo(1)) == 2;
  }

  lemma NotAlwaysLru(cfg: Config, s: System, e: Event, victim: Key)
    requires Reachable(cfg, s) && e.Store? && Enabled(cfg, s, e) && Evicts(s, e, victim)
    requires !LeastRecentlyUsed(s, victim)
    ensures !AlwaysLru(cfg)
  {
    var es, ss :| IsRun(cfg, es, ss) && ss[|es|] == s;
    var es', ss', i := es + [e], ss + [Apply(cfg, s, e)], |es|;
    Extended(cfg, es, ss, e, Apply(cfg, s, e));
    assert ss'[i] == s && es'[i] == e;
    assert Evicts(ss'[i], es'[i], victim);
  }

  /** The first key is evicted, though the second was used less recently. */
  lemma LateHitIsIgnored(cfg: Config)
    requires cfg.maxEntries >= 2 && cfg.ttl > 2
    ensures !AlwaysLru(cfg)
  {
    var s := FillUp(cfg, cfg.maxEntries);
    var victim := KeyNo(0);
    var e := Store(KeyNo(cfg.maxEntries), 200, [], s.clock + 1, s.clock + 1, s.entries - {victim});
    assert IsVictim(s.entries, e.evictAt, victim);
    FirstIsNotLru(s, cfg.maxEntries);
    NotAlwaysLru(cfg, s, e, victim);
  }

  /** Every eviction of every run is least-recently-used exactly when the cache holds one entry or
      its entries live for at most two nanoseconds. */
  lemma AlwaysLruIff(cfg: Config)
    requires cfg.maxEntries >= 1
    ensures AlwaysLru(cfg) <==> cfg.maxEntries == 1 || cfg.ttl <= 2
  {
    if cfg.maxEntries == 1 || cfg.ttl <= 2 {
      forall es, ss, i, victim | IsRun(cfg, es, ss) && 0 <= i < |es| && Evicts(ss[i], es[i], victim)
        ensures LeastRecentlyUsed(ss[i], victim)
      {
        ShortTtlIsLru(cfg, es, ss, i, victim);
      }
    } else {
      LateHitIsIgnored(cfg);
    }
  }
}
