/**
 Any number of callers of one cache.  A caller looks up its key under the read lock, judges
 the age of what it found after it released the lock, and on a miss stores under the write lock
 what the backend returned.  Every clock reading of a store is later than all earlier readings.

 `log` and `hits` record every store and every hit; the program does not keep them.
 */
module CacheProtocol {
  import opened Wrappers
  import opened Cache

  type CallerId = nat

  datatype Write = Write(key: Key, status: int, body: seq<Byte>, time: int)

  /** What a caller holds between its lookup and its age check; `seen` is the length of the log
      at the lookup. */
  datatype Pending = Pending(key: Key, found: Option<Entry>, seen: nat)

  datatype Hit = Hit(key: Key, entry: Entry, seen: nat, now: int)

  datatype System = System(entries: Entries, clock: int, callers: map<CallerId, Pending>, log: seq<Write>,
                           hits: seq<Hit>)

  datatype Event =
    | Look(c: CallerId, key: Key, now: int)
    | Check(c: CallerId, now: int)
    | Store(key: Key, status: int, body: seq<Byte>, evictAt: int, createdAt: int, kept: Entries)

  function Initial(clock: int): System {
    System(map[], clock, map[], [], [])
  }

  ghost predicate Enabled(cfg: Config, s: System, e: Event) {
    match e
    case Look(c, _, now) => now >= s.clock && c !in s.callers
    case Check(c, now) => now >= s.clock && c in s.callers
    case Store(_, _, _, evictAt, createdAt, kept) =>
      s.clock < evictAt <= createdAt && Evicted(cfg, s.entries, evictAt, kept)
  }

  function Apply(cfg: Config, s: System, e: Event): System
    requires e.Check? ==> e.c in s.callers
  {
    match e
    case Look(c, key, now) =>
      s.(clock := now, callers := s.callers[c := Pending(key, Find(s.entries, key), |s.log|)])
    case Check(c, now) =>
      var p := s.callers[c];
      var hit := p.found.Some? && now - p.found.value.createdAt < cfg.ttl;
      s.(clock := now, callers := s.callers - {c},
         hits := if hit then s.hits + [Hit(p.key, p.found.value, p.seen, now)] else s.hits)
    case Store(key, status, body, _, createdAt, kept) =>
      s.(clock := createdAt, entries := Put(kept, key, status, body, createdAt),
         log := s.log + [Write(key, status, body, createdAt)])
  }

  ghost predicate IsRun(cfg: Config, es: seq<Event>, ss: seq<System>) {
    && cfg.maxEntries >= 1
    && |ss| == |es| + 1
    && ss[0] == Initial(ss[0].clock)
    && forall i {:trigger es[i]} :: 0 <= i < |es| ==>
      Enabled(cfg, ss[i], es[i]) && ss[i + 1] == Apply(cfg, ss[i], es[i])
  }

  // ----- The invariant -----

  /** The latest write of a key. */
  function Latest(log: seq<Write>, key: Key): Option<Write> {
    if log == [] then None
    else if log[|log| - 1].key == key then Some(log[|log| - 1])
    else Latest(log[..|log| - 1], key)
  }

  function EntryOf(w: Write): Entry {
    Entry(w.status, w.body, w.time)
  }

  predicate NewerThan(log: seq<Write>, key: Key, watermark: int) {
    Latest(log, key).Some? && Latest(log, key).value.time > watermark
  }

  /** The contents are exactly the latest write of each key newer than the watermark. */
  ghost predicate IsRecencySuffix(m: Entries, log: seq<Write>, watermark: int) {
    && (forall key :: key in m <==> NewerThan(log, key, watermark))
    && (forall key :: key in m ==> m[key] == EntryOf(Latest(log, key).value))
  }

  ghost predicate LogAdvances(log: seq<Write>, clock: int) {
    && (forall i, j :: 0 <= i < j < |log| ==> log[i].time < log[j].time)
    && (forall i :: 0 <= i < |log| ==> log[i].time <= clock)
  }

  /** What was found at a lookup is what the log then said last. */
  ghost predicate FoundLatest(log: seq<Write>, key: Key, found: Option<Entry>, seen: nat) {
    && seen <= |log|
    && (found.Some? ==> Latest(log[..seen], key).Some? && found.value == EntryOf(Latest(log[..seen], key).value))
  }

  ghost predicate Invariant(cfg: Config, s: System, watermark: int) {
    && LogAdvances(s.log, s.clock)
    && IsRecencySuffix(s.entries, s.log, watermark)
    && |s.entries| <= cfg.maxEntries
    && (forall c :: c in s.callers ==> FoundLatest(s.log, s.callers[c].key, s.callers[c].found, s.callers[c].seen))
    && (forall i :: 0 <= i < |s.hits| ==>
          FoundLatest(s.log, s.hits[i].key, Some(s.hits[i].entry), s.hits[i].seen) &&
          s.hits[i].now - s.hits[i].entry.createdAt < cfg.ttl)
  }

  lemma {:induction false} LatestIsInLog(log: seq<Write>, key: Key) returns (i: nat)
    requires Latest(log, key).Some?
    ensures i < |log| && log[i] == Latest(log, key).value && log[i].key == key
  {
    if log[|log| - 1].key == key {
      i := |log| - 1;
    } else {
      i := LatestIsInLog(log[..|log| - 1], key);
    }
  }

  lemma LatestAppended(log: seq<Write>, w: Write, key: Key)
    ensures Latest(log + [w], key) == if w.key == key then Some(w) else Latest(log, key)
  {
    assert (log + [w])[..|log|] == log;
  }

  /** No two entries are equally old. */
  lemma EntriesHaveDistinctTimes(s: System, watermark: int)
    requires LogAdvances(s.log, s.clock) && IsRecencySuffix(s.entries, s.log, watermark)
    ensures DistinctTimes(s.entries)
    ensures forall k :: k in s.entries ==> watermark < s.entries[k].createdAt <= s.clock
  {
    forall k | k in s.entries
      ensures watermark < s.entries[k].createdAt <= s.clock
    {
      var i := LatestIsInLog(s.log, k);
    }
    forall j, k | j in s.entries && k in s.entries && j != k
      ensures s.entries[j].createdAt != s.entries[k].createdAt
    {
      var a := LatestIsInLog(s.log, j);
      var b := LatestIsInLog(s.log, k);
      assert a != b;
    }
  }

  lemma FoundLatestKept(log: seq<Write>, w: Write, key: Key, found: Option<Entry>, seen: nat)
    requires FoundLatest(log, key, found, seen)
    ensures FoundLatest(log + [w], key, found, seen)
  {
    assert (log + [w])[..seen] == log[..seen];
  }

  lemma VictimExists(cfg: Config, m: Entries, now: int, kept: Entries) returns (victim: Key)
    requires |m| == cfg.maxEntries >= 1 && Evicted(cfg, m, now, kept)
    requires forall k :: k in m ==> m[k].createdAt < now
    ensures IsVictim(m, now, victim) && kept == m - {victim} && |kept| < cfg.maxEntries
  {
    assert m.Keys != {};
    var any :| any in m;
    victim :| IsVictim(m, now, victim) && kept == m - {victim};
    assert kept.Keys == m.Keys - {victim};
  }

  /** Eviction raises the watermark to the victim's time. */
  lemma RemovalKeepsRecency(m: Entries, log: seq<Write>, now: int, victim: Key, watermark: int)
    requires IsRecencySuffix(m, log, watermark) && DistinctTimes(m) && IsVictim(m, now, victim)
    requires m[victim].createdAt > watermark
    ensures IsRecencySuffix(m - {victim}, log, m[victim].createdAt)
  {
    var m', w := m - {victim}, m[victim].createdAt;
    forall key
      ensures key in m' <==> NewerThan(log, key, w)
    {
      assert key in m <==> NewerThan(log, key, watermark);
    }
  }

  lemma EvictionKeepsRecency(cfg: Config, s: System, now: int, kept: Entries, watermark: int) returns (watermark': int)
    requires LogAdvances(s.log, s.clock) && IsRecencySuffix(s.entries, s.log, watermark)
    requires s.clock < now && cfg.maxEntries >= 1 && |s.entries| <= cfg.maxEntries && Evicted(cfg, s.entries, now, kept)
    ensures IsRecencySuffix(kept, s.log, watermark') && (watermark' == watermark || watermark' <= s.clock)
    ensures |kept| < cfg.maxEntries
  {
    EntriesHaveDistinctTimes(s, watermark);
    if |s.entries| < cfg.maxEntries {
      watermark' := watermark;
    } else {
      var victim := VictimExists(cfg, s.entries, now, kept);
      watermark' := s.entries[victim].createdAt;
      RemovalKeepsRecency(s.entries, s.log, now, victim, watermark);
    }
  }

  lemma WriteKeepsRecency(m: Entries, log: seq<Write>, w: Write, watermark: int)
    requires IsRecencySuffix(m, log, watermark) && w.time > watermark
    ensures IsRecencySuffix(m[w.key := EntryOf(w)], log + [w], watermark)
  {
    forall key
      ensures Latest(log + [w], key) == if w.key == key then Some(w) else Latest(log, key)
    {
      LatestAppended(log, w, key);
    }
  }

  lemma LogKeepsReaders(cfg: Config, s: System, e: Event, watermark: int)
    requires Invariant(cfg, s, watermark) && e.Store?
    ensures forall c :: c in s.callers ==>
              FoundLatest(Apply(cfg, s, e).log, s.callers[c].key, s.callers[c].found, s.callers[c].seen)
    ensures forall i :: 0 <= i < |s.hits| ==>
              FoundLatest(Apply(cfg, s, e).log, s.hits[i].key, Some(s.hits[i].entry), s.hits[i].seen)
  {
    var w := Write(e.key, e.status, e.body, e.createdAt);
    forall c | c in s.callers
      ensures FoundLatest(s.log + [w], s.callers[c].key, s.callers[c].found, s.callers[c].seen)
    {
      FoundLatestKept(s.log, w, s.callers[c].key, s.callers[c].found, s.callers[c].seen);
    }
    forall i | 0 <= i < |s.hits|
      ensures FoundLatest(s.log + [w], s.hits[i].key, Some(s.hits[i].entry), s.hits[i].seen)
    {
      FoundLatestKept(s.log, w, s.hits[i].key, Some(s.hits[i].entry), s.hits[i].seen);
    }
  }

  lemma StoreKeepsInvariant(cfg: Config, s: System, e: Event, watermark: int) returns (watermark': int)
    requires cfg.maxEntries >= 1 && Invariant(cfg, s, watermark) && e.Store? && Enabled(cfg, s, e)
    requires watermark <= s.clock
    ensures Invariant(cfg, Apply(cfg, s, e), watermark') && watermark' <= Apply(cfg, s, e).clock
  {
    watermark' := EvictionKeepsRecency(cfg, s, e.evictAt, e.kept, watermark);
    WriteKeepsRecency(e.kept, s.log, Write(e.key, e.status, e.body, e.createdAt), watermark');
    LogKeepsReaders(cfg, s, e, watermark);
    assert e.kept[e.key := Entry(e.status, e.body, e.createdAt)].Keys == e.kept.Keys + {e.key};
  }

  lemma ReadKeepsInvariant(cfg: Config, s: System, e: Event, watermark: int)
    requires Invariant(cfg, s, watermark) && !e.Store? && Enabled(cfg, s, e)
    ensures Invariant(cfg, Apply(cfg, s, e), watermark)
  {
    if e.Look? {
      assert s.log[..|s.log|] == s.log;
    }
  }

  lemma {:induction false} InvariantHolds(cfg: Config, es: seq<Event>, ss: seq<System>, i: nat) returns (watermark: int)
    requires IsRun(cfg, es, ss) && i < |ss|
    ensures Invariant(cfg, ss[i], watermark) && watermark <= ss[i].clock
  {
    if i == 0 {
      watermark := ss[0].clock;
    } else {
      watermark := InvariantHolds(cfg, es, ss, i - 1);
      var s, e := ss[i - 1], es[i - 1];
      assert Enabled(cfg, s, e) && ss[i] == Apply(cfg, s, e);
      if e.Store? {
        watermark := StoreKeepsInvariant(cfg, s, e, watermark);
      } else {
        ReadKeepsInvariant(cfg, s, e, watermark);
      }
    }
  }

  // ----- Theorems about every run -----

  /** The cache is a recency suffix of its write log, within its bound, and its next eviction
      has one possible result. */
  lemma CacheIsRecencySuffix(cfg: Config, es: seq<Event>, ss: seq<System>, i: nat)
    requires IsRun(cfg, es, ss) && i < |ss|
    ensures exists watermark :: IsRecencySuffix(ss[i].entries, ss[i].log, watermark)
    ensures |ss[i].entries| <= cfg.maxEntries
    ensures forall now, m1, m2 :: Evicted(cfg, ss[i].entries, now, m1) && Evicted(cfg, ss[i].entries, now, m2) ==>
              m1 == m2
  {
    var watermark := InvariantHolds(cfg, es, ss, i);
    EntriesHaveDistinctTimes(ss[i], watermark);
    forall now, m1, m2 | Evicted(cfg, ss[i].entries, now, m1) && Evicted(cfg, ss[i].entries, now, m2)
      ensures m1 == m2
    {
      EvictionIgnoresOrder(cfg, ss[i].entries, now, m1, m2);
    }
  }

  /** A lookup finds what was stored last under its key, or nothing: no key was written since the
      watermark that all keys share. */
  lemma LookupFindsLatest(cfg: Config, es: seq<Event>, ss: seq<System>, i: nat) returns (watermark: int)
    requires IsRun(cfg, es, ss) && i < |ss|
    ensures forall key :: Find(ss[i].entries, key) ==
              if NewerThan(ss[i].log, key, watermark) then Some(EntryOf(Latest(ss[i].log, key).value)) else None
  {
    watermark := InvariantHolds(cfg, es, ss, i);
  }

  /** A hit returns the bytes that were stored last under its key when it looked, less than the
      TTL ago. */
  lemma HitsAreFresh(cfg: Config, es: seq<Event>, ss: seq<System>, i: nat, h: nat)
    requires IsRun(cfg, es, ss) && i < |ss| && h < |ss[i].hits|
    ensures var hit := ss[i].hits[h];
            && hit.seen <= |ss[i].log|
            && Latest(ss[i].log[..hit.seen], hit.key).Some?
            && hit.entry == EntryOf(Latest(ss[i].log[..hit.seen], hit.key).value)
            && hit.now - hit.entry.createdAt < cfg.ttl
  {
    var watermark := InvariantHolds(cfg, es, ss, i);
  }

  /** A caller has a hit exactly when its lookup, in step k, found an entry that is still younger than the
      TTL at its age check. */
  lemma HitIff(cfg: Config, es: seq<Event>, ss: seq<System>, i: nat) returns (k: nat)
    requires IsRun(cfg, es, ss) && i < |es| && es[i].Check?
    ensures k < i && es[k].Look? && es[k].c == es[i].c
    ensures |ss[i + 1].hits| > |ss[i].hits| <==>
            es[k].key in ss[k].entries && es[i].now - ss[k].entries[es[k].key].createdAt < cfg.ttl
    ensures |ss[i + 1].hits| > |ss[i].hits| ==>
            es[k].key in ss[k].entries &&
            ss[i + 1].hits == ss[i].hits + [Hit(es[k].key, ss[k].entries[es[k].key], |ss[k].log|, es[i].now)]
  {
    assert Enabled(cfg, ss[i], es[i]) && ss[i + 1] == Apply(cfg, ss[i], es[i]);
    k := LookedUpAt(cfg, es, ss, i, es[i].c);
  }

  lemma {:induction false} LookedUpAt(cfg: Config, es: seq<Event>, ss: seq<System>, i: nat, c: CallerId)
    returns (k: nat)
    requires IsRun(cfg, es, ss) && i < |ss| && c in ss[i].callers
    ensures k < i && es[k].Look? && es[k].c == c
    ensures ss[i].callers[c] ==
            Pending(es[k].key, if es[k].key in ss[k].entries then Some(ss[k].entries[es[k].key]) else None, |ss[k].log|)
  {
    assert Enabled(cfg, ss[i - 1], es[i - 1]) && ss[i] == Apply(cfg, ss[i - 1], es[i - 1]);
    if es[i - 1].Look? && es[i - 1].c == c {
      k := i - 1;
    } else {
      k := LookedUpAt(cfg, es, ss, i - 1, c);
    }
  }

  predicate HasOlder(m: Entries, now: int) {
    exists k :: k in m && m[k].createdAt < now
  }

  lemma EvictionRemovesOneIffOlder(cfg: Config, m: Entries, now: int, kept: Entries)
    requires |m| == cfg.maxEntries && Evicted(cfg, m, now, kept)
    ensures kept.Keys <= m.Keys
    ensures |kept| == if HasOlder(m, now) then |m| - 1 else |m|
  {
    if HasOlder(m, now) {
      var victim :| IsVictim(m, now, victim) && kept == m - {victim};
      assert kept.Keys == m.Keys - {victim};
    } else {
      assert kept == m;
    }
  }

  lemma PutNewKey(m: Entries, key: Key, e: Entry)
    requires key !in m
    ensures |m[key := e]| == |m| + 1
  {
    assert m[key := e].Keys == m.Keys + {key};
  }

  /** The clock must advance: storing a new key keeps a full cache within its bound if and only if
      some entry is older than the reading the eviction makes. */
  lemma BoundNeedsOlderEntry(cfg: Config, m: Entries, now: int, key: Key, e: Entry, kept: Entries)
    requires |m| == cfg.maxEntries && key !in m && Evicted(cfg, m, now, kept)
    ensures |kept[key := e]| <= cfg.maxEntries <==> HasOlder(m, now)
  {
    EvictionRemovesOneIffOlder(cfg, m, now, kept);
    PutNewKey(kept, key, e);
  }
}
