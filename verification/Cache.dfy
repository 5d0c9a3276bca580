/**
 The response cache of cache.go: the bounded store and its eviction loop.  Times are integer
 nanoseconds; a stored response is its status and its body bytes.
 */
module Cache {
  import opened Wrappers

  type Key = string
  datatype Config = Config(ttl: int, maxEntries: int, httpMethods: seq<string>)

  function WithDefaults(given: Config): Config {
    Config(
      if given.ttl == 0 then 300 * SECOND else given.ttl,
      if given.maxEntries == 0 then 1000 else given.maxEntries,
      if |given.httpMethods| == 0 then ["GET", "HEAD"] else given.httpMethods)
  }

  lemma DefaultsFillZeros(given: Config)
    ensures WithDefaults(given).ttl == if given.ttl != 0 then given.ttl else 300_000_000_000
    ensures WithDefaults(given).maxEntries == if given.maxEntries != 0 then given.maxEntries else 1000
    ensures given.httpMethods != [] ==> WithDefaults(given).httpMethods == given.httpMethods
    ensures given.httpMethods == [] ==> WithDefaults(given).httpMethods == ["GET", "HEAD"]
  {
  }

  datatype Entry = Entry(status: int, body: seq<Byte>, createdAt: int)

  type Entries = map<Key, Entry>

  /** What the section under the read lock finds. */
  function Find(m: Entries, key: Key): Option<Entry> {
    if key in m then Some(m[key]) else None
  }

  /** `k` is among the oldest of the entries made before `now`. */
  ghost predicate IsVictim(m: Entries, now: int, k: Key) {
    && k in m
    && m[k].createdAt < now
    && forall other :: other in m ==> m[k].createdAt <= m[other].createdAt
  }

  /** What the eviction at time `now` may leave, over all orders of the loop through the map. */
  ghost predicate Evicted(cfg: Config, m: Entries, now: int, m': Entries) {
    if |m| < cfg.maxEntries then m' == m
    else if forall k :: k in m ==> m[k].createdAt >= now then m' == m
    else exists k :: IsVictim(m, now, k) && m' == m - {k}
  }

  ghost predicate DistinctTimes(m: Entries) {
    forall j, k :: j in m && k in m && j != k ==> m[j].createdAt != m[k].createdAt
  }

  /** When no two entries are equally old, the order of the loop does not matter. */
  lemma EvictionIgnoresOrder(cfg: Config, m: Entries, now: int, m1: Entries, m2: Entries)
    requires DistinctTimes(m) && Evicted(cfg, m, now, m1) && Evicted(cfg, m, now, m2)
    ensures m1 == m2
  {
    if m1 != m {
      var k1 :| IsVictim(m, now, k1) && m1 == m - {k1};
      var k2 :| IsVictim(m, now, k2) && m2 == m - {k2};
      assert m[k1].createdAt == m[k2].createdAt;
    }
  }

  function Put(m: Entries, key: Key, status: int, body: seq<Byte>, createdAt: int): Entries {
    m[key := Entry(status, body, createdAt)]
  }

  class CachePolicy {
    const cfg: Config
    var entries: Entries

    constructor (given: Config)
      ensures cfg == WithDefaults(given) && entries == map[]
    {
      cfg := WithDefaults(given);
      entries := map[];
    }

    method IsCacheable(httpMethod: string) returns (cacheable: bool)
      ensures cacheable <==> httpMethod in cfg.httpMethods
    {
      for i := 0 to |cfg.httpMethods|
        invariant httpMethod !in cfg.httpMethods[..i]
      {
        if cfg.httpMethods[i] == httpMethod {
          return true;
        }
      }
      return false;
    }

    /** The section under the read lock. */
    method Lookup(key: Key) returns (found: Option<Entry>)
      ensures found == Find(entries, key)
    {
      found := None;
      if key in entries {
        found := Some(entries[key]);
      }
    }

    /** The loop that looks for the oldest entry visits the keys in any order.  The source marks
        "none found" by the empty string, which is no key. */
    method Evict(now: int)
      modifies this
      ensures Evicted(cfg, old(entries), now, entries)
    {
      if |entries| >= cfg.maxEntries {
        var oldest: Option<Key> := None;
        var oldestTime := now;
        var todo := entries.Keys;
        while todo != {}
          invariant todo <= entries.Keys
          invariant oldest.None? ==> oldestTime == now
          invariant oldest.Some? ==> oldest.value in entries && entries[oldest.value].createdAt == oldestTime < now
          invariant forall k :: k in entries && k !in todo ==> oldestTime <= entries[k].createdAt
          decreases todo
        {
          var k :| k in todo;
          if entries[k].createdAt < oldestTime {
            oldest := Some(k);
            oldestTime := entries[k].createdAt;
          }
          todo := todo - {k};
        }
        if oldest.Some? {
          assert IsVictim(entries, now, oldest.value);
          entries := entries - {oldest.value};
        }
      }
    }

    /** The section under the write lock; `evictAt` and `createdAt` are its two clock readings. */
    method Store(key: Key, status: int, body: seq<Byte>, evictAt: int, createdAt: int)
      modifies this
      ensures exists kept :: Evicted(cfg, old(entries), evictAt, kept) &&
                             entries == Put(kept, key, status, body, createdAt)
    {
      Evict(evictAt);
      entries := entries[key := Entry(status, body, createdAt)];
    }
  }
}
