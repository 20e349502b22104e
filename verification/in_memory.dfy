/** The in-process store `InMemoryCache`: a map from key to item with lazy
    expiry on read and an eager sweep of expired entries. Every operation is
    a pure state transformer; the reader/writer lock is not modelled. */
module InMemory {

  import opened Common
  import opened Strings
  import opened CacheTypes

  datatype MemCache = MemCache(items: map<string, CacheItem>)

  /** `NewInMemoryCache`: no entries, so every read misses and the key
      count is zero. */
  function Empty(): (c: MemCache)
    ensures |c.items| == 0
    ensures forall k, now :: Get(c, k, now).None?
    ensures GetStats(c).keyCount == 0
  {
    MemCache(map[])
  }

  /** `Get`: the stored item unless absent or expired. It takes no state out,
      so a read never removes or alters an entry, expired ones included. */
  function Get(c: MemCache, key: string, now: nat): (r: Option<CacheItem>)
    ensures r.Some? ==> key in c.items && r.value == c.items[key] && !Expired(r.value, now)
    ensures r.None? ==> key !in c.items || Expired(c.items[key], now)
  {
    if key !in c.items then None
    else if Expired(c.items[key], now) then None
    else Some(c.items[key])
  }

  /** `Set`: unconditionally replaces the entry for `key`; always succeeds. */
  function Set(c: MemCache, key: string, data: seq<byte>, headers: map<string, string>, ttl: int, now: nat)
    : (r: (MemCache, Outcome))
    ensures r.1 == Ok
    ensures r.0.items.Keys == c.items.Keys + {key}
    ensures r.0.items[key] == NewItem(data, headers, ttl, now)
    ensures forall k :: k in c.items && k != key ==> r.0.items[k] == c.items[k]
  {
    (MemCache(c.items[key := NewItem(data, headers, ttl, now)]), Ok)
  }

  /** `Delete`: removes `key` if present; always succeeds. */
  function Delete(c: MemCache, key: string): (r: (MemCache, Outcome))
    ensures r.1 == Ok
    ensures r.0.items.Keys == c.items.Keys - {key}
    ensures forall k :: k in r.0.items ==> r.0.items[k] == c.items[k]
  {
    (MemCache(c.items - {key}), Ok)
  }

  /** `Clear`: drops every entry; always succeeds. */
  function Clear(c: MemCache): (r: (MemCache, Outcome))
    ensures r.1 == Ok
    ensures r.0.items == map[]
  {
    (Empty(), Ok)
  }

  /** `InvalidatePattern`: removes every key containing `pattern`. */
  function InvalidatePattern(c: MemCache, pattern: string): (r: (MemCache, Outcome))
    ensures r.1 == Ok
    ensures forall k :: k in r.0.items <==> k in c.items && !Contains(k, pattern)
    ensures forall k :: k in r.0.items ==> r.0.items[k] == c.items[k]
  {
    (MemCache(map k | k in c.items && !Contains(k, pattern) :: c.items[k]), Ok)
  }

  /** One pass of the `cleanup` goroutine at instant `now`: removes the
      entries past their expiry. */
  function Cleanup(c: MemCache, now: nat): (c': MemCache)
    ensures forall k :: k in c'.items <==> k in c.items && !Expired(c.items[k], now)
    ensures forall k :: k in c'.items ==> c'.items[k] == c.items[k]
  {
    MemCache(map k | k in c.items && !Expired(c.items[k], now) :: c.items[k])
  }

  /** `GetStats`: counts every stored entry, swept or not, and reports no
      hit/miss accounting. */
  function GetStats(c: MemCache): (s: CacheStats)
    ensures s.keyCount == |c.items|
    ensures s.cacheType == "in_memory"
    ensures s.hits == 0 && s.misses == 0 && s.hitRatio == 0.0
  {
    CacheStats(0, 0, 0.0, |c.items|, InMemoryType)
  }

  /** `ResetStats`: nothing is tracked, so nothing changes: the entries,
      every read and the reported statistics stay as they were, and it
      never fails. */
  function ResetStats(c: MemCache): (r: (MemCache, Outcome))
    ensures r == (c, Ok)
    ensures forall k, now :: Get(r.0, k, now) == Get(c, k, now)
    ensures GetStats(r.0) == GetStats(c)
  {
    (c, Ok)
  }

  // ----- Properties relating several operations -----

  /** Round trip: what `Set` stores at `t` is read back exactly until `t+ttl`
      inclusive, and reads as absent afterwards. */
  lemma GetAfterSet(c: MemCache, key: string, data: seq<byte>, headers: map<string, string>, ttl: int, t: nat, u: nat)
    ensures u <= t + ttl ==> Get(Set(c, key, data, headers, ttl, t).0, key, u) == Some(CacheItem(data, headers, t + ttl))
    ensures u > t + ttl ==> Get(Set(c, key, data, headers, ttl, t).0, key, u) == None
  {
  }

  /** `Set` of one key leaves every other key's reading unchanged. */
  lemma SetLeavesOtherKeys(c: MemCache, key: string, other: string, data: seq<byte>,
                           headers: map<string, string>, ttl: int, t: nat, u: nat)
    requires other != key
    ensures Get(Set(c, key, data, headers, ttl, t).0, other, u) == Get(c, other, u)
  {
  }

  /** `Delete` is idempotent, and a deleted key reads as absent. */
  lemma DeleteIdempotent(c: MemCache, key: string, u: nat)
    ensures Delete(Delete(c, key).0, key) == Delete(c, key)
    ensures Get(Delete(c, key).0, key, u) == None
  {
    assert Delete(Delete(c, key).0, key).0.items == Delete(c, key).0.items;
  }

  /** After `InvalidatePattern(p)` no remaining key contains `p`, and every
      key without `p` reads exactly as before. */
  lemma InvalidateExactly(c: MemCache, pattern: string, key: string, u: nat)
    ensures Contains(key, pattern) ==> Get(InvalidatePattern(c, pattern).0, key, u) == None
    ensures !Contains(key, pattern) ==> Get(InvalidatePattern(c, pattern).0, key, u) == Get(c, key, u)
  {
  }

  /** The empty pattern is a substring of every key, so it empties the map. */
  lemma InvalidateEmptyPatternClears(c: MemCache)
    ensures InvalidatePattern(c, "").0 == Empty()
  {
    forall k | k in c.items
      ensures Contains(k, "")
    {
      ContainsEmpty(k);
    }
    assert InvalidatePattern(c, "").0.items == map[];
  }

  /** A sweep at `now` never changes what `Get` returns at that instant. */
  lemma CleanupInvisible(c: MemCache, now: nat, key: string)
    ensures Get(Cleanup(c, now), key, now) == Get(c, key, now)
  {
  }

  /** Lazy expiry and the sweep agree: an entry is swept at `now` exactly
      when `Get` already reports it absent while it is still stored. */
  lemma SweptIffExpired(c: MemCache, now: nat, key: string)
    requires key in c.items
    ensures key !in Cleanup(c, now).items <==> Get(c, key, now).None?
  {
  }
}
