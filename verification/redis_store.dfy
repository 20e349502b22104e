/** The Redis-backed store `RedisCache`: every key lives on the server under
    the namespace `prefix + key`, as a JSON payload that either decodes to a
    cache item or does not, and may carry a server-side deadline after which
    Redis treats it as gone. The store keeps running hit/miss counters. Each
    server call's reachability is the explicit `Link` argument. */
module RedisStore {

  import opened Common
  import opened Strings
  import opened CacheTypes

  /** A value found on the server: JSON that decodes to an item, or not. */
  datatype Payload = Decodable(item: CacheItem) | Undecodable

  /** `server` holds the stored values; `deadlines` the last instant at which
      a key with a TTL still exists (Redis drops it once the clock passes). */
  datatype RedisCache = RedisCache(server: map<string, Payload>, deadlines: map<string, nat>,
                                   prefix: string, stats: CacheStats)

  /** The prefix used when `REDIS_PREFIX` is unset or empty. */
  const DefaultPrefix: string := "cms_cache:"

  /** `NewRedisCache`: the configured prefix (default "cms_cache:") and zeroed
      "redis" statistics when the server answers the ping; no store otherwise.
      `server` and `deadlines` are whatever the server already holds. */
  function NewRedisCache(prefixEnv: string, server: map<string, Payload>, deadlines: map<string, nat>, ping: Link)
    : (r: Option<RedisCache>)
    ensures ping == Down <==> r.None?
    ensures r.Some? ==> r.value.server == server && r.value.deadlines == deadlines
    ensures r.Some? ==> r.value.prefix == (if prefixEnv == "" then "cms_cache:" else prefixEnv)
    ensures r.Some? ==> r.value.stats == CacheStats(0, 0, 0.0, 0, "redis")
  {
    if ping == Down then None
    else Some(RedisCache(server, deadlines, if prefixEnv == "" then DefaultPrefix else prefixEnv,
                         CacheStats(0, 0, 0.0, 0, RedisType)))
  }

  /** The server keys inside the store's namespace. */
  predicate InNamespace(r: RedisCache, k: string) {
    HasPrefix(k, r.prefix)
  }

  /** The glob `prefix*pattern*` (patterns taken literally): a namespaced key
      whose remainder after the prefix contains `pattern`. */
  predicate MatchesPattern(r: RedisCache, k: string, pattern: string) {
    HasPrefix(k, r.prefix) && Contains(k[|r.prefix|..], pattern)
  }

  /** A server key exists at `now`: stored, and not past its deadline if it
      has one. */
  predicate Live(r: RedisCache, k: string, now: nat) {
    k in r.server && (k in r.deadlines ==> now <= r.deadlines[k])
  }

  /** Reference view: the item a successful read of `key` would return at
      `now` — live on the server, decodable and not expired. */
  function View(r: RedisCache, key: string, now: nat): Option<CacheItem>
  {
    var full := r.prefix + key;
    if Live(r, full, now) && r.server[full].Decodable? && !Expired(r.server[full].item, now)
    then Some(r.server[full].item) else None
  }

  /** Two servers agree on every key outside the namespace of `prefix`. */
  ghost predicate SameOutside(s: map<string, Payload>, s': map<string, Payload>, prefix: string) {
    forall k :: !HasPrefix(k, prefix) ==> (k in s <==> k in s') && (k in s ==> s'[k] == s[k])
  }

  function WithStats(r: RedisCache, hits: nat, misses: nat): RedisCache {
    r.(stats := r.stats.(hits := hits, misses := misses))
  }

  /** `Get`: every call counts exactly one hit or one miss. A network error,
      an absent key (never stored, or past its server deadline), an
      undecodable payload and an expired item are misses; reading an expired
      item also deletes its key, while an undecodable payload is left in
      place. */
  function Get(r: RedisCache, key: string, now: nat, link: Link): (res: (RedisCache, Option<CacheItem>))
    ensures link == Up ==> res.1 == View(r, key, now)
    ensures link == Down ==> res.1 == None
    ensures res.1.Some? ==> res.0.stats.hits == r.stats.hits + 1 && res.0.stats.misses == r.stats.misses
    ensures res.1.None? ==> res.0.stats.misses == r.stats.misses + 1 && res.0.stats.hits == r.stats.hits
    ensures res.0.prefix == r.prefix && res.0.deadlines == r.deadlines
    ensures var full := r.prefix + key;
      if link == Up && Live(r, full, now) && r.server[full].Decodable? && Expired(r.server[full].item, now)
      then res.0.server == r.server - {full}
      else res.0.server == r.server
  {
    var full := r.prefix + key;
    var miss := WithStats(r, r.stats.hits, r.stats.misses + 1);
    if link == Down || !Live(r, full, now) then (miss, None)
    else match r.server[full]
      case Undecodable => (miss, None)
      case Decodable(item) =>
        if Expired(item, now) then (miss.(server := r.server - {full}), None)
        else (WithStats(r, r.stats.hits + 1, r.stats.misses), Some(item))
  }

  /** `Set`: writes the encoded item under `prefix + key` with the item's
      TTL as the key's server-side lifetime, or reports the server error and
      changes nothing. A positive TTL sets the deadline `now + ttl`, the
      item's own expiry; any other TTL stores the key without one. */
  function Set(r: RedisCache, key: string, data: seq<byte>, headers: map<string, string>, ttl: int, now: nat, link: Link)
    : (res: (RedisCache, Outcome))
    ensures res.1.Ok? <==> link.Up?
    ensures res.0.prefix == r.prefix && res.0.stats == r.stats
    ensures link == Down ==> res.0 == r
    ensures link == Up ==> res.0.server.Keys == r.server.Keys + {r.prefix + key}
    ensures link == Up ==> res.0.server[r.prefix + key] == Decodable(NewItem(data, headers, ttl, now))
    ensures link == Up && ttl > 0 ==> res.0.deadlines == r.deadlines[r.prefix + key := now + ttl]
    ensures link == Up && ttl <= 0 ==> res.0.deadlines == r.deadlines - {r.prefix + key}
    ensures forall k :: k in r.server && k != r.prefix + key ==> k in res.0.server && res.0.server[k] == r.server[k]
  {
    if link == Down then (r, Err("failed to set cache item"))
    else
      var full := r.prefix + key;
      (r.(server := r.server[full := Decodable(NewItem(data, headers, ttl, now))],
          deadlines := if ttl > 0 then r.deadlines[full := now + ttl] else r.deadlines - {full}), Ok)
  }

  /** `Delete`: removes `prefix + key`, or reports the server error. */
  function Delete(r: RedisCache, key: string, link: Link): (res: (RedisCache, Outcome))
    ensures res.1.Ok? <==> link.Up?
    ensures link == Down ==> res.0 == r
    ensures link == Up ==> res.0.server.Keys == r.server.Keys - {r.prefix + key}
    ensures forall k :: k in res.0.server ==> k in r.server && res.0.server[k] == r.server[k]
    ensures res.0.prefix == r.prefix && res.0.stats == r.stats
  {
    if link == Down then (r, Err("failed to delete cache item"))
    else (r.(server := r.server - {r.prefix + key}), Ok)
  }

  /** `Clear`: deletes exactly the keys of the namespace (`KEYS prefix*`). */
  function Clear(r: RedisCache, link: Link): (res: (RedisCache, Outcome))
    ensures res.1.Ok? <==> link.Up?
    ensures link == Down ==> res.0 == r
    ensures link == Up ==> forall k :: k in res.0.server <==> k in r.server && !InNamespace(r, k)
    ensures forall k :: k in res.0.server ==> res.0.server[k] == r.server[k]
    ensures res.0.prefix == r.prefix && res.0.stats == r.stats
  {
    if link == Down then (r, Err("failed to get keys"))
    else (r.(server := map k | k in r.server && !InNamespace(r, k) :: r.server[k]), Ok)
  }

  /** `InvalidatePattern`: deletes exactly the namespaced keys whose remainder
      contains `pattern` (`KEYS prefix*pattern*`). */
  function InvalidatePattern(r: RedisCache, pattern: string, link: Link): (res: (RedisCache, Outcome))
    ensures res.1.Ok? <==> link.Up?
    ensures link == Down ==> res.0 == r
    ensures link == Up ==> forall k :: k in res.0.server <==> k in r.server && !MatchesPattern(r, k, pattern)
    ensures forall k :: k in res.0.server ==> res.0.server[k] == r.server[k]
    ensures res.0.prefix == r.prefix && res.0.stats == r.stats
  {
    if link == Down then (r, Err("failed to get keys for pattern " + pattern))
    else (r.(server := map k | k in r.server && !MatchesPattern(r, k, pattern) :: r.server[k]), Ok)
  }

  /** The namespace population at `now`, as `KEYS prefix*` counts it: the
      live keys under the prefix. */
  function NamespaceKeys(r: RedisCache, now: nat): set<string>
  {
    set k | k in r.server && InNamespace(r, k) && Live(r, k, now)
  }

  /** `GetStats`: refreshes the key count when the enumeration succeeds and
      the hit ratio when at least one lookup was counted; the refreshed
      statistics are both stored and returned. */
  function GetStats(r: RedisCache, now: nat, link: Link): (res: (RedisCache, CacheStats))
    ensures res.0.stats == res.1
    ensures res.0.server == r.server && res.0.deadlines == r.deadlines && res.0.prefix == r.prefix
    ensures res.1.hits == r.stats.hits && res.1.misses == r.stats.misses && res.1.cacheType == r.stats.cacheType
    ensures link == Up ==> res.1.keyCount == |NamespaceKeys(r, now)|
    ensures link == Down ==> res.1.keyCount == r.stats.keyCount
    ensures r.stats.hits + r.stats.misses > 0 ==>
      res.1.hitRatio * ((r.stats.hits + r.stats.misses) as real) == r.stats.hits as real
    ensures r.stats.hits + r.stats.misses == 0 ==> res.1.hitRatio == r.stats.hitRatio
  {
    var keyCount := if link == Up then |NamespaceKeys(r, now)| else r.stats.keyCount;
    var total := r.stats.hits + r.stats.misses;
    var ratio := if total > 0 then (r.stats.hits as real) / (total as real) else r.stats.hitRatio;
    var s := r.stats.(keyCount := keyCount, hitRatio := ratio);
    (r.(stats := s), s)
  }

  /** `ResetStats`: zeroes the counters, the ratio and the key count. */
  function ResetStats(r: RedisCache): (res: (RedisCache, Outcome))
    ensures res.1 == Ok
    ensures res.0.server == r.server && res.0.deadlines == r.deadlines && res.0.prefix == r.prefix
    ensures res.0.stats == CacheStats(0, 0, 0.0, 0, r.stats.cacheType)
  {
    (r.(stats := CacheStats(0, 0, 0.0, 0, r.stats.cacheType)), Ok)
  }

  // ----- Properties relating several operations -----

  /** The remainder of a namespaced key is the caller's key. */
  lemma RemainderOfFullKey(r: RedisCache, key: string)
    ensures HasPrefix(r.prefix + key, r.prefix)
    ensures (r.prefix + key)[|r.prefix|..] == key
  {
    assert (r.prefix + key)[..|r.prefix|] == r.prefix;
  }

  /** Every operation leaves the keys outside the namespace untouched. */
  lemma OutsideNamespaceUntouched(r: RedisCache, key: string, pattern: string, now: nat,
                                  data: seq<byte>, headers: map<string, string>, ttl: int, link: Link)
    ensures SameOutside(r.server, Get(r, key, now, link).0.server, r.prefix)
    ensures SameOutside(r.server, Set(r, key, data, headers, ttl, now, link).0.server, r.prefix)
    ensures SameOutside(r.server, Delete(r, key, link).0.server, r.prefix)
    ensures SameOutside(r.server, Clear(r, link).0.server, r.prefix)
    ensures SameOutside(r.server, InvalidatePattern(r, pattern, link).0.server, r.prefix)
  {
    RemainderOfFullKey(r, key);
  }

  /** Round trip: after a successful `Set` at `t`, a read at `u` returns the
      stored data and headers exactly when `u <= t + ttl`. */
  lemma GetAfterSet(r: RedisCache, key: string, data: seq<byte>, headers: map<string, string>, ttl: int, t: nat, u: nat)
    ensures u <= t + ttl ==> View(Set(r, key, data, headers, ttl, t, Up).0, key, u) == Some(CacheItem(data, headers, t + ttl))
    ensures u > t + ttl ==> View(Set(r, key, data, headers, ttl, t, Up).0, key, u) == None
  {
  }

  /** After a successful `Set` at `t` with a positive TTL, the key is counted
      by `KEYS prefix*` up to `t + ttl` and no longer afterwards; every other
      key's membership in the count is as before the write. */
  lemma {:induction false} KeyCountFollowsDeadline(r: RedisCache, key: string, data: seq<byte>, headers: map<string, string>,
                                                    ttl: int, t: nat, u: nat)
    requires ttl > 0
    ensures u <= t + ttl ==> NamespaceKeys(Set(r, key, data, headers, ttl, t, Up).0, u) == NamespaceKeys(r, u) + {r.prefix + key}
    ensures u > t + ttl ==> NamespaceKeys(Set(r, key, data, headers, ttl, t, Up).0, u) == NamespaceKeys(r, u) - {r.prefix + key}
  {
    RemainderOfFullKey(r, key);
    var r' := Set(r, key, data, headers, ttl, t, Up).0;
    assert r'.deadlines[r.prefix + key] == t + ttl;
    assert forall k :: k != r.prefix + key ==> (Live(r', k, u) <==> Live(r, k, u));
  }

  /** After a successful `InvalidatePattern(p)`, the keys containing `p` read
      as absent and every other key reads as before. */
  lemma InvalidateExactly(r: RedisCache, pattern: string, key: string, u: nat)
    ensures Contains(key, pattern) ==> View(InvalidatePattern(r, pattern, Up).0, key, u) == None
    ensures !Contains(key, pattern) ==> View(InvalidatePattern(r, pattern, Up).0, key, u) == View(r, key, u)
  {
    RemainderOfFullKey(r, key);
  }

  /** After a successful `Clear`, no key of the namespace remains. */
  lemma ClearEmptiesNamespace(r: RedisCache, key: string, u: nat)
    ensures View(Clear(r, Link.Up).0, key, u) == None
    ensures NamespaceKeys(Clear(r, Link.Up).0, u) == {}
  {
    RemainderOfFullKey(r, key);
  }

  /** Two successive deletes of one key equal one. */
  lemma DeleteIdempotent(r: RedisCache, key: string)
    ensures Delete(Delete(r, key, Up).0, key, Up) == Delete(r, key, Up)
  {
    assert Delete(Delete(r, key, Up).0, key, Up).0.server == Delete(r, key, Up).0.server;
  }

  /** One miss followed by four hits gives a hit ratio of 0.8. */
  lemma OneMissFourHits(r: RedisCache, now: nat, link: Link)
    requires r.stats.hits == 4 && r.stats.misses == 1
    ensures GetStats(r, now, link).1.hitRatio == 0.8
  {
  }
}
