/** `CacheManager`: composes a primary and a fallback store. Whether Redis
    could be built decides the mode once, at construction:
    - `Healthy(redis, mem)`: primary is Redis, fallback the in-memory store,
      `useFallback` false;
    - `Degraded(mem)`: primary and fallback are the SAME in-memory store,
      `useFallback` true.
    Also the package-level surface over the optional global manager:
    `GetCacheStats`, `InvalidateCache`, `ClearAllCache` and the per-resource
    invalidators. */
module Manager {

  import opened Common
  import opened Strings
  import opened CacheTypes
  import Mem = InMemory
  import Redis = RedisStore

  datatype Manager = Healthy(redis: Redis.RedisCache, mem: Mem.MemCache) | Degraded(mem: Mem.MemCache)
  {
    /** The `useFallback` flag. */
    predicate UseFallback() { Degraded? }
  }

  /** `NewCacheManager`: Redis as primary when its construction succeeded,
      otherwise the fresh in-memory store as both primary and fallback. */
  function NewCacheManager(redis: Option<Redis.RedisCache>): (m: Manager)
    ensures m.UseFallback() <==> redis.None?
    ensures m.Healthy? ==> m.redis == redis.value
    ensures m.mem == Mem.Empty()
  {
    match redis
    case Some(r) => Healthy(r, Mem.Empty())
    case None => Degraded(Mem.Empty())
  }

  /** Reference view: what a lookup through the primary yields at `now` when
      the server (if any) answers. */
  function Lookup(m: Manager, key: string, now: nat): Option<CacheItem>
  {
    match m
    case Healthy(r, _) => Redis.View(r, key, now)
    case Degraded(mem) => Mem.Get(mem, key, now)
  }

  /** `Get`: the primary's answer. With `useFallback` false a primary miss is
      final and the in-memory store is never consulted; with `useFallback`
      true the "fallback" re-read is the same store, so it changes nothing. */
  function Get(m: Manager, key: string, now: nat, link: Link): (res: (Manager, Option<CacheItem>))
    ensures m.Degraded? ==> res.0 == m && res.1 == Lookup(m, key, now)
    ensures m.Healthy? ==> res.0.Healthy? && res.0.mem == m.mem
    ensures m.Healthy? && link.Up? ==> res.1 == Lookup(m, key, now)
    ensures m.Healthy? && link.Down? ==> res.1 == None
  {
    match m
    case Healthy(r, mem) =>
      var (r', item) := Redis.Get(r, key, now, link);
      (Healthy(r', mem), item)
    case Degraded(mem) =>
      var first := Mem.Get(mem, key, now);
      if first.Some? then (m, first) else (m, Mem.Get(mem, key, now))
  }

  /** `Set`: write to the primary; only when that write fails and
      `useFallback` is false, write to the fallback and return its result. */
  function Set(m: Manager, key: string, data: seq<byte>, headers: map<string, string>, ttl: int, now: nat, link: Link)
    : (res: (Manager, Outcome))
    ensures res.0.Healthy? <==> m.Healthy?
    ensures m.Degraded? ==> res.0.mem == Mem.Set(m.mem, key, data, headers, ttl, now).0
    ensures m.Healthy? ==> res.0.redis == Redis.Set(m.redis, key, data, headers, ttl, now, link).0
    ensures m.Healthy? ==> (res.0.mem != m.mem ==> link.Down?)
    ensures m.Healthy? && link.Up? ==> res.0.mem == m.mem
    ensures m.Healthy? && link.Down? ==> res.0.mem == Mem.Set(m.mem, key, data, headers, ttl, now).0
    ensures res.1 == Ok
  {
    match m
    case Healthy(r, mem) =>
      var (r', e) := Redis.Set(r, key, data, headers, ttl, now, link);
      if e.Err? then
        var (mem', e2) := Mem.Set(mem, key, data, headers, ttl, now);
        (Healthy(r', mem'), e2)
      else (Healthy(r', mem), Ok)
    case Degraded(mem) =>
      var (mem', e) := Mem.Set(mem, key, data, headers, ttl, now);
      (Degraded(mem'), e)
  }

  /** `Delete`: always on the primary, and on the fallback exactly when
      `useFallback` is false; the primary's error wins. */
  function Delete(m: Manager, key: string, link: Link): (res: (Manager, Outcome))
    ensures m.Degraded? ==> res == (Degraded(Mem.Delete(m.mem, key).0), Ok)
    ensures m.Healthy? ==> res.0 == Healthy(Redis.Delete(m.redis, key, link).0, Mem.Delete(m.mem, key).0)
    ensures m.Healthy? ==> res.1 == FirstError(Redis.Delete(m.redis, key, link).1, Mem.Delete(m.mem, key).1)
  {
    match m
    case Healthy(r, mem) =>
      var (r', e1) := Redis.Delete(r, key, link);
      var (mem', e2) := Mem.Delete(mem, key);
      (Healthy(r', mem'), if e1.Err? then e1 else e2)
    case Degraded(mem) =>
      var (mem', e1) := Mem.Delete(mem, key);
      (Degraded(mem'), e1)
  }

  /** `Clear`: the same fan-out rule as `Delete`. */
  function Clear(m: Manager, link: Link): (res: (Manager, Outcome))
    ensures m.Degraded? ==> res == (Degraded(Mem.Empty()), Ok)
    ensures m.Healthy? ==> res.0 == Healthy(Redis.Clear(m.redis, link).0, Mem.Empty())
    ensures m.Healthy? ==> res.1 == FirstError(Redis.Clear(m.redis, link).1, Ok)
  {
    match m
    case Healthy(r, mem) =>
      var (r', e1) := Redis.Clear(r, link);
      var (mem', e2) := Mem.Clear(mem);
      (Healthy(r', mem'), if e1.Err? then e1 else e2)
    case Degraded(mem) =>
      var (mem', e1) := Mem.Clear(mem);
      (Degraded(mem'), e1)
  }

  /** `InvalidatePattern`: the same fan-out rule as `Delete`. */
  function InvalidatePattern(m: Manager, pattern: string, link: Link): (res: (Manager, Outcome))
    ensures m.Degraded? ==> res == (Degraded(Mem.InvalidatePattern(m.mem, pattern).0), Ok)
    ensures m.Healthy? ==> res.0 == Healthy(Redis.InvalidatePattern(m.redis, pattern, link).0,
                                            Mem.InvalidatePattern(m.mem, pattern).0)
    ensures m.Healthy? ==> res.1 == FirstError(Redis.InvalidatePattern(m.redis, pattern, link).1, Ok)
  {
    match m
    case Healthy(r, mem) =>
      var (r', e1) := Redis.InvalidatePattern(r, pattern, link);
      var (mem', e2) := Mem.InvalidatePattern(mem, pattern);
      (Healthy(r', mem'), if e1.Err? then e1 else e2)
    case Degraded(mem) =>
      var (mem', e1) := Mem.InvalidatePattern(mem, pattern);
      (Degraded(mem'), e1)
  }

  /** `GetStats`: the primary's statistics. */
  function GetStats(m: Manager, now: nat, link: Link): (res: (Manager, CacheStats))
    ensures WellFormed(m) ==> res.1.cacheType == (if m.Healthy? then "redis" else "in_memory")
    ensures m.Degraded? ==> res == (m, Mem.GetStats(m.mem))
    ensures m.Healthy? ==> res.0 == Healthy(Redis.GetStats(m.redis, now, link).0, m.mem)
    ensures m.Healthy? ==> res.1 == Redis.GetStats(m.redis, now, link).1
  {
    match m
    case Healthy(r, mem) =>
      var (r', s) := Redis.GetStats(r, now, link);
      (Healthy(r', mem), s)
    case Degraded(mem) => (m, Mem.GetStats(mem))
  }

  /** `ResetStats`: the primary's reset. */
  function ResetStats(m: Manager): (res: (Manager, Outcome))
    ensures res.1 == Ok
    ensures m.Degraded? ==> res.0 == m
    ensures m.Healthy? ==> res.0 == Healthy(Redis.ResetStats(m.redis).0, m.mem)
  {
    match m
    case Healthy(r, mem) =>
      var (r', e) := Redis.ResetStats(r);
      (Healthy(r', mem), e)
    case Degraded(mem) => (m, Ok)
  }

  // ----- The package-level surface over the optional global manager -----

  /** `GetCacheStats`: "not_initialized" exactly when no manager exists. */
  function GetCacheStats(cm: Option<Manager>, now: nat, link: Link): (res: (Option<Manager>, CacheStats))
    ensures cm.Some? && WellFormed(cm.value) ==> res.1.cacheType != "not_initialized"
    ensures cm.None? ==> res == (None, CacheStats(0, 0, 0.0, 0, "not_initialized"))
    ensures cm.Some? ==> res.0.Some? && res.0.value.UseFallback() == cm.value.UseFallback()
  {
    match cm
    case None => (None, CacheStats(0, 0, 0.0, 0, NotInitializedType))
    case Some(m) =>
      var (m', s) := GetStats(m, now, link);
      (Some(m'), s)
  }

  /** A Redis primary still carries the "redis" type it was built with. */
  predicate WellFormed(m: Manager) {
    m.Healthy? ==> m.redis.stats.cacheType == RedisType
  }

  /** Construction yields a well-formed manager and no operation breaks it,
      so a live manager never reports "not_initialized". */
  lemma WellFormedPreserved(m: Manager, redisEnvPrefix: string, server: map<string, Redis.Payload>,
                            deadlines: map<string, nat>, ping: Link,
                            key: string, pattern: string, data: seq<byte>, headers: map<string, string>,
                            ttl: int, now: nat, link: Link)
    ensures WellFormed(NewCacheManager(Redis.NewRedisCache(redisEnvPrefix, server, deadlines, ping)))
    ensures WellFormed(m) ==> WellFormed(Get(m, key, now, link).0)
    ensures WellFormed(m) ==> WellFormed(Set(m, key, data, headers, ttl, now, link).0)
    ensures WellFormed(m) ==> WellFormed(Delete(m, key, link).0)
    ensures WellFormed(m) ==> WellFormed(Clear(m, link).0)
    ensures WellFormed(m) ==> WellFormed(InvalidatePattern(m, pattern, link).0)
    ensures WellFormed(m) ==> WellFormed(GetStats(m, now, link).0)
    ensures WellFormed(m) ==> WellFormed(ResetStats(m).0)
  {
  }

  /** The error returned when no manager was initialised. */
  const NotInitializedError: Outcome := Err("cache manager not initialized")

  /** `InvalidateCache`: the manager's pattern invalidation, or an error when
      there is no manager. */
  function InvalidateCache(cm: Option<Manager>, pattern: string, link: Link): (res: (Option<Manager>, Outcome))
    ensures cm.None? ==> res == (None, NotInitializedError)
    ensures cm.Some? ==> res == (Some(InvalidatePattern(cm.value, pattern, link).0), InvalidatePattern(cm.value, pattern, link).1)
  {
    match cm
    case None => (None, NotInitializedError)
    case Some(m) =>
      var (m', e) := InvalidatePattern(m, pattern, link);
      (Some(m'), e)
  }

  /** `ClearAllCache`: the manager's clear, or an error when there is none. */
  function ClearAllCache(cm: Option<Manager>, link: Link): (res: (Option<Manager>, Outcome))
    ensures cm.None? ==> res == (None, NotInitializedError)
    ensures cm.Some? ==> res == (Some(Clear(cm.value, link).0), Clear(cm.value, link).1)
  {
    match cm
    case None => (None, NotInitializedError)
    case Some(m) =>
      var (m', e) := Clear(m, link);
      (Some(m'), e)
  }

  /** `InvalidateMediaCache`, `InvalidatePostCache`, `InvalidatePageCache`:
      pattern invalidation with the resource's own name. */
  function InvalidateResource(cm: Option<Manager>, res: Resource, link: Link): (r: (Option<Manager>, Outcome))
    ensures cm.None? ==> r == (None, Err("cache manager not initialized"))
    ensures cm.Some? ==> r.0 == Some(InvalidatePattern(cm.value, res.Name(), link).0)
    ensures cm.Some? ==> r.1 == InvalidatePattern(cm.value, res.Name(), link).1
    ensures cm.Some? && cm.value.Degraded? ==> r.1 == Ok
  {
    InvalidateCache(cm, res.Name(), link)
  }

  // ----- Properties relating several operations -----

  /** Round trip through the manager: a `Set` at `t` followed by a `Get` at
      `u <= t + ttl` returns exactly the stored data and headers, provided
      the server (if any) answers both calls; after `t + ttl` it misses. */
  lemma GetAfterSet(m: Manager, key: string, data: seq<byte>, headers: map<string, string>, ttl: int, t: nat, u: nat)
    ensures u <= t + ttl ==> Get(Set(m, key, data, headers, ttl, t, Up).0, key, u, Up).1 == Some(CacheItem(data, headers, t + ttl))
    ensures u > t + ttl ==> Get(Set(m, key, data, headers, ttl, t, Up).0, key, u, Up).1 == None
  {
    match m
    case Healthy(r, mem) =>
      Redis.GetAfterSet(r, key, data, headers, ttl, t, u);
    case Degraded(mem) =>
      Mem.GetAfterSet(mem, key, data, headers, ttl, t, u);
  }

  /** In `Healthy` mode a failed Redis write lands in the in-memory store,
      but that copy is never read back: the following `Get` still asks only
      Redis, and misses when Redis had nothing live under the key. */
  lemma HealthyFallbackWriteInvisible(m: Manager, key: string, data: seq<byte>, headers: map<string, string>,
                                      ttl: int, t: nat, u: nat, link: Link)
    requires m.Healthy?
    requires Redis.View(m.redis, key, u).None?
    ensures Set(m, key, data, headers, ttl, t, Down).0.mem.items[key] == NewItem(data, headers, ttl, t)
    ensures Get(Set(m, key, data, headers, ttl, t, Down).0, key, u, link).1 == None
  {
  }

  /** A resource invalidation through the manager makes every key carrying
      the resource name read as absent and leaves every other key's reading
      as it was, in either mode, when the server answers. */
  lemma InvalidateResourceExactly(m: Manager, res: Resource, key: string, u: nat)
    ensures var m' := InvalidateResource(Some(m), res, Up).0.value;
      Contains(key, res.Name()) ==> Lookup(m', key, u) == None
    ensures var m' := InvalidateResource(Some(m), res, Up).0.value;
      !Contains(key, res.Name()) ==> Lookup(m', key, u) == Lookup(m, key, u)
  {
    match m
    case Healthy(r, mem) =>
      Redis.InvalidateExactly(r, res.Name(), key, u);
    case Degraded(mem) =>
      Mem.InvalidateExactly(mem, res.Name(), key, u);
  }
}
