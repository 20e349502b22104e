/** The cache administration endpoints. Each handler takes the global cache
    manager (`None` when it was never initialised), the request's
    parameters and the reachability of the Redis server, and returns the
    manager afterwards together with the JSON reply. */
module CacheController {

  import opened Common
  import opened Strings
  import opened CacheTypes
  import M = Manager
  import Redis = RedisStore
  import Mem = InMemory

  /** The JSON values the handlers put in a `gin.H`. A nil Go slice encodes
      as `null`. */
  datatype Json = JStr(s: string) | JInt(i: int) | JNum(r: real) | JList(items: seq<string>) | JNull

  /** An HTTP status code and a JSON object. */
  datatype Reply = Reply(code: int, body: map<string, Json>)

  /** `key` is present in the object with value `v`. */
  predicate Has(body: map<string, Json>, key: string, v: Json) {
    key in body && body[key] == v
  }

  function ErrorReply(code: int, message: string): (r: Reply)
    ensures r.code == code && Has(r.body, "status", JStr("error")) && Has(r.body, "message", JStr(message))
  {
    Reply(code, map["status" := JStr("error"), "message" := JStr(message)])
  }

  function FailedReply(message: string, err: Outcome): (r: Reply)
    requires err.Err?
    ensures r.code == 500 && Has(r.body, "status", JStr("error")) && Has(r.body, "error", JStr(err.msg))
  {
    Reply(500, map["status" := JStr("error"), "message" := JStr(message), "error" := JStr(err.msg)])
  }

  function SuccessReply(message: string, extra: map<string, Json>): (r: Reply)
    ensures r.code == 200 && Has(r.body, "status", JStr("success"))
    ensures forall k :: k in extra && k != "status" && k != "message" ==> k in r.body && r.body[k] == extra[k]
  {
    Reply(200, extra + map["status" := JStr("success"), "message" := JStr(message)])
  }

  // ----- GET /cache/stats -----

  /** The `config` part of the stats reply. */
  datatype CacheConfig = CacheConfig(cacheType: string, ttl: string, enabled: bool)

  datatype StatsReply = StatsReply(code: int, status: string, stats: CacheStats, config: CacheConfig)

  /** `GetCacheStats`: always 200 and "success"; the configured type mirrors
      the statistics' type, with a fixed TTL of "5m" and `enabled` true. */
  function GetCacheStats(cm: Option<M.Manager>, now: nat, link: Link): (res: (Option<M.Manager>, StatsReply))
    ensures res.0 == M.GetCacheStats(cm, now, link).0 && res.1.stats == M.GetCacheStats(cm, now, link).1
    ensures res.1.code == 200 && res.1.status == "success"
    ensures res.1.config == CacheConfig(res.1.stats.cacheType, "5m", true)
  {
    var (cm', stats) := M.GetCacheStats(cm, now, link);
    (cm', StatsReply(200, "success", stats, CacheConfig(stats.cacheType, "5m", true)))
  }

  /** A reply reports "not_initialized" exactly when no manager exists. */
  lemma StatsTypeReportsInitialisation(cm: Option<M.Manager>, now: nat, link: Link)
    requires cm.Some? ==> M.WellFormed(cm.value)
    ensures GetCacheStats(cm, now, link).1.config.cacheType == NotInitializedType <==> cm.None?
  {
  }

  // ----- POST /cache/clear -----

  /** `ClearCache`: 500 carrying the error when clearing fails (including
      when there is no manager), otherwise 200. */
  function ClearCache(cm: Option<M.Manager>, link: Link): (res: (Option<M.Manager>, Reply))
    ensures res.0 == M.ClearAllCache(cm, link).0
    ensures res.1.code == 200 <==> M.ClearAllCache(cm, link).1.Ok?
    ensures res.1.code == 500 <==> M.ClearAllCache(cm, link).1.Err?
    ensures res.1.code == 500 ==> Has(res.1.body, "error", JStr(M.ClearAllCache(cm, link).1.msg))
  {
    var (cm', err) := M.ClearAllCache(cm, link);
    if err.Err? then (cm', FailedReply("Failed to clear cache", err))
    else (cm', SuccessReply("Cache cleared successfully", map[]))
  }

  /** With the server answering, clearing an initialised manager succeeds
      and afterwards no key reads as present. */
  lemma ClearCacheEmpties(m: M.Manager, key: string, u: nat)
    ensures ClearCache(Some(m), Up).1.code == 200
    ensures M.Lookup(ClearCache(Some(m), Up).0.value, key, u) == None
  {
    match m
    case Healthy(r, _) =>
      Redis.ClearEmptiesNamespace(r, key, u);
    case Degraded(_) =>
  }

  /** Without a manager, clearing reports 500 and nothing comes into being. */
  lemma ClearCacheUninitialised(link: Link)
    ensures ClearCache(None, link) == (None, FailedReply("Failed to clear cache", M.NotInitializedError))
  {
  }

  // ----- DELETE /cache/invalidate?pattern= -----

  /** `InvalidateCache`: an empty or missing pattern is rejected with 400
      before anything is touched; otherwise 500 on error, 200 echoing the
      pattern on success. */
  function InvalidateCache(cm: Option<M.Manager>, pattern: string, link: Link): (res: (Option<M.Manager>, Reply))
    ensures pattern == "" ==> res == (cm, ErrorReply(400, "Pattern parameter is required"))
    ensures pattern != "" ==> res.0 == M.InvalidateCache(cm, pattern, link).0
    ensures pattern != "" ==> (res.1.code == 200 <==> M.InvalidateCache(cm, pattern, link).1.Ok?)
    ensures pattern != "" ==> (res.1.code == 500 <==> M.InvalidateCache(cm, pattern, link).1.Err?)
    ensures res.1.code == 200 ==> Has(res.1.body, "pattern", JStr(pattern))
  {
    if pattern == "" then (cm, ErrorReply(400, "Pattern parameter is required"))
    else
      var (cm', err) := M.InvalidateCache(cm, pattern, link);
      if err.Err? then (cm', FailedReply("Failed to invalidate cache", err))
      else (cm', SuccessReply("Cache invalidated successfully", map["pattern" := JStr(pattern)]))
  }

  /** An accepted invalidation, with the server answering, makes exactly the
      keys containing the pattern read as absent. The 400 guard matters: in
      either store the empty pattern would match every key. */
  lemma InvalidateCacheExactly(m: M.Manager, pattern: string, key: string, u: nat)
    requires pattern != ""
    ensures InvalidateCache(Some(m), pattern, Up).1.code == 200
    ensures var m' := InvalidateCache(Some(m), pattern, Up).0.value;
      (Contains(key, pattern) ==> M.Lookup(m', key, u) == None)
      && (!Contains(key, pattern) ==> M.Lookup(m', key, u) == M.Lookup(m, key, u))
  {
    match m
    case Healthy(r, _) =>
      Redis.InvalidateExactly(r, pattern, key, u);
    case Degraded(mem) =>
      Mem.InvalidateExactly(mem, pattern, key, u);
  }

  // ----- DELETE /cache/invalidate/:resource -----

  /** The resources the endpoint accepts, by their path spelling. */
  function ParseResource(name: string): (r: Option<Resource>)
    ensures r.Some? ==> r.value.Name() == name
    ensures r.None? <==> name != "media" && name != "posts" && name != "pages"
  {
    if name == "media" then Some(Media)
    else if name == "posts" then Some(Posts)
    else if name == "pages" then Some(Pages)
    else None
  }

  /** Every resource is accepted under its own name. */
  lemma ParseResourceRoundTrip(r: Resource)
    ensures ParseResource(r.Name()) == Some(r)
  {
  }

  /** `InvalidateResourceCache`: any name other than media, posts or pages is
      rejected with 400 and no change; otherwise the resource's pattern is
      invalidated, with 500 on error and 200 echoing the name on success. */
  function InvalidateResourceCache(cm: Option<M.Manager>, resource: string, link: Link)
    : (res: (Option<M.Manager>, Reply))
    ensures ParseResource(resource).None? ==>
      res == (cm, ErrorReply(400, "Invalid resource type. Use: media, posts, or pages"))
    ensures ParseResource(resource).Some? ==>
      var (cm', err) := M.InvalidateResource(cm, ParseResource(resource).value, link);
      && res.0 == cm'
      && (res.1.code == 200 <==> err.Ok?)
      && (res.1.code == 500 <==> err.Err?)
    ensures res.1.code == 200 ==> Has(res.1.body, "resource", JStr(resource))
  {
    match ParseResource(resource)
    case None => (cm, ErrorReply(400, "Invalid resource type. Use: media, posts, or pages"))
    case Some(r) =>
      var (cm', err) := M.InvalidateResource(cm, r, link);
      if err.Err? then (cm', FailedReply("Failed to invalidate cache", err))
      else (cm', SuccessReply("Resource cache invalidated successfully", map["resource" := JStr(resource)]))
  }

  // ----- POST /cache/warmup -----

  /** The resources reported as warmed up, in the order media, posts,
      pages: all three for "all", the one named, or none. */
  function WarmedUp(resources: string): (w: seq<string>)
    ensures resources == "all" ==> w == ["media", "posts", "pages"]
    ensures resources in {"media", "posts", "pages"} ==> w == [resources]
    ensures resources !in {"all", "media", "posts", "pages"} ==> w == []
  {
    (if resources == "all" || resources == "media" then ["media"] else [])
    + (if resources == "all" || resources == "posts" then ["posts"] else [])
    + (if resources == "all" || resources == "pages" then ["pages"] else [])
  }

  /** The limit echoed back: the parsed `limit` parameter ("10" when absent),
      or 10 when it does not parse. */
  function WarmupLimit(limit: Option<string>): (n: int)
    ensures Atoi(limit.GetOr("10")).ok ==> n == Atoi(limit.GetOr("10")).value
    ensures !Atoi(limit.GetOr("10")).ok ==> n == 10
  {
    var parsed := Atoi(limit.GetOr("10"));
    if parsed.ok then parsed.value else 10
  }

  /** `WarmupCache`: reports success without touching the cache. Missing
      parameters take their defaults "all" and "10"; a present but empty
      parameter is used as it is. No resource warmed encodes as `null`. */
  function WarmupCache(resources: Option<string>, limit: Option<string>): (r: Reply)
    ensures r.code == 200 && Has(r.body, "status", JStr("success"))
    ensures var w := WarmedUp(resources.GetOr("all"));
      Has(r.body, "resources", (if |w| == 0 then JNull else JList(w)))
    ensures Has(r.body, "limit", JInt(WarmupLimit(limit)))
  {
    var w := WarmedUp(resources.GetOr("all"));
    SuccessReply("Cache warmup completed",
                 map["resources" := (if |w| == 0 then JNull else JList(w)), "limit" := JInt(WarmupLimit(limit))])
  }

  /** Missing parameters warm every resource with a limit of 10; an empty
      `resources` warms none. */
  lemma WarmupDefaults()
    ensures Has(WarmupCache(None, None).body, "resources", JList(["media", "posts", "pages"]))
    ensures Has(WarmupCache(None, None).body, "limit", JInt(10))
    ensures Has(WarmupCache(Some(""), None).body, "resources", JNull)
  {
    ParseRoundTrip(10);
    assert DecimalString(10) == "10";
  }

  /** A well-formed limit is echoed, negative ones included; one that is
      not a number falls back to 10. */
  lemma WarmupLimitParsing(n: nat, junk: string)
    requires junk == "" || (!IsDigit(junk[0]) && junk[0] != '-' && junk[0] != '+')
    ensures n <= MaxInt64 ==> WarmupLimit(Some(DecimalString(n))) == n
    ensures n <= MaxInt64 + 1 ==> WarmupLimit(Some("-" + DecimalString(n))) == 0 - n
    ensures WarmupLimit(Some(junk)) == 10
  {
    ParseRoundTrip(n);
  }

  // ----- GET /cache/health -----

  /** The body of a health reply. */
  datatype Health = Health(status: string, issue: Option<string>, cacheType: string, keyCount: nat, hitRatio: real)

  /** The health verdict of a set of statistics: unhealthy (503) when no
      manager exists; degraded (206) when the hit ratio is below 0.3 over
      more than 100 lookups; healthy (200) otherwise. */
  function HealthOf(stats: CacheStats): (r: (int, Health))
    ensures r.1.cacheType == stats.cacheType && r.1.keyCount == stats.keyCount && r.1.hitRatio == stats.hitRatio
    ensures r.0 == 503 <==> stats.cacheType == NotInitializedType
    ensures r.0 == 206 <==> stats.cacheType != NotInitializedType && stats.hitRatio < 0.3 && stats.hits + stats.misses > 100
    ensures r.0 == 200 || r.0 == 206 || r.0 == 503
    ensures r.0 == 503 <==> r.1.status == "unhealthy"
    ensures r.0 == 206 <==> r.1.status == "degraded"
    ensures r.0 == 200 <==> r.1.status == "healthy"
    ensures r.1.issue.None? <==> r.0 == 200
  {
    var base := Health("healthy", None, stats.cacheType, stats.keyCount, stats.hitRatio);
    if stats.cacheType == NotInitializedType then (503, base.(status := "unhealthy", issue := Some("Cache not initialized")))
    else if stats.hitRatio < 0.3 && stats.hits + stats.misses > 100 then (206, base.(status := "degraded", issue := Some("Low hit ratio")))
    else (200, base)
  }

  /** `CacheHealth`: the verdict on the statistics read just now. */
  function CacheHealth(cm: Option<M.Manager>, now: nat, link: Link): (res: (Option<M.Manager>, (int, Health)))
    ensures res.0 == M.GetCacheStats(cm, now, link).0
    ensures res.1 == HealthOf(M.GetCacheStats(cm, now, link).1)
  {
    var (cm', stats) := M.GetCacheStats(cm, now, link);
    (cm', HealthOf(stats))
  }

  /** Without a manager the cache is unhealthy; the in-memory store counts
      no lookups, so a degraded manager always reports healthy. */
  lemma HealthByMode(mem: Mem.MemCache, now: nat, link: Link)
    ensures CacheHealth(None, now, link).1.0 == 503
    ensures CacheHealth(Some(M.Degraded(mem)), now, link).1.0 == 200
  {
  }

  lemma MulPos(x: real, y: real)
    requires x > 0.0 && y > 0.0
    ensures x * y > 0.0
  {
  }

  lemma MulNonNeg(x: real, y: real)
    requires x >= 0.0 && y > 0.0
    ensures x * y >= 0.0
  {
  }

  lemma Distrib(a: real, b: real, t: real)
    ensures (a - b) * t == a * t - b * t
  {
  }

  /** A ratio of `hits` to a positive `total` is below 0.3 exactly when
      fewer than 3 in 10 of `total` are hits. */
  lemma RatioBelow(ratio: real, hits: nat, total: nat)
    requires total > 0 && ratio * (total as real) == hits as real
    ensures ratio < 0.3 <==> 10 * hits < 3 * total
  {
    var t := total as real;
    var h := hits as real;
    if ratio < 0.3 {
      MulPos(0.3 - ratio, t);
      Distrib(0.3, ratio, t);
      assert 0.3 * t - h > 0.0;
    } else {
      MulNonNeg(ratio - 0.3, t);
      Distrib(ratio, 0.3, t);
      assert h - 0.3 * t >= 0.0;
    }
  }

  /** Over Redis, with more than 100 lookups counted, health is degraded
      exactly when fewer than 3 in 10 lookups were hits. */
  lemma {:induction false} RedisHealthDegradedIff(r: Redis.RedisCache, mem: Mem.MemCache, now: nat, link: Link)
    requires M.WellFormed(M.Healthy(r, mem))
    requires r.stats.hits + r.stats.misses > 100
    ensures CacheHealth(Some(M.Healthy(r, mem)), now, link).1.0 == 206
        <==> 10 * r.stats.hits < 3 * (r.stats.hits + r.stats.misses)
  {
    var ratio := Redis.GetStats(r, now, link).1.hitRatio;
    RatioBelow(ratio, r.stats.hits, r.stats.hits + r.stats.misses);
  }
}
