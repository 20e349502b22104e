# CMS backend response cache and request logic, in Dafny

A Dafny model of a Go CMS backend (gin + GORM + Redis). It covers two parts:

- **Response caching.** This is the in-process `InMemoryCache`, the Redis-backed `RedisCache`, and the `CacheManager` that puts a Redis primary in front of an in-memory fallback. It also covers cache-key derivation, the legacy `CacheMiddleware`, `RedisCacheMiddleware`, and the cache administration endpoints.
- **Controller request logic.** This is the post, page and media handlers' logic: pagination, sorting, search filters, `total_page`, id parsing and the update merge. It includes the rule that a resource's cache is invalidated only after a successful commit. The gzip and keep-alive middlewares are covered too.

Every operation is a pure function. A store operation takes the state and returns the new state with its result. The clock is an explicit `now: nat`. Whether a call to the Redis server gets through is the explicit `Link` argument (`Up` / `Down`). The database is abstract: a handler receives the outcome of each query as a parameter. It returns:

- its reply;
- the ordered trace of its effects (`Lookup`, `Begin`, `Create`, `Commit`, `Invalidate`, ...);
- the cache manager afterwards.

Modules, in dependency order:

| file | module | models |
|---|---|---|
| common.dfy | `Common` | options, Go errors, bytes, gin header maps |
| strings.dfy | `Strings` | `strings.Contains/HasPrefix/Join/ToLower`, `strconv.Atoi/ParseUint` |
| cache_types.dfy | `CacheTypes` | `CacheItem`, expiry, `CacheStats`, resource names |
| in_memory.dfy | `InMemory` | `InMemoryCache` and its cleanup sweep |
| redis_store.dfy | `RedisStore` | `RedisCache` over a namespaced key space |
| cache_manager.dfy | `Manager` | `CacheManager` and the package-level cache functions |
| cache_key.dfy | `CacheKey` | `generateCacheKey`, `generateRedisCacheKey` |
| middleware.dfy | `Middleware` | `responseWriter`, `CacheMiddleware`, `RedisCacheMiddleware` |
| performance.dfy | `Performance` | `GzipMiddleware`'s decision, `ConnectionPoolMiddleware` |
| cache_controller.dfy | `CacheController` | the `/cache` endpoints |
| listing.dfy | `Listing` | page, page size, offset, sort, `total_page`, id parsing |
| sql_filter.dfy | `SqlFilter` | WHERE clauses built by joining conditions with " AND " |
| handlers.dfy | `Handlers` | lookup by id, transaction then invalidation, list plan |
| post_controller.dfy, page_controller.dfy, media_controller.dfy | `PostController`, `PageController`, `MediaController` | the resource handlers |

SQL text is not interpreted. Each filter condition instead records how a database groups it, as an OR of ANDs of atomic tests. `SqlFilter.AndTexts` states what joining two texts with " AND " and no parentheses does to that grouping. This is how the media search finding below is stated and proved.

Two behaviours of the code that the model keeps as they are:

- The health endpoint reports "degraded" only with strictly more than 100 counted lookups (starter/controllers/cache_controller.go:166).
- The handlers call the cache invalidation and discard its error (for example starter/controllers/post_controller.go:171). The reply never depends on it.

## Model

| member | source | states |
|---|---|---|
| Common.SetHeader | starter/middleware/cache.go:144-147 | setting a header replaces all its values by the one given; an empty value removes the header; every other header is unchanged |
| Common.FirstValues | starter/middleware/cache.go:163-167 | the stored headers are exactly the names with at least one value, each with its first value |
| Common.ReplayHeaders | starter/middleware/cache.go:144-146 | replaying stored headers yields exactly the non-empty ones, each single-valued |
| Strings.ScanUintMeaning | starter/controllers/post_controller.go:121-125 | the left-to-right digit scan accepts exactly a non-empty all-digit string whose value fits in 64 bits, and reports a range error exactly when the leading digit run already exceeds 2^64-1, whatever follows it |
| Strings.AtoiMeaning | starter/controllers/post_controller.go:29-30 | `Atoi` returns a decimal number, signed or not, clamped to int64 with an error past the bounds, and 0 with an error for text that starts with neither a digit nor a sign |
| Strings.OverflowBeforeJunk | starter/controllers/post_controller.go:29-30 | a digit run beyond 2^64-1 followed by junk returns MaxInt64 with an error; a digit run within range followed by junk returns 0 |
| Strings.ParseRoundTrip | starter/controllers/post_controller.go:121-125 | `ParseUint` accepts the decimal spelling of every number up to 2^64-1 and returns it; `Atoi` does the same, signed or not, within int64 |
| InMemory.Empty | starter/middleware/cache.go:26-34 | a new store holds no entry: every read misses and the key count is zero |
| InMemory.Get | starter/middleware/cache.go:52-66 | a read returns the stored item exactly when it is present and the clock is not strictly after its expiry; reading never changes the store |
| InMemory.Set | starter/middleware/cache.go:68-78 | the key now holds the new item expiring `ttl` after now; every other entry is kept; it never fails |
| InMemory.Delete | starter/middleware/cache.go:80-86 | exactly the key is removed; the rest are kept; it never fails |
| InMemory.Clear | starter/middleware/cache.go:88-94 | no entry remains; it never fails |
| InMemory.InvalidatePattern | starter/middleware/cache.go:96-106 | the remaining keys are exactly those not containing the pattern, with their items unchanged |
| InMemory.Cleanup | starter/middleware/cache.go:36-50 | a sweep keeps exactly the unexpired entries, unchanged |
| InMemory.GetStats | starter/middleware/cache.go:108-117 | the key count is the number of stored entries, expired ones included; type "in_memory"; no hits, misses or ratio |
| InMemory.ResetStats | starter/middleware/cache.go:119-122 | resetting changes nothing: the entries, every read and the reported statistics stay as they were; it never fails |
| InMemory.GetAfterSet | starter/middleware/cache.go:52-78 | what is set at t is read back exactly until t+ttl inclusive, and is absent afterwards |
| InMemory.SetLeavesOtherKeys | starter/middleware/cache.go:68-78 | setting one key never changes what another key reads |
| InMemory.DeleteIdempotent | starter/middleware/cache.go:80-86 | deleting twice equals deleting once, and a deleted key reads as absent |
| InMemory.InvalidateExactly | starter/middleware/cache.go:96-106 | after invalidation a key containing the pattern reads absent and any other key reads as before |
| InMemory.InvalidateEmptyPatternClears | starter/middleware/cache.go:96-106 | the empty pattern is in every key, so it empties the store |
| InMemory.CleanupInvisible | starter/middleware/cache.go:36-66 | a sweep at instant t never changes what a read at t returns |
| InMemory.SweptIffExpired | starter/middleware/cache.go:36-66 | a stored entry is swept exactly when a read already reports it absent |
| RedisStore.NewRedisCache | starter/middleware/redis_cache.go:45-95 | a store exists iff the ping succeeds; it sees the server's keys and deadlines; prefix is REDIS_PREFIX or "cms_cache:"; stats start at zero with type "redis" |
| RedisStore.Get | starter/middleware/redis_cache.go:97-127 | with the server up, a read returns the decodable unexpired item under prefix+key when that key is still live on the server, else nothing. Every call counts exactly one hit or one miss. Only an expired item is deleted on read |
| RedisStore.Set | starter/middleware/redis_cache.go:129-149 | succeeds iff the server answers, then prefix+key holds the new item, with the server deadline now+ttl for a positive TTL and none otherwise; all other keys are kept; on failure nothing changes |
| RedisStore.Delete | starter/middleware/redis_cache.go:151-160 | succeeds iff the server answers, then exactly prefix+key is gone |
| RedisStore.Clear | starter/middleware/redis_cache.go:162-181 | succeeds iff the server answers, then exactly the keys of the namespace are gone |
| RedisStore.InvalidatePattern | starter/middleware/redis_cache.go:183-202 | succeeds iff the server answers, then exactly the namespaced keys whose remainder contains the pattern are gone |
| RedisStore.GetStats | starter/middleware/redis_cache.go:204-218 | the key count is refreshed iff the enumeration succeeds, to the number of live keys under the prefix; with lookups counted, ratio × (hits+misses) = hits, else the ratio is kept; stored and returned stats agree |
| RedisStore.ResetStats | starter/middleware/redis_cache.go:220-226 | counters, ratio and key count become zero; the data are untouched |
| RedisStore.OutsideNamespaceUntouched | starter/middleware/redis_cache.go:97-202 | no store operation changes a server key outside the prefix |
| RedisStore.GetAfterSet | starter/middleware/redis_cache.go:97-149 | a successful set at t is read back exactly until t+ttl inclusive |
| RedisStore.InvalidateExactly | starter/middleware/redis_cache.go:183-202 | after invalidation a key containing the pattern reads absent and any other key reads as before |
| RedisStore.ClearEmptiesNamespace | starter/middleware/redis_cache.go:162-181 | after a successful clear no namespaced key remains and every key reads absent |
| RedisStore.DeleteIdempotent | starter/middleware/redis_cache.go:151-160 | deleting twice equals deleting once |
| RedisStore.KeyCountFollowsDeadline | starter/middleware/redis_cache.go:144-210 | a key written with a positive TTL at t is counted by the key count until t+ttl and not after; no other key's membership changes |
| RedisStore.OneMissFourHits | starter/middleware/redis_cache.go:212-215 | four hits and one miss give a ratio of 0.8 |
| Manager.NewCacheManager | starter/middleware/redis_cache.go:234-253 | the fallback flag is set iff Redis could not be built; the in-memory store starts empty |
| Manager.Get | starter/middleware/redis_cache.go:255-266 | the answer is the primary's alone: with Redis the in-memory store is never consulted, and in fallback mode the second read repeats the first |
| Manager.Set | starter/middleware/redis_cache.go:268-278 | with Redis primary the in-memory store is written only when the Redis write fails; in fallback mode the in-memory store is written; the result is always success |
| Manager.Delete | starter/middleware/redis_cache.go:280-290 | with Redis primary both stores delete and the Redis error wins; in fallback mode the one store deletes |
| Manager.Clear | starter/middleware/redis_cache.go:292-302 | the same fan-out for clearing |
| Manager.InvalidatePattern | starter/middleware/redis_cache.go:304-314 | the same fan-out for pattern invalidation |
| Manager.GetStats | starter/middleware/redis_cache.go:316-318 | the statistics are the primary's, of type "redis" or "in_memory" by mode |
| Manager.ResetStats | starter/middleware/redis_cache.go:320-322 | only the primary's counters are reset |
| Manager.GetCacheStats | starter/middleware/redis_cache.go:412-417 | type "not_initialized" with zero counters iff there is no manager |
| Manager.WellFormedPreserved | starter/middleware/redis_cache.go:234-322 | construction and every operation keep a Redis primary typed "redis", so a live manager never reports "not_initialized" |
| Manager.InvalidateCache | starter/middleware/redis_cache.go:419-424 | an error and no manager when uninitialised; otherwise the manager's pattern invalidation |
| Manager.ClearAllCache | starter/middleware/redis_cache.go:426-431 | an error and no manager when uninitialised; otherwise the manager's clear |
| Manager.GetAfterSet | starter/middleware/redis_cache.go:255-278 | through the manager, in either mode, a set at t is read back exactly until t+ttl with the server answering |
| Manager.HealthyFallbackWriteInvisible | starter/middleware/redis_cache.go:255-278 | with Redis primary, a write that failed over to memory is stored there but never read back |
| Manager.InvalidateResource | starter/middleware/redis_cache.go:433-443 | without a manager, the error "cache manager not initialized"; otherwise the manager's pattern invalidation with the resource's name, which never fails in fallback mode |
| Manager.InvalidateResourceExactly | starter/middleware/redis_cache.go:433-443 | invalidating a resource makes exactly the keys containing its name read absent |
| CacheKey.LegacyKey | starter/middleware/cache.go:126-132 | the legacy key is the 32-hex-digit digest of method ":" URL, and of nothing else |
| CacheKey.ResourceTag | starter/middleware/redis_cache.go:335-342 | the tag is the first of "/posts", "/pages", "/media" found anywhere in the URL, or none |
| CacheKey.RedisKey | starter/middleware/redis_cache.go:330-352 | the key is tag ":" digest of method:url:user-agent, or the bare digest; it is at least 8 characters long |
| CacheKey.RedisKeyDeterministic | starter/middleware/redis_cache.go:330-352 | equal requests get equal keys, and requests with different tags get different keys |
| CacheKey.TagSelectsExactly | starter/middleware/redis_cache.go:330-352 | a key contains a resource name iff its request carried that tag, since hex digits cannot spell one |
| Middleware.Write | starter/middleware/cache.go:183-186 | a write appends exactly the chunk to the captured body |
| Middleware.CaptureWrites | starter/middleware/cache.go:153-160 | the captured body is the in-order concatenation of every chunk written |
| Middleware.FlattenAppend | starter/middleware/cache.go:183-186 | capturing two runs of writes equals capturing their concatenation |
| Middleware.FlattenEmpty | starter/middleware/redis_cache.go:395 | the captured body is empty iff every chunk written was empty |
| Middleware.WithContentType | starter/middleware/cache.go:148 | replay sets Content-Type only when the headers carry none |
| Middleware.HitHeaders | starter/middleware/redis_cache.go:376-381 | a replayed hit carries exactly: X-Cache HIT; the stored Content-Type, or "" when none is stored; the key header when given (a stored one otherwise); and every other non-empty stored header |
| Middleware.LegacyMiddleware | starter/middleware/cache.go:134-175 | non-GET passes through; a live entry is replayed with status 200, its stored headers and HIT, without running the handler; a miss runs it and stores any 2xx response, even an empty one |
| Middleware.LegacyHitReplays | starter/middleware/cache.go:141-149 | a legacy hit answers 200 with the stored body, X-Cache HIT and every non-empty stored header, and no header beyond those and Content-Type; the handler does not run |
| Middleware.LegacyKeyIgnoresHeaders | starter/middleware/cache.go:126-132 | two requests with the same method and URL get the same key and the same legacy-middleware outcome, whatever their other headers, the User-Agent included |
| Middleware.RequestKey | starter/middleware/redis_cache.go:372-380 | the key of a request always has the 8 characters the key header takes |
| Middleware.RedisMiddleware | starter/middleware/redis_cache.go:360-409 | a bypassed request has no cache interaction; otherwise the handler runs iff the lookup misses |
| Middleware.RedisHitReplays | starter/middleware/redis_cache.go:374-384 | a hit answers 200 with the stored body, HIT, the first 8 key characters and the stored headers, and no header beyond those and Content-Type; the handler does not run |
| Middleware.RedisMissCaptures | starter/middleware/redis_cache.go:386-408 | a miss stores the captured body and first header values iff 2xx with a non-empty body, marking MISS; otherwise it passes the response through |
| Middleware.MissThenHit | starter/middleware/redis_cache.go:354-409 | a repeated GET within the TTL is first a MISS running the handler, then a HIT with the identical body that does not |
| Middleware.DifferentTagsDifferentKeys | starter/middleware/redis_cache.go:330-352 | requests for different resources never share a cache entry |
| Performance.SkipFrom | starter/middleware/performance.go:58-63 | the loop from index i answers true iff a later listed prefix starts the type |
| Performance.ShouldSkipCompression | starter/middleware/performance.go:48-64 | a type is skipped iff it starts with one of the six listed prefixes |
| Performance.SkipExamples | starter/middleware/performance.go:48-64 | "", JSON and HTML are compressed; every image type and zip are not |
| Performance.GzipDecide | starter/middleware/performance.go:20-35 | compression happens iff the request's Accept-Encoding contains "gzip" and its Content-Type is not skipped |
| Performance.GzipHeaders | starter/middleware/performance.go:20-46 | a compressed response gains Content-Encoding gzip and Vary Accept-Encoding and nothing else changes; otherwise the headers are untouched |
| Performance.NoGzipNoCompression | starter/middleware/performance.go:22-25 | without "gzip" in Accept-Encoding the headers are never changed |
| Performance.ConnectionPool | starter/middleware/performance.go:66-73 | every response carries Connection keep-alive and Keep-Alive "timeout=120, max=1000"; nothing else changes |
| Performance.ConnectionPoolIdempotent | starter/middleware/performance.go:66-73 | applying the middleware twice equals applying it once |
| CacheController.GetCacheStats | starter/controllers/cache_controller.go:25-39 | always 200 "success"; the config type mirrors the stats type, TTL "5m", enabled |
| CacheController.StatsTypeReportsInitialisation | starter/controllers/cache_controller.go:25-39 | the reported type is "not_initialized" iff there is no manager |
| CacheController.ClearCache | starter/controllers/cache_controller.go:41-55 | 200 iff clearing succeeded, else 500 echoing the error |
| CacheController.ClearCacheEmpties | starter/controllers/cache_controller.go:41-55 | with the server answering, clearing succeeds and no key reads present afterwards |
| CacheController.ClearCacheUninitialised | starter/controllers/cache_controller.go:41-49 | without a manager, clearing answers 500 with the not-initialised error |
| CacheController.InvalidateCache | starter/controllers/cache_controller.go:57-81 | an empty pattern is 400 with no change; otherwise 200 iff the invalidation succeeded, else 500; success echoes the pattern |
| CacheController.InvalidateCacheExactly | starter/controllers/cache_controller.go:57-81 | an accepted pattern makes exactly the keys containing it read absent |
| CacheController.ParseResource | starter/controllers/cache_controller.go:87-100 | exactly "media", "posts" and "pages" are accepted, each as the resource of that name |
| CacheController.ParseResourceRoundTrip | starter/controllers/cache_controller.go:87-93 | every resource is accepted under its own name |
| CacheController.InvalidateResourceCache | starter/controllers/cache_controller.go:83-116 | an unknown resource is 400 with no change; otherwise that resource is invalidated, 200 iff it succeeded, else 500 |
| CacheController.WarmedUp | starter/controllers/cache_controller.go:127-139 | "all" reports media, posts, pages in that order; a single name reports itself; anything else none |
| CacheController.WarmupLimit | starter/controllers/cache_controller.go:120-125 | the limit is the parsed value, or 10 when it does not parse |
| CacheController.WarmupCache | starter/controllers/cache_controller.go:118-147 | always 200 "success" with the resources (null when none) and the limit |
| CacheController.WarmupDefaults | starter/controllers/cache_controller.go:118-147 | missing parameters warm all three with limit 10; an empty resources warms none |
| CacheController.WarmupLimitParsing | starter/controllers/cache_controller.go:120-125 | well-formed limits are echoed, negative ones included; a non-number gives 10 |
| CacheController.HealthOf | starter/controllers/cache_controller.go:149-179 | 503 "unhealthy" iff not initialised; 206 "degraded" iff ratio below 0.3 over more than 100 lookups; 200 "healthy" otherwise, without an issue |
| CacheController.CacheHealth | starter/controllers/cache_controller.go:149-150 | health is judged on the statistics read just now |
| CacheController.HealthByMode | starter/controllers/cache_controller.go:149-179 | no manager gives 503; a fallback-mode manager is always healthy since it counts no lookups |
| CacheController.RatioBelow | starter/controllers/cache_controller.go:166 | a ratio of hits to a positive total is below 0.3 iff 10·hits < 3·total |
| CacheController.RedisHealthDegradedIff | starter/controllers/cache_controller.go:166-176 | over Redis with more than 100 lookups, health is 206 iff fewer than 3 in 10 lookups hit |
| Listing.NormalisePage | starter/controllers/post_controller.go:29-33 | the page is the parsed value when at least 1, else 1; it lies in [1, MaxInt64] |
| Listing.NormalisePageSize | starter/controllers/post_controller.go:30-36 | the size is the parsed value when in [1, 100], else 10 |
| Listing.PaginationKeepsValid | starter/controllers/media_controller.go:22-30 | in-range page and size values are kept as given |
| Listing.PaginationMissing | starter/controllers/media_controller.go:22-23 | missing parameters give page 1 of size 10 |
| Listing.PaginationOutOfRange | starter/controllers/media_controller.go:24-29 | a negative page becomes 1; a negative size or one above 100 becomes 10 |
| Listing.OverflowingPageClamped | starter/controllers/post_controller.go:29-36 | a page parameter whose digits exceed 2^64-1 before any junk becomes MaxInt64; one with in-range digits and junk becomes 1; the size falls back to 10 |
| Listing.PaginationUnparsable | starter/controllers/page_controller.go:22-29 | a value that is not a number gives page 1 and size 10 |
| Listing.OffsetAsWritten | starter/controllers/post_controller.go:37 | the int64 offset as written: the product (page-1)·size, reduced modulo 2^64 into int64 |
| Listing.OffsetWrapsNegative | starter/controllers/post_controller.go:37 | page 10^18 of size 10 is accepted, yet its offset wraps to -8446744073709551626 |
| Listing.Offset | starter/controllers/post_controller.go:37 | the intended offset: never negative, and the requested page ends exactly at page·size |
| Listing.OffsetAgreesInRange | starter/controllers/post_controller.go:37 | where the product fits in int64, the written and intended offsets agree |
| Listing.SortOrder | starter/controllers/post_controller.go:40-43 | the order is "asc" iff the lower-cased parameter is "asc", and "desc" otherwise |
| Listing.SortOrderIgnoresCase | starter/controllers/media_controller.go:32-36 | "ASC" and "Asc" sort ascending; a missing or unknown order sorts descending |
| Listing.SortField | starter/controllers/post_controller.go:44-49 | the field is always whitelisted, and is the requested one iff that one is allowed |
| Listing.SortFieldWhitelists | starter/controllers/page_controller.go:36-41 | pages cannot sort by author; no endpoint sorts by an unknown column |
| Listing.TotalPages | starter/controllers/post_controller.go:113 | total_page is the ceiling of total over size, and 0 iff there are no rows |
| Listing.EveryRowOnAPage | starter/controllers/media_controller.go:97 | every row lands on a page between 1 and total_page |
| Listing.ParseId | starter/controllers/post_controller.go:121-125 | an id is accepted iff it is one or more decimal digits with value at most 2^64-1 |
| Listing.ParseIdAcceptsExactlyDecimal | starter/controllers/media_controller.go:104-108 | decimal ids are accepted; empty, signed, fractional and alphabetic ids are refused |
| SqlFilter.IlikeCondition | starter/controllers/post_controller.go:64-67 | `column ILIKE ?` is a self-contained condition with the single argument "%needle%" and reads as one substring test |
| SqlFilter.EqCondition | starter/controllers/post_controller.go:69-72 | `column = ?` is a self-contained condition whose single argument is the value itself and reads as one equality test |
| SqlFilter.AnyIlikeCondition | starter/controllers/post_controller.go:58-62 | the parenthesised search group has one placeholder and one "%needle%" argument per column and reads as one test that some column contains the needle |
| SqlFilter.GroupTextOfTwoColumns | starter/controllers/page_controller.go:44-51 | a search group over two columns reads `(a ILIKE ? OR b ILIKE ?)` whatever is searched for; the page handler's group reads so when the title filter follows it, and the intended media group likewise |
| SqlFilter.Where | starter/controllers/post_controller.go:74-79 | no conditions gives no WHERE clause; otherwise the joined clause has one placeholder per argument, arguments in condition order |
| SqlFilter.WhereMeansAll | starter/controllers/post_controller.go:92-95 | when every condition is self-contained, a row passes the joined clause iff it passes every condition |
| Handlers.LookupById | starter/controllers/post_controller.go:183-197 | a malformed id is 400 before any lookup; a missing record 404; another error 500 with its text |
| Handlers.Transact | starter/controllers/post_controller.go:226-234 | a failed write rolls back and answers 500 with the cache untouched; a successful one commits, then invalidates the resource, then answers |
| Handlers.TransactOrdering | starter/controllers/post_controller.go:261-271 | the transaction commits iff the write succeeded, and invalidation happens iff it commits, only right after the commit; the reply does not depend on Redis |
| Handlers.Plan | starter/controllers/post_controller.go:74-100 | count and page queries use the same filter; the order is a whitelisted field and direction; limit and offset are the normalised window |
| Handlers.ListedReply | starter/controllers/post_controller.go:108-114 | a list reply is 200 with the rows, normalised page and size, total and its page ceiling |
| PostController.SearchText | starter/controllers/post_controller.go:60 | the search group's text is exactly `(title ILIKE ? OR content ILIKE ? OR author ILIKE ?)` |
| PostController.SearchMeaning | starter/controllers/post_controller.go:58-62 | the search group matches a row iff its title, content or author contains the search |
| PostController.Conditions | starter/controllers/post_controller.go:55-72 | search, title and author add self-contained conditions with 3, 1 and 1 arguments |
| PostController.FilterMeaning | starter/controllers/post_controller.go:58-72 | a post passes iff the search is in its title, content or author, the title filter in its title, and its author equals the author filter, each when given |
| PostController.GetPosts | starter/controllers/post_controller.go:25-115 | a count failure is 500 "Failed to count posts", a fetch failure 500 "Failed to fetch posts", else the list reply |
| PostController.PlanPlaceholders | starter/controllers/post_controller.go:74-95 | no filter gives no WHERE clause; otherwise placeholders equal arguments, 3 per search, 1 per title and author |
| PostController.GetPost | starter/controllers/post_controller.go:118-136 | the post is returned with 200 iff the id parses and the post exists |
| PostController.ResolveMedia | starter/controllers/post_controller.go:150-156 | an empty id list attaches no media with no query; otherwise the fetch decides |
| PostController.CreatePost | starter/controllers/post_controller.go:139-178 | bind errors and empty title or content are 400 with no effects; media that fail to resolve are 400 "Invalid media IDs" after the fetch; otherwise the write is a transaction; the reply is 201 iff binding, validation, media and the write all succeed, and then carries the input's fields, the new id and exactly the resolved media |
| PostController.Merge | starter/controllers/post_controller.go:207-225 | the merged post keeps its id |
| PostController.MergeRule | starter/controllers/post_controller.go:207-225 | title and content are replaced; author only when given; media iff media_ids was present; merging again changes nothing |
| PostController.UpdatePost | starter/controllers/post_controller.go:181-241 | a malformed id is 400, a missing post 404 and a lookup error 500, each with no further effects; then bind, validation and media failures are 400; otherwise the save is a transaction; the reply is 200 iff all of these succeed and the save commits, and then is the stored post merged with the input and the resolved media |
| PostController.DeletePost | starter/controllers/post_controller.go:244-272 | a malformed id is 400, a missing post 404 and a lookup error 500, each with no further effects; a found post is deleted in a transaction; the reply is "Post deleted" iff the post exists and the deletion commits |
| PostController.CreatePostDisciplined | starter/controllers/post_controller.go:163-171 | the write commits iff the post cache is invalidated, iff creation succeeds; the invalidation comes right after the commit; otherwise the cache is untouched; the reply does not depend on Redis |
| PostController.UpdatePostDisciplined | starter/controllers/post_controller.go:226-234 | the write commits iff the post cache is invalidated, iff the update succeeds; the invalidation comes right after the commit; otherwise the cache is untouched; the reply does not depend on Redis |
| PostController.DeletePostDisciplined | starter/controllers/post_controller.go:261-269 | the write commits iff the post cache is invalidated, iff deletion succeeds; the invalidation comes right after the commit; otherwise the cache is untouched; the reply does not depend on Redis |
| PageController.StandaloneSearch | starter/controllers/page_controller.go:44-51 | the search group on its own has no parentheses: two title-or-content alternatives, each bound to "%search%" |
| PageController.StandaloneText | starter/controllers/page_controller.go:46-50 | the search group on its own reads `title ILIKE ? OR content ILIKE ?` |
| PageController.WhereTextAlone | starter/controllers/page_controller_test.go:503-508 | with only a search, the clause sent is `title ILIKE ? OR content ILIKE ?` |
| PageController.WhereTextBoth | starter/controllers/page_controller.go:44-56 | with a search and a title, the clause sent is `(title ILIKE ? OR content ILIKE ?) AND title ILIKE ?` |
| PageController.Conditions | starter/controllers/page_controller.go:43-56 | the search adds a title-or-content condition with two arguments, and title one more condition; with two conditions both are grouped |
| PageController.FilterMeaning | starter/controllers/page_controller.go:43-56 | a page passes iff the search is in its title or content and the title filter in its title, each when given |
| PageController.GetPages | starter/controllers/page_controller.go:18-79 | a failed count answers 500 with the count's error, since the page query on the same GORM query then returns it; otherwise a failed fetch answers 500 with its own text; else the list reply |
| PageController.ListSucceedsIffBothQueries | starter/controllers/page_controller.go:58-70 | the list answers 200 iff both queries succeed, with the counted total and the fetched rows; otherwise 500 with the first failed query's text |
| PageController.GetPage | starter/controllers/page_controller.go:82-104 | the page is returned with 200 iff the id parses and the page exists |
| PageController.CreatePage | starter/controllers/page_controller.go:107-132 | a bind error is 400 with no effects; otherwise the write is a transaction; the reply is 201 iff binding and the write succeed, and then has the bound fields and the new id |
| PageController.Replace | starter/controllers/page_controller.go:165-166 | title and content are replaced unconditionally, the id kept |
| PageController.ReplaceForgets | starter/controllers/page_controller.go:165-166 | the previous contents do not matter: two pages with the same id end up equal, and replacing again changes nothing |
| PageController.UpdatePage | starter/controllers/page_controller.go:135-177 | a malformed id is 400, a missing page 404 and a lookup error 500, each with no further effects; a bind error is then 400; otherwise the save is a transaction; the reply is 200 iff all succeed and the save commits, and then is the stored page with title and content replaced |
| PageController.DeletePage | starter/controllers/page_controller.go:180-212 | a malformed id is 400, a missing page 404 and a lookup error 500, each with no further effects; the reply is "Page deleted" iff the page exists and the deletion commits |
| PageController.CreatePageDisciplined | starter/controllers/page_controller.go:122-131 | the write commits iff the page cache is invalidated, iff creation succeeds; the invalidation comes right after the commit; otherwise the cache is untouched; the reply does not depend on Redis |
| PageController.UpdatePageDisciplined | starter/controllers/page_controller.go:167-176 | the write commits iff the page cache is invalidated, iff the update succeeds; the invalidation comes right after the commit; otherwise the cache is untouched; the reply does not depend on Redis |
| PageController.DeletePageDisciplined | starter/controllers/page_controller.go:201-211 | the write commits iff the page cache is invalidated, iff deletion succeeds; the invalidation comes right after the commit; otherwise the cache is untouched; the reply does not depend on Redis |
| MediaController.SearchTextAsWritten | starter/controllers/media_controller.go:53 | the written search clause's text is exactly `url ILIKE ? OR type ILIKE ?`, with no parentheses |
| MediaController.SearchText | starter/controllers/media_controller.go:51-55 | the intended search group's text is the same two tests in parentheses |
| MediaController.ConditionsAsWritten | starter/controllers/media_controller.go:48-61 | as written, search adds an ungrouped two-alternative condition with two arguments, and type one exact argument |
| MediaController.AsWrittenMeaning | starter/controllers/media_controller.go:51-65 | as written, with both filters a row passes iff its URL matches the search, or its type both matches the search and equals the type |
| MediaController.AsWrittenAgreesAlone | starter/controllers/media_controller.go:48-65 | the written and intended clauses exist together and carry the same arguments; unless both filters are given, a row passes one iff it passes the other |
| MediaController.TypeFilterBypassed | starter/controllers/media_controller.go:51-65 | `search=jpg&type=video` passes an image whose URL contains "jpg" as written, but not under the intended clause |
| MediaController.Conditions | starter/controllers/media_controller.go:48-61 | the intended conditions are self-contained, with the same arguments as written |
| MediaController.FilterMeaning | starter/controllers/media_controller.go:48-65 | under the intended clause a row passes iff the search is in its URL or type and its type equals the type filter, each when given |
| MediaController.GetMedia | starter/controllers/media_controller.go:18-99 | a count failure is 500 "Failed to count media records", a fetch failure 500 "Failed to fetch media records", else the list reply |
| MediaController.PlanPlaceholders | starter/controllers/media_controller.go:62-72 | with both filters, count and page queries carry the same clause: two search arguments, the type, three placeholders |
| MediaController.GetMediaById | starter/controllers/media_controller.go:101-117 | the record is returned with 200 iff the id parses and the record exists |
| MediaController.CreateMedia | starter/controllers/media_controller.go:119-143 | bind and validation errors are 400 with no effects; otherwise the write is a transaction; the reply is 201 iff binding, validation and the write succeed, and then has the bound fields and the new id |
| MediaController.DeleteMedia | starter/controllers/media_controller.go:145-173 | a malformed id is 400, a missing record 404 and a lookup error 500, each with no further effects; the reply is "Media deleted" iff the record exists and the deletion commits |
| MediaController.CreateMediaDisciplined | starter/controllers/media_controller.go:132-142 | the write commits iff the media cache is invalidated, iff creation succeeds; the invalidation comes right after the commit; otherwise the cache is untouched; the reply does not depend on Redis |
| MediaController.DeleteMediaDisciplined | starter/controllers/media_controller.go:162-172 | the write commits iff the media cache is invalidated, iff deletion succeeds; the invalidation comes right after the commit; otherwise the cache is untouched; the reply does not depend on Redis |

## Left out

- I/O, the gin context and the response flush are not modelled. Only the header map and body a response ends with are.
- Middleware.RedisMiddleware: `X-Cache: MISS` is set after the handler has written. Whether gin still sends a header set that late is not modelled.
- Middleware.LegacyMiddleware: the same holds for its `X-Cache: MISS`.
- Concurrency is not modelled: the `sync.RWMutex` of the in-memory store, unsynchronised updates of the Redis counters, and the cleanup goroutine's timer. `InMemory.Cleanup` is one pass of the sweep at a given instant.
- The Redis client is not modelled: its connection options, and the host, port, password and database read from the environment. Only the prefix and the ping outcome are.
- MD5 and hex encoding are a function parameter returning 32 lowercase hex characters. No collision-freedom is assumed.
- JSON is not modelled. A stored Redis value is either a decodable item or not; marshalling a `CacheItem` cannot fail in the source.
- RedisStore.Set: Redis stores a TTL in whole milliseconds, so the server deadline may round differently from the item's own expiry. The model uses one clock for both. A TTL of exactly -1 ns, which the Redis client sends as KEEPTTL, is modelled like any other non-positive TTL: no deadline.
- RedisStore.Get: a key past its server deadline stays in the model's map until a command removes it. No operation can see it, which matches Redis's lazy expiry.
- RedisStore.InvalidatePattern: glob metacharacters (`*`, `?`, `[`) inside a pattern are taken literally. Redis `KEYS` would interpret them.
- RedisStore.Get: the DEL after an expired read (starter/middleware/redis_cache.go:120) uses the same reachability as the GET, so a GET that succeeds followed by a DEL that fails is not modelled.
- RedisStore.GetStats: the hit ratio is an exact real, not a float64 with rounding.
- The hit and miss counters are unbounded naturals, so int64 overflow is not modelled.
- The `LastCleanup` statistics field is never written by the source and is not modelled.
- `RedisCacheMiddleware` builds the global manager lazily on first use. The model takes the manager as an argument; `Manager.NewCacheManager` is the construction.
- The legacy `InvalidateCachePattern` and `ClearCache` (starter/middleware/cache.go:188-194) are `InMemory.InvalidatePattern` and `InMemory.Clear` on the global store, with nothing added.
- The gzip stream and `gzipWriter` are not modelled. Only the decision and the headers set are.
- SQL execution, GORM and the database are abstract. Each handler receives the count, the rows, the lookup, the media fetch and the outcome of the write as parameters. Row order under ORDER BY is not modelled.
- SqlFilter.Ilike: `%` and `_` inside the search text are taken literally, not as LIKE wildcards.
- SqlFilter.Where: only the number of placeholders is proved to equal the number of arguments, not that each argument reaches the placeholder at its own position.
- A failing `tx.Commit()` is not modelled. The source ignores its result and carries on to invalidate and answer success, so the trace always records `Commit`.
- The error returned by `Invalidate*Cache` is dropped by every handler, as in the source.
- PostController.CreatePost: the reload with `Preload("Media")` after the commit is not modelled. Its success and failure branches both answer with the post built by the handler.
- PostController.UpdatePost: the same reload is not modelled.
- Timestamps, the many-to-many association table and GORM's `Preload` are not modelled. A post's media are the ids the media fetch returned.
- PostController.CreatePost: a validation failure answers "Validation failed: " without the validator's own text after it. The same holds for PostController.UpdatePost and MediaController.CreateMedia.
- MediaController.CreateMedia: the validator's verdict is a parameter, because starter/models/media.go is not part of this model.
- The `binding:"required"` check on page Title and Content is part of the binding outcome. `pageValidator.Struct` is not modelled as a separate step, because the page record has no `validate` tags and it never fails.
- The "Database connection error" branch of the page handlers is not modelled. It is unreachable in the application: the router stores a `*gorm.DB` under "db" for every request (starter/routes/routes.go:14).
- Handlers.Plan: the offset in the plan is the intended `Listing.Offset`, not the int64 product the code computes. The two agree whenever (page-1)·size fits in int64; that agreement is an ensures of Plan. The overflow is the first entry under "## Findings".
- PostController.GetPosts: its plan carries the intended offset of Handlers.Plan, so it differs from the code only when (page-1)·size overflows int64.
- PageController.GetPages: the same holds for its plan's offset.
- MediaController.GetMedia: its plan carries the intended offset and the parenthesised search clause. The clause differs from the code's only when both search and type are given (MediaController.AsWrittenAgreesAlone). The second entry under "## Findings" covers that case.
- Listing.TotalPages: `total + pageSize - 1` overflowing int64 is not modelled; the total is a natural number.
- Strings.ToLower folds ASCII letters only, not the rest of Unicode.
- `main.go`, `routes.go`, `utils/db.go`, `metrics.go` and the models' tests are context only.

## Findings

| source | as written | input that shows it | evidently intended | confidence | as-written member | corrected member |
|---|---|---|---|---|---|---|
| starter/controllers/post_controller.go:37 | `offset := (page - 1) * pageSize` in int64, with `page` only bounded by `Atoi`; also page_controller.go:30 and media_controller.go:30 | `?page=1000000000000000000&page_size=10`: the page is accepted, and the offset wraps to -8446744073709551626 | an offset that is never negative, so the page window starts at (page-1)·size | medium, not executed | Listing.OffsetWrapsNegative | Listing.Offset |
| starter/controllers/media_controller.go:51-65 | "url ILIKE ? OR type ILIKE ?" joined with " AND type = ?" without parentheses, so the type filter binds only to the second alternative | `?search=jpg&type=video` and a record with url "a.jpg", type "image": the record is returned | the search group in parentheses, as the post handler writes it at post_controller.go:60 | high, not executed | MediaController.TypeFilterBypassed | MediaController.FilterMeaning |

The list handlers in this model use the corrected definitions: `Handlers.Plan` uses `Listing.Offset`, and `MediaController.GetMedia` uses `MediaController.Conditions`. The lines under "## Left out" that start with those handlers' names say where the two agree.
