/** The values every cache store shares: the stored item, its expiry rule,
    the statistics record and the outcome of one call to the Redis server. */
module CacheTypes {

  import opened Common

  /** A cached response: body bytes, single-valued headers and an absolute
      expiry instant on the model clock. */
  datatype CacheItem = CacheItem(data: seq<byte>, headers: map<string, string>, expiresAt: int)

  /** The item `Set(key, data, headers, ttl)` builds at instant `now`. */
  function NewItem(data: seq<byte>, headers: map<string, string>, ttl: int, now: nat): (item: CacheItem)
    ensures item.data == data && item.headers == headers
    ensures item.expiresAt - ttl == now
  {
    CacheItem(data, headers, now + ttl)
  }

  /** `time.Now().After(item.ExpiresAt)`: expiry is strict, so an item is
      still live at the very instant it expires. */
  predicate Expired(item: CacheItem, now: nat) {
    now > item.expiresAt
  }

  /** The statistics record of a store. `LastCleanup` is never written by
      the source and is not modelled. */
  datatype CacheStats = CacheStats(hits: nat, misses: nat, hitRatio: real, keyCount: nat, cacheType: string)

  const InMemoryType: string := "in_memory"
  const RedisType: string := "redis"
  const NotInitializedType: string := "not_initialized"

  /** Whether one request to the Redis server got through (`Up`) or failed
      with a network or server error (`Down`). */
  datatype Link = Up | Down

  /** The three resource names used as key tags and invalidation patterns. */
  datatype Resource = Media | Posts | Pages {
    function Name(): (n: string)
      ensures |n| == 5
    {
      match this
      case Media => "media"
      case Posts => "posts"
      case Pages => "pages"
    }
  }
}
