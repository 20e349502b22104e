/** The response-caching middlewares as pure decision functions of the
    request, the store state, the clock and the downstream handler's result:
    - the capturing `responseWriter`;
    - the legacy `CacheMiddleware` over the global in-memory store;
    - `RedisCacheMiddleware` over the cache manager. */
module Middleware {

  import opened Common
  import opened Strings
  import opened CacheTypes
  import opened CacheKey
  import Mem = InMemory
  import M = Manager

  datatype Request = Request(httpMethod: string, url: string, path: string, headers: Header)

  /** What the downstream handler produced: its status, the header map of
      the writer when it returned, and the body chunks it wrote, in order. */
  datatype HandlerResult = HandlerResult(status: int, headers: Header, chunks: seq<seq<byte>>)

  datatype Response = Response(status: int, headers: Header, body: seq<byte>)

  /** The store after the request, the response, and whether the downstream
      handler was invoked. */
  datatype Exchange<S> = Exchange(store: S, response: Response, handlerRan: bool)

  /** The response of a request the middleware lets through untouched. */
  function PassThrough(h: HandlerResult): Response
  {
    Response(h.status, h.headers, Flatten(h.chunks))
  }

  // ----- responseWriter -----

  /** `responseWriter.Write`: appends the chunk to the captured body. */
  function Write(body: seq<byte>, chunk: seq<byte>): (body': seq<byte>)
    ensures |body'| == |body| + |chunk|
    ensures body'[..|body|] == body && body'[|body|..] == chunk
  {
    body + chunk
  }

  /** Running a handler's writes through `responseWriter`: starting from an
      empty buffer, the captured body is the in-order concatenation of every
      chunk written. */
  method CaptureWrites(chunks: seq<seq<byte>>) returns (body: seq<byte>)
    ensures body == Flatten(chunks)
  {
    body := [];
    var i := 0;
    while i < |chunks|
      invariant 0 <= i <= |chunks|
      invariant body == Flatten(chunks[..i])
    {
      body := Write(body, chunks[i]);
      assert chunks[..i + 1][..i] == chunks[..i];
      i := i + 1;
    }
    assert chunks[..|chunks|] == chunks;
  }

  /** Flattening distributes over concatenation of chunk lists. */
  lemma {:induction false} FlattenAppend(a: seq<seq<byte>>, b: seq<seq<byte>>)
    ensures Flatten(a + b) == Flatten(a) + Flatten(b)
    decreases |b|
  {
    if |b| == 0 {
      assert a + b == a;
    } else {
      assert (a + b)[..|a + b| - 1] == a + b[..|b| - 1];
      FlattenAppend(a, b[..|b| - 1]);
    }
  }

  /** The captured body is empty exactly when every chunk written was empty. */
  lemma {:induction false} FlattenEmpty(chunks: seq<seq<byte>>)
    ensures |Flatten(chunks)| == 0 <==> forall i :: 0 <= i < |chunks| ==> |chunks[i]| == 0
    decreases |chunks|
  {
    if |chunks| > 0 {
      FlattenEmpty(chunks[..|chunks| - 1]);
      assert forall i :: 0 <= i < |chunks| - 1 ==> chunks[..|chunks| - 1][i] == chunks[i];
    }
  }

  /** gin's `c.Data(200, contentType, data)` sets Content-Type only when the
      header has none. */
  function WithContentType(h: Header, contentType: string): (h': Header)
    ensures "Content-Type" in h && |h["Content-Type"]| > 0 ==> h' == h
    ensures !("Content-Type" in h && |h["Content-Type"]| > 0) ==> h' == h["Content-Type" := [contentType]]
  {
    if "Content-Type" in h && |h["Content-Type"]| > 0 then h else h["Content-Type" := [contentType]]
  }

  /** `name` carries exactly the one value `v`. */
  predicate HasHeader(h: Header, name: string, v: string) {
    name in h && h[name] == [v]
  }

  /** The headers of a replayed hit: the stored headers, then `X-Cache: HIT`,
      then (Redis variant only) `X-Cache-Key`, then Content-Type if missing.
      Every name is accounted for: the stored non-empty headers other than
      the three the middleware writes, `X-Cache` as HIT, `X-Cache-Key` as
      given (or as stored when not given, and gone when given empty), and
      Content-Type as stored, or a single empty value when none was stored,
      since `c.Data` writes `Headers["Content-Type"]`, which Go reads as "". */
  function HitHeaders(stored: map<string, string>, keyHeader: Option<string>): (hs: Header)
    ensures HasHeader(hs, "X-Cache", "HIT")
    ensures HasHeader(hs, "Content-Type", if "Content-Type" in stored then stored["Content-Type"] else "")
    ensures keyHeader.Some? && keyHeader.value != "" ==> HasHeader(hs, "X-Cache-Key", keyHeader.value)
    ensures keyHeader.Some? && keyHeader.value == "" ==> "X-Cache-Key" !in hs
    ensures keyHeader.None? ==>
      ("X-Cache-Key" in hs <==> "X-Cache-Key" in stored && stored["X-Cache-Key"] != "")
      && ("X-Cache-Key" in hs ==> hs["X-Cache-Key"] == [stored["X-Cache-Key"]])
    ensures forall n :: n != "X-Cache" && n != "X-Cache-Key" && n != "Content-Type" ==>
      (n in hs <==> n in stored && stored[n] != "")
    ensures forall n :: n in stored && stored[n] != "" && n != "X-Cache" && n != "X-Cache-Key"
              ==> HasHeader(hs, n, stored[n])
  {
    var h := SetHeader(ReplayHeaders(stored), "X-Cache", "HIT");
    var h := if keyHeader.Some? then SetHeader(h, "X-Cache-Key", keyHeader.value) else h;
    WithContentType(h, if "Content-Type" in stored then stored["Content-Type"] else "")
  }

  // ----- Legacy CacheMiddleware over the in-memory store -----

  /** `CacheMiddleware(ttl)`: bypasses non-GET requests; replays a live entry
      keyed by the digest of method and URL; on a miss caches any 2xx
      response, even an empty one, with no path or User-Agent distinction. */
  function LegacyMiddleware(c: Mem.MemCache, md5: string -> HexDigest, req: Request, h: HandlerResult, ttl: int, now: nat)
    : (x: Exchange<Mem.MemCache>)
    ensures req.httpMethod != "GET" ==> x == Exchange(c, PassThrough(h), true)
    ensures req.httpMethod == "GET" ==>
      var key := LegacyKey(md5, req.httpMethod, req.url);
      match Mem.Get(c, key, now)
      case Some(item) =>
        && x.store == c && !x.handlerRan
        && x.response == Response(200, HitHeaders(item.headers, None), item.data)
      case None =>
        && x.handlerRan
        && x.response.body == Flatten(h.chunks)
        && (Is2xx(h.status) ==> x.store == Mem.Set(c, key, Flatten(h.chunks), FirstValues(h.headers), ttl, now).0
                                && HasHeader(x.response.headers, "X-Cache", "MISS"))
        && (!Is2xx(h.status) ==> x == Exchange(c, PassThrough(h), true))
  {
    if req.httpMethod != "GET" then Exchange(c, PassThrough(h), true)
    else
      var key := LegacyKey(md5, req.httpMethod, req.url);
      match Mem.Get(c, key, now)
      case Some(item) =>
        Exchange(c, Response(200, HitHeaders(item.headers, None), item.data), false)
      case None =>
        var body := Flatten(h.chunks);
        if Is2xx(h.status) then
          var (c', _) := Mem.Set(c, key, body, FirstValues(h.headers), ttl, now);
          Exchange(c', Response(h.status, SetHeader(h.headers, "X-Cache", "MISS"), body), true)
        else Exchange(c, PassThrough(h), true)
  }

  /** A legacy hit replays the stored body with status 200, every
      non-empty stored header and `X-Cache: HIT`, and skips the handler and
      leaves the store alone. */
  lemma LegacyHitReplays(c: Mem.MemCache, md5: string -> HexDigest, req: Request, h: HandlerResult, ttl: int, now: nat)
    requires req.httpMethod == "GET"
    requires Mem.Get(c, LegacyKey(md5, req.httpMethod, req.url), now).Some?
    ensures var item := Mem.Get(c, LegacyKey(md5, req.httpMethod, req.url), now).value;
      var x := LegacyMiddleware(c, md5, req, h, ttl, now);
      && x.store == c && !x.handlerRan
      && x.response.status == 200 && x.response.body == item.data
      && HasHeader(x.response.headers, "X-Cache", "HIT")
      && (forall n :: n in item.headers && item.headers[n] != "" && n != "X-Cache"
            ==> HasHeader(x.response.headers, n, item.headers[n]))
      && (forall n :: n in x.response.headers ==>
            n == "X-Cache" || n == "Content-Type" || (n in item.headers && item.headers[n] != ""))
  {
  }

  /** The legacy key is made of the method and the URL alone: two requests
      that agree on both share the entry and get the same outcome, whatever
      their other headers say, the User-Agent included. */
  lemma LegacyKeyIgnoresHeaders(c: Mem.MemCache, md5: string -> HexDigest, req: Request, req': Request,
                                h: HandlerResult, ttl: int, now: nat)
    requires req.httpMethod == req'.httpMethod && req.url == req'.url
    ensures LegacyKey(md5, req.httpMethod, req.url) == LegacyKey(md5, req'.httpMethod, req'.url)
    ensures LegacyMiddleware(c, md5, req, h, ttl, now) == LegacyMiddleware(c, md5, req', h, ttl, now)
  {
  }

  // ----- RedisCacheMiddleware over the cache manager -----

  /** The requests `RedisCacheMiddleware` never looks up: non-GET, or a path
      containing "/admin" or "/auth". */
  predicate Bypassed(req: Request) {
    req.httpMethod != "GET" || Contains(req.path, "/admin") || Contains(req.path, "/auth")
  }

  /** The key of a request: from its method, full URL and User-Agent. */
  function RequestKey(md5: string -> HexDigest, req: Request): (k: string)
    ensures |k| >= 8
  {
    RedisKey(md5, req.httpMethod, req.url, HeaderValue(req.headers, "User-Agent"))
  }

  /** Whether a miss is stored: a 2xx status and a non-empty body. */
  predicate Storable(h: HandlerResult) {
    Is2xx(h.status) && |Flatten(h.chunks)| > 0
  }

  /** `RedisCacheMiddleware(ttl)`. `getLink` and `setLink` are the server's
      answers to the lookup and to the store of the captured response. A
      bypassed request has no cache interaction at all; otherwise the handler
      runs exactly when the lookup misses. */
  function RedisMiddleware(m: M.Manager, md5: string -> HexDigest, req: Request, h: HandlerResult,
                           ttl: int, now: nat, getLink: Link, setLink: Link)
    : (x: Exchange<M.Manager>)
    ensures Bypassed(req) ==> x == Exchange(m, PassThrough(h), true)
    ensures !Bypassed(req) ==> (x.handlerRan <==> M.Get(m, RequestKey(md5, req), now, getLink).1.None?)
  {
    if Bypassed(req) then Exchange(m, PassThrough(h), true)
    else
      var key := RequestKey(md5, req);
      var (m1, found) := M.Get(m, key, now, getLink);
      match found
      case Some(item) =>
        Exchange(m1, Response(200, HitHeaders(item.headers, Some(key[..8])), item.data), false)
      case None =>
        var body := Flatten(h.chunks);
        if Is2xx(h.status) && |body| > 0 then
          var (m2, _) := M.Set(m1, key, body, FirstValues(h.headers), ttl, now, setLink);
          var hs := SetHeader(SetHeader(h.headers, "X-Cache", "MISS"), "X-Cache-Key", key[..8]);
          Exchange(m2, Response(h.status, hs, body), true)
        else Exchange(m1, PassThrough(h), true)
  }

  /** A hit replays the stored body with status 200, the stored headers,
      `X-Cache: HIT` and the first 8 characters of the key, and skips the
      handler; only the lookup touched the store. */
  lemma RedisHitReplays(m: M.Manager, md5: string -> HexDigest, req: Request, h: HandlerResult,
                        ttl: int, now: nat, getLink: Link, setLink: Link)
    requires !Bypassed(req)
    requires M.Get(m, RequestKey(md5, req), now, getLink).1.Some?
    ensures var key := RequestKey(md5, req);
      var (m1, found) := M.Get(m, key, now, getLink);
      var item := found.value;
      var x := RedisMiddleware(m, md5, req, h, ttl, now, getLink, setLink);
      && x.store == m1 && !x.handlerRan
      && x.response.status == 200 && x.response.body == item.data
      && HasHeader(x.response.headers, "X-Cache", "HIT")
      && HasHeader(x.response.headers, "X-Cache-Key", key[..8])
      && (forall n :: n in item.headers && item.headers[n] != "" && n != "X-Cache" && n != "X-Cache-Key"
            ==> HasHeader(x.response.headers, n, item.headers[n]))
      && (forall n :: n in x.response.headers ==>
            n == "X-Cache" || n == "X-Cache-Key" || n == "Content-Type" || (n in item.headers && item.headers[n] != ""))
  {
    var key := RequestKey(md5, req);
    KeyHeaderNonEmpty(key);
  }

  lemma KeyHeaderNonEmpty(key: string)
    requires |key| >= 8
    ensures key[..8] != ""
  {
    assert |key[..8]| == 8;
  }

  /** A miss runs the handler and returns its body; it stores the captured
      body and the first value of each header exactly when the status is 2xx
      and the body non-empty, and otherwise leaves the response untouched. */
  lemma RedisMissCaptures(m: M.Manager, md5: string -> HexDigest, req: Request, h: HandlerResult,
                          ttl: int, now: nat, getLink: Link, setLink: Link)
    requires !Bypassed(req)
    requires M.Get(m, RequestKey(md5, req), now, getLink).1.None?
    ensures var key := RequestKey(md5, req);
      var m1 := M.Get(m, key, now, getLink).0;
      var x := RedisMiddleware(m, md5, req, h, ttl, now, getLink, setLink);
      && x.handlerRan
      && x.response.body == Flatten(h.chunks)
      && (Storable(h) ==> x.store == M.Set(m1, key, Flatten(h.chunks), FirstValues(h.headers), ttl, now, setLink).0
                          && HasHeader(x.response.headers, "X-Cache", "MISS")
                          && HasHeader(x.response.headers, "X-Cache-Key", key[..8]))
      && (!Storable(h) ==> x == Exchange(m1, PassThrough(h), true))
  {
    KeyHeaderNonEmpty(RequestKey(md5, req));
  }

  /** Two identical GETs within the TTL, starting from a cold key and with
      the server answering: the first is a MISS that runs the handler, the
      second a HIT that does not, and both bodies are byte-identical. */
  lemma MissThenHit(m: M.Manager, md5: string -> HexDigest, req: Request, h: HandlerResult, h2: HandlerResult,
                    ttl: int, t1: nat, t2: nat)
    requires !Bypassed(req)
    requires M.Lookup(m, RequestKey(md5, req), t1).None?
    requires Storable(h)
    requires t2 <= t1 + ttl
    ensures var x1 := RedisMiddleware(m, md5, req, h, ttl, t1, Up, Up);
            var x2 := RedisMiddleware(x1.store, md5, req, h2, ttl, t2, Up, Up);
            && x1.handlerRan && HasHeader(x1.response.headers, "X-Cache", "MISS")
            && !x2.handlerRan && HasHeader(x2.response.headers, "X-Cache", "HIT")
            && x2.response.body == x1.response.body
  {
    var key := RequestKey(md5, req);
    var m1 := M.Get(m, key, t1, Up).0;
    var body := Flatten(h.chunks);
    RedisMissCaptures(m, md5, req, h, ttl, t1, Up, Up);
    M.GetAfterSet(m1, key, body, FirstValues(h.headers), ttl, t1, t2);
    var m2 := M.Set(m1, key, body, FirstValues(h.headers), ttl, t1, Up).0;
    RedisHitReplays(m2, md5, req, h2, ttl, t2, Up, Up);
  }

  /** A request with a different tag never reads another tag's entry. */
  lemma DifferentTagsDifferentKeys(md5: string -> HexDigest, req: Request, req': Request)
    requires ResourceTag(req.url) != ResourceTag(req'.url)
    ensures RequestKey(md5, req) != RequestKey(md5, req')
  {
    RedisKeyDeterministic(md5, req.httpMethod, req.url, HeaderValue(req.headers, "User-Agent"),
                          req'.httpMethod, req'.url, HeaderValue(req'.headers, "User-Agent"));
  }
}
