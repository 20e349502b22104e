/** The performance middlewares: the gzip decision of `GzipMiddleware` and the
    keep-alive headers of `ConnectionPoolMiddleware`. The compressed stream
    itself is not modelled; only what the middleware decides and which
    headers it sets. */
module Performance {

  import opened Common
  import opened Strings

  /** The content-type prefixes that are never compressed, in the order they
      are tried. */
  const SkipTypes: seq<string> :=
    ["image/", "video/", "audio/", "application/zip", "application/gzip", "application/x-gzip"]

  /** `shouldSkipCompression`, as its loop over `SkipTypes` from index `i`. */
  function SkipFrom(contentType: string, i: nat): (skip: bool)
    requires i <= |SkipTypes|
    ensures skip <==> exists j :: i <= j < |SkipTypes| && HasPrefix(contentType, SkipTypes[j])
    decreases |SkipTypes| - i
  {
    if i == |SkipTypes| then false
    else if HasPrefix(contentType, SkipTypes[i]) then true
    else SkipFrom(contentType, i + 1)
  }

  /** A content type is skipped exactly when it starts with one of the
      listed prefixes. */
  function ShouldSkipCompression(contentType: string): (skip: bool)
    ensures skip <==> exists j :: 0 <= j < |SkipTypes| && HasPrefix(contentType, SkipTypes[j])
  {
    SkipFrom(contentType, 0)
  }

  /** An absent Content-Type and textual or JSON types are compressed; every
      image type and the archive types are not. */
  lemma SkipExamples(subtype: string)
    ensures !ShouldSkipCompression("")
    ensures !ShouldSkipCompression("application/json")
    ensures !ShouldSkipCompression("text/html")
    ensures ShouldSkipCompression("image/" + subtype)
    ensures ShouldSkipCompression("application/zip")
  {
    assert HasPrefix("image/" + subtype, SkipTypes[0]);
    assert HasPrefix("application/zip", SkipTypes[3]);
    var json := "application/json";
    forall j | 0 <= j < |SkipTypes|
      ensures !HasPrefix(json, SkipTypes[j])
    {
      var d := if j == 0 || j == 1 then 0 else if j == 2 then 1 else 12;
      assert json[d] != SkipTypes[j][d];
    }
  }

  /** What `GzipMiddleware` does to one request. */
  datatype GzipDecision = PassThrough | Compress

  /** The decision reads the REQUEST headers: compression needs "gzip"
      somewhere in Accept-Encoding and a request Content-Type that is not
      skipped. */
  function GzipDecide(requestHeaders: Header): (d: GzipDecision)
    ensures d == Compress <==>
      Contains(HeaderValue(requestHeaders, "Accept-Encoding"), "gzip")
      && !ShouldSkipCompression(HeaderValue(requestHeaders, "Content-Type"))
  {
    if !Contains(HeaderValue(requestHeaders, "Accept-Encoding"), "gzip") then PassThrough
    else if ShouldSkipCompression(HeaderValue(requestHeaders, "Content-Type")) then PassThrough
    else Compress
  }

  /** The response headers once `GzipMiddleware` has run: a compressed
      response announces `Content-Encoding: gzip` and `Vary: Accept-Encoding`;
      otherwise the headers are left alone. */
  function GzipHeaders(requestHeaders: Header, responseHeaders: Header): (h: Header)
    ensures GzipDecide(requestHeaders) == PassThrough ==> h == responseHeaders
    ensures GzipDecide(requestHeaders) == Compress ==>
      && HeaderValue(h, "Content-Encoding") == "gzip"
      && HeaderValue(h, "Vary") == "Accept-Encoding"
      && h.Keys == responseHeaders.Keys + {"Content-Encoding", "Vary"}
      && forall n :: n in responseHeaders && n != "Content-Encoding" && n != "Vary" ==> h[n] == responseHeaders[n]
  {
    match GzipDecide(requestHeaders)
    case PassThrough => responseHeaders
    case Compress =>
      SetHeader(SetHeader(responseHeaders, "Content-Encoding", "gzip"), "Vary", "Accept-Encoding")
  }

  /** A client that never mentions gzip is never sent a compressed body,
      whatever it claims to upload. */
  lemma NoGzipNoCompression(requestHeaders: Header, responseHeaders: Header)
    requires !Contains(HeaderValue(requestHeaders, "Accept-Encoding"), "gzip")
    ensures GzipHeaders(requestHeaders, responseHeaders) == responseHeaders
  {
  }

  const KeepAliveValue: string := "timeout=120, max=1000"

  /** `ConnectionPoolMiddleware`: every response carries `Connection:
      keep-alive` and `Keep-Alive: timeout=120, max=1000`; nothing else
      changes. */
  function ConnectionPool(responseHeaders: Header): (h: Header)
    ensures HeaderValue(h, "Connection") == "keep-alive"
    ensures HeaderValue(h, "Keep-Alive") == KeepAliveValue
    ensures h.Keys == responseHeaders.Keys + {"Connection", "Keep-Alive"}
    ensures forall n :: n in responseHeaders && n != "Connection" && n != "Keep-Alive" ==> h[n] == responseHeaders[n]
  {
    SetHeader(SetHeader(responseHeaders, "Connection", "keep-alive"), "Keep-Alive", KeepAliveValue)
  }

  /** Applying the middleware twice is the same as applying it once. */
  lemma ConnectionPoolIdempotent(responseHeaders: Header)
    ensures ConnectionPool(ConnectionPool(responseHeaders)) == ConnectionPool(responseHeaders)
  {
  }
}
