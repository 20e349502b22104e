/** Cache-key derivation. MD5 followed by hex encoding is not modelled: it is
    the parameter `md5`, any function whose results are 32 lowercase hex
    characters. Nothing is assumed about collisions. */
module CacheKey {

  import opened Common
  import opened Strings
  import opened CacheTypes

  predicate IsHexChar(c: char) {
    '0' <= c <= '9' || 'a' <= c <= 'f'
  }

  predicate AllHex(s: string) {
    forall i :: 0 <= i < |s| ==> IsHexChar(s[i])
  }

  /** What `hex.EncodeToString(md5.Sum(...))` yields: 32 lowercase hex chars. */
  type HexDigest = s: string | |s| == 32 && AllHex(s)
    witness "00000000000000000000000000000000"

  /** `generateCacheKey` of the legacy middleware: the digest of
      `httpMethod + ":" + url`; the User-Agent plays no part. */
  function LegacyKey(md5: string -> HexDigest, httpMethod: string, url: string): (k: HexDigest)
    ensures k == md5(httpMethod + ":" + url)
    ensures |k| == 32 && AllHex(k)
  {
    md5(httpMethod + ":" + url)
  }

  /** The resource tag of a URL: the first of "/posts", "/pages", "/media"
      found anywhere in it, query string included. */
  function ResourceTag(url: string): (r: Option<Resource>)
    ensures r == Some(Posts) <==> Contains(url, "/posts")
    ensures r == Some(Pages) <==> !Contains(url, "/posts") && Contains(url, "/pages")
    ensures r == Some(Media) <==> !Contains(url, "/posts") && !Contains(url, "/pages") && Contains(url, "/media")
    ensures r == None <==> !Contains(url, "/posts") && !Contains(url, "/pages") && !Contains(url, "/media")
  {
    if Contains(url, "/posts") then Some(Posts)
    else if Contains(url, "/pages") then Some(Pages)
    else if Contains(url, "/media") then Some(Media)
    else None
  }

  /** `generateRedisCacheKey`: tag + ":" + digest of
      `httpMethod + ":" + url + ":" + userAgent`, or the bare digest. */
  function RedisKey(md5: string -> HexDigest, httpMethod: string, url: string, userAgent: string): (k: string)
    ensures |k| >= 8
    ensures ResourceTag(url).None? ==> k == md5(httpMethod + ":" + url + ":" + userAgent)
    ensures ResourceTag(url).Some? ==> k == ResourceTag(url).value.Name() + ":" + md5(httpMethod + ":" + url + ":" + userAgent)
  {
    var digest := md5(httpMethod + ":" + url + ":" + userAgent);
    match ResourceTag(url)
    case Some(res) => res.Name() + ":" + digest
    case None => digest
  }

  /** Identical (httpMethod, URL, User-Agent) triples give identical keys, and
      keys of requests with different tags always differ. */
  lemma RedisKeyDeterministic(md5: string -> HexDigest, httpMethod: string, url: string, ua: string,
                              httpMethod': string, url': string, ua': string)
    ensures httpMethod == httpMethod' && url == url' && ua == ua' ==> RedisKey(md5, httpMethod, url, ua) == RedisKey(md5, httpMethod', url', ua')
    ensures ResourceTag(url) != ResourceTag(url') ==> RedisKey(md5, httpMethod, url, ua) != RedisKey(md5, httpMethod', url', ua')
  {
    var k, k' := RedisKey(md5, httpMethod, url, ua), RedisKey(md5, httpMethod', url', ua');
    if ResourceTag(url) != ResourceTag(url') {
      if ResourceTag(url).Some? && ResourceTag(url').Some? {
        assert k[..5] == ResourceTag(url).value.Name();
        assert k'[..5] == ResourceTag(url').value.Name();
      } else if ResourceTag(url).Some? {
        assert k[5] == ':';
        assert IsHexChar(k'[5]);
      } else {
        assert k'[5] == ':';
        assert IsHexChar(k[5]);
      }
    }
  }

  /** The first letter of each resource name is neither a hex digit nor ':',
      and it does not occur in any other position of any resource name. */
  lemma FirstLetterFacts(res: Resource, other: Resource, j: int)
    requires 1 <= j < 5
    ensures !IsHexChar(res.Name()[0]) && res.Name()[0] != ':'
    ensures other.Name()[j] != res.Name()[0]
  {
  }

  /** A resource name occurs in a tagged key only as its tag. */
  lemma OccursOnlyAsTag(tag: Resource, digest: HexDigest, res: Resource, i: nat)
    ensures OccursAt(tag.Name() + ":" + digest, res.Name(), i) ==> i == 0 && tag == res
  {
    var k := tag.Name() + ":" + digest;
    if OccursAt(k, res.Name(), i) {
      assert k[i] == res.Name()[0];
      FirstLetterFacts(res, tag, 1);
      if i == 0 {
        assert k[..5] == tag.Name();
      } else if i < 5 {
        FirstLetterFacts(res, tag, i);
      }
    }
  }

  /** A resource name never occurs in a bare digest. */
  lemma NotInDigest(digest: HexDigest, res: Resource, i: nat)
    ensures !OccursAt(digest, res.Name(), i)
  {
    if OccursAt(digest, res.Name(), i) {
      assert digest[i] == res.Name()[0];
      FirstLetterFacts(res, res, 1);
    }
  }

  /** Hex digits cannot spell "posts", "pages" or "media": a middleware key
      contains a resource name exactly when the request carried that tag.
      So `Invalidate{Post,Page,Media}Cache` removes exactly the middleware
      entries of that resource. */
  lemma {:induction false} TagSelectsExactly(md5: string -> HexDigest, httpMethod: string, url: string, ua: string, res: Resource)
    ensures Contains(RedisKey(md5, httpMethod, url, ua), res.Name()) <==> ResourceTag(url) == Some(res)
  {
    var k := RedisKey(md5, httpMethod, url, ua);
    var digest := md5(httpMethod + ":" + url + ":" + ua);
    if ResourceTag(url) == Some(res) {
      PrefixContains(k, res.Name());
    }
    if Contains(k, res.Name()) {
      var i :| 0 <= i <= |k| - |res.Name()| && OccursAt(k, res.Name(), i);
      match ResourceTag(url)
      case Some(tag) =>
        OccursOnlyAsTag(tag, digest, res, i);
      case None =>
        NotInDigest(digest, res, i);
    }
  }
}
