/**
 * `getTokenFromRequest`: where a POST request's token is looked for, in a
 * fixed order: the request headers `apache_request_headers` exposes (when
 * that function exists), then the POST payload, then the server variable
 * `HTTP_<NAME>`.
 */
module Extraction {
  import opened Wrappers

  /** The token name used when the configuration leaves it empty. */
  const DefaultTokenName: string := "csrfp_token"

  /** Where a token was found. */
  datatype Source = ApacheRequestHeaders | PostPayload | ServerVariable

  datatype Extracted = Extracted(token: string, source: Source)

  /** `strtoupper` on one character: ASCII letters only. */
  function UpperChar(c: char): (u: char)
    ensures 'a' <= c <= 'z' ==> 'A' <= u <= 'Z' && u as int == c as int - 32
    ensures !('a' <= c <= 'z') ==> u == c
  {
    if 'a' <= c <= 'z' then (c as int - 32) as char else c
  }

  /** One character of the server-variable name: upper-cased, `-` becoming `_`. */
  function HeaderChar(c: char): (h: char)
    ensures c == '-' ==> h == '_'
    ensures c != '-' ==> h == UpperChar(c)
    ensures h != '-' && !('a' <= h <= 'z')
  {
    if c == '-' then '_' else UpperChar(c)
  }

  /**
   * `tokenHeaderKey`: `HTTP_` followed by the token name upper-cased with
   * `-` replaced by `_`, the form under which a request header reaches
   * `$_SERVER`.
   */
  function HeaderKey(name: string): (k: string)
    ensures |k| == |HeaderKeyPrefix| + |name| && k[..|HeaderKeyPrefix|] == HeaderKeyPrefix
    ensures forall i :: 0 <= i < |name| ==> k[|HeaderKeyPrefix| + i] == HeaderChar(name[i])
    ensures forall i :: |HeaderKeyPrefix| <= i < |k| ==> k[i] != '-' && !('a' <= k[i] <= 'z')
  {
    HeaderKeyPrefix + seq(|name|, i requires 0 <= i < |name| => HeaderChar(name[i]))
  }

  const HeaderKeyPrefix: string := "HTTP_"

  /**
   * Two names share one server variable exactly when they have the same
   * length and differ only in letter case or in `-` against `_`.
   */
  lemma {:induction false} HeaderKeyCollisions(a: string, b: string)
    ensures HeaderKey(a) == HeaderKey(b) <==>
      |a| == |b| && forall i :: 0 <= i < |a| ==> HeaderChar(a[i]) == HeaderChar(b[i])
  {
    var ka, kb := HeaderKey(a), HeaderKey(b);
    if |a| == |b| && forall i :: 0 <= i < |a| ==> HeaderChar(a[i]) == HeaderChar(b[i]) {
      forall i | 0 <= i < |ka|
        ensures ka[i] == kb[i]
      {
        if i >= |HeaderKeyPrefix| {
          assert ka[i] == HeaderChar(a[i - |HeaderKeyPrefix|]);
        }
      }
    }
    if ka == kb {
      forall i | 0 <= i < |a|
        ensures HeaderChar(a[i]) == HeaderChar(b[i])
      {
        assert ka[|HeaderKeyPrefix| + i] == kb[|HeaderKeyPrefix| + i];
      }
    }
  }

  /**
   * The first source that holds the token name wins; the result carries the
   * value found there and its source, and None means no source holds it.
   * Without a header key (before `init`) the server variables are not looked at.
   */
  function Extract(
    headers: Option<map<string, string>>, post: map<string, string>,
    server: map<string, string>, name: string, headerKey: Option<string>
  ): (r: Option<Extracted>)
    ensures r.Some? && r.value.source == ApacheRequestHeaders
      ==> headers.Some? && name in headers.value && r.value.token == headers.value[name]
    ensures r.Some? && r.value.source == PostPayload
      ==> name in post && r.value.token == post[name]
    ensures r.Some? && r.value.source == ServerVariable
      ==> headerKey.Some? && headerKey.value in server && r.value.token == server[headerKey.value]
    ensures r.None? <==>
      && !(headers.Some? && name in headers.value)
      && name !in post
      && !(headerKey.Some? && headerKey.value in server)
  {
    if headers.Some? && name in headers.value then Some(Extracted(headers.value[name], ApacheRequestHeaders))
    else if name in post then Some(Extracted(post[name], PostPayload))
    else if headerKey.None? then None
    else if headerKey.value in server then Some(Extracted(server[headerKey.value], ServerVariable))
    else None
  }

  /**
   * Priority: a header beats the payload and the server variables whatever
   * they hold, and the payload beats the server variables.
   */
  lemma ExtractPriority(
    headers: Option<map<string, string>>, post: map<string, string>, post': map<string, string>,
    server: map<string, string>, server': map<string, string>, name: string, headerKey: Option<string>)
    ensures headers.Some? && name in headers.value ==>
      Extract(headers, post, server, name, headerKey) == Extract(headers, post', server', name, headerKey)
      == Some(Extracted(headers.value[name], ApacheRequestHeaders))
    ensures !(headers.Some? && name in headers.value) && name in post ==>
      Extract(headers, post, server, name, headerKey) == Extract(headers, post, server', name, headerKey)
      == Some(Extracted(post[name], PostPayload))
  {
  }
}
