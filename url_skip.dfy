/**
 * `getCurrentUrl` and `skipVerificationFor`: the normalised path of the
 * request, matched exactly against the configured skip list.
 *
 * The path is trimmed of `/` at both ends and split on `/`; a last segment
 * that is numeric is dropped, any other is kept. So `/blog/42` becomes
 * `blog` and `/blog/my-post` stays `blog/my-post`; the result never starts
 * with `/`.
 */
module UrlSkip {
  import opened PhpValues

  /** The prefix of `s` before its first `?` or `#`. */
  function UpToQuery(s: string): (r: string)
    ensures r <= s && '?' !in r && '#' !in r
    ensures r == s || s[|r|] == '?' || s[|r|] == '#'
  {
    if s == [] || s[0] == '?' || s[0] == '#' then [] else [s[0]] + UpToQuery(s[1..])
  }

  /** What follows the authority of `https://<s>`: the suffix from the first `/`, `?` or `#` on. */
  function AfterAuthority(s: string): (r: string)
    ensures |r| <= |s| && r == s[|s| - |r|..]
    ensures r == [] || r[0] in {'/', '?', '#'}
  {
    if s == [] || s[0] in {'/', '?', '#'} then s else AfterAuthority(s[1..])
  }

  /** A position before the suffix AfterAuthority returns holds no separator. */
  lemma {:induction false} NoSeparatorBeforeAuthorityEnd(s: string, i: nat)
    requires i < |s| - |AfterAuthority(s)|
    ensures s[i] !in {'/', '?', '#'}
    decreases i
  {
    assert s[0] !in {'/', '?', '#'};
    if i > 0 {
      NoSeparatorBeforeAuthorityEnd(s[1..], i - 1);
      assert s[1..][i - 1] == s[i];
    }
  }

  /** The authority ends at the FIRST `/`, `?` or `#`: none occurs before the suffix. */
  lemma {:induction false} AfterAuthorityAtFirstSeparator(s: string)
    ensures var r := AfterAuthority(s);
      forall i :: 0 <= i < |s| - |r| ==> s[i] !in {'/', '?', '#'}
  {
    forall i | 0 <= i < |s| - |AfterAuthority(s)|
      ensures s[i] !in {'/', '?', '#'}
    {
      NoSeparatorBeforeAuthorityEnd(s, i);
    }
  }

  /**
   * The path component `parse_url` finds in `https://<host><uri>`: empty
   * when the authority is followed directly by a query, a fragment or
   * nothing. With an empty authority `parse_url` fails and returns false,
   * whose `['path']` is null, so the path is empty then too.
   */
  function UrlPath(hostAndUri: string): (p: string)
    ensures p == [] || p[0] == '/'
    ensures '?' !in p && '#' !in p
  {
    var rest := AfterAuthority(hostAndUri);
    if |rest| < |hostAndUri| && rest != [] && rest[0] == '/' then UpToQuery(rest) else []
  }

  /** `ltrim($s, "/")`. */
  function TrimLeft(s: string): (r: string)
    ensures |r| <= |s| && r == s[|s| - |r|..]
    ensures forall i :: 0 <= i < |s| - |r| ==> s[i] == '/'
    ensures r == [] || r[0] != '/'
  {
    if s != [] && s[0] == '/' then
      var r := TrimLeft(s[1..]);
      assert s[|s| - |r|..] == s[1..][|s| - 1 - |r|..];
      assert forall i :: 1 <= i < |s| - |r| ==> s[i] == s[1..][i - 1];
      r
    else s
  }

  /** `rtrim($s, "/")`. */
  function TrimRight(s: string): (r: string)
    ensures r <= s
    ensures forall i :: |r| <= i < |s| ==> s[i] == '/'
    ensures r == [] || r[|r| - 1] != '/'
  {
    if s != [] && s[|s| - 1] == '/' then
      var r := TrimRight(s[..|s| - 1]);
      assert forall i :: |r| <= i < |s| - 1 ==> s[i] == s[..|s| - 1][i];
      r
    else s
  }

  /** `trim($s, "/")`: no `/` at either end. */
  function TrimSlashes(s: string): (r: string)
    ensures r == [] || (r[0] != '/' && r[|r| - 1] != '/')
  {
    var left := TrimLeft(s);
    var r := TrimRight(left);
    assert r != [] ==> r[0] == left[0];
    r
  }

  /**
   * Cutting a run of `/` off the front of `s` (leaving `left`) and one off
   * the back of `left` (leaving `r`): position `i` of `s` is either in `r`
   * or a `/`.
   */
  lemma TrimmedMiddle(s: string, left: string, r: string, i: nat)
    requires |left| <= |s| && left == s[|s| - |left|..] && r <= left
    requires forall j :: 0 <= j < |s| - |left| ==> s[j] == '/'
    requires forall j :: |r| <= j < |left| ==> left[j] == '/'
    requires i < |s|
    ensures var lead := |s| - |left|;
      && lead + |r| <= |s|
      && (lead <= i < lead + |r| ==> r[i - lead] == s[i])
      && (i < lead || lead + |r| <= i ==> s[i] == '/')
  {
    var lead := |s| - |left|;
    if lead <= i {
      assert s[i] == left[i - lead];
    }
  }

  /**
   * `trim` removes exactly the leading and the trailing run of `/`: with
   * `lead` the length of the leading run, each position of `s` is either
   * in the result, at the same offset, or a `/` outside it.
   */
  lemma {:induction false} TrimSlashesRemovesOnlySlashes(s: string, i: nat)
    requires i < |s|
    ensures var r := TrimSlashes(s);
      var lead := |s| - |TrimLeft(s)|;
      && lead + |r| <= |s|
      && (lead <= i < lead + |r| ==> r[i - lead] == s[i])
      && (i < lead || lead + |r| <= i ==> s[i] == '/')
  {
    TrimmedMiddle(s, TrimLeft(s), TrimSlashes(s), i);
  }

  /** `explode("/", $s)`: at least one segment, none containing `/`. */
  function Explode(s: string): (parts: seq<string>)
    ensures |parts| >= 1
    ensures forall i :: 0 <= i < |parts| ==> '/' !in parts[i]
  {
    if s == [] then [""]
    else
      var rest := Explode(s[1..]);
      if s[0] == '/' then [""] + rest else [[s[0]] + rest[0]] + rest[1..]
  }

  /** `implode("/", $parts)`. */
  function Implode(parts: seq<string>): string
  {
    if parts == [] then ""
    else parts[0] + (if |parts| == 1 then "" else "/" + Implode(parts[1..]))
  }

  /** Splitting on `/` and joining with `/` gives the string back. */
  lemma {:induction false} ImplodeExplode(s: string)
    ensures Implode(Explode(s)) == s
  {
    if s != [] {
      var rest := Explode(s[1..]);
      ImplodeExplode(s[1..]);
      if s[0] == '/' {
        assert ([""] + rest)[1..] == rest;
      } else {
        var parts := [[s[0]] + rest[0]] + rest[1..];
        assert parts[1..] == rest[1..];
        assert s == [s[0]] + s[1..];
      }
    }
  }

  /** Joining all segments is joining all but the last, a `/`, and the last. */
  lemma {:induction false} ImplodeDropLast(parts: seq<string>)
    requires |parts| >= 2
    ensures Implode(parts) == Implode(parts[..|parts| - 1]) + "/" + parts[|parts| - 1]
  {
    if |parts| > 2 {
      ImplodeDropLast(parts[1..]);
      assert parts[1..][..|parts| - 2] == parts[..|parts| - 1][1..];
    } else {
      assert parts[..1] == [parts[0]];
    }
  }

  /**
   * `getCurrentUrl` for the `HTTP_HOST` and `REQUEST_URI` server variables;
   * CurrentUrlShape states how it relates to the trimmed path.
   */
  function CurrentUrl(host: string, uri: string): (url: string)
    ensures url == [] || url[0] != '/'
  {
    var t := TrimSlashes(UrlPath(host + uri));
    DropNumericTailShape(t);
    DropNumericTail(t)
  }

  /** The trimmed path split on `/`, a numeric last segment dropped, and joined again. */
  function DropNumericTail(t: string): string
  {
    var parts := Explode(t);
    if IsNumeric(parts[|parts| - 1]) then Implode(parts[..|parts| - 1]) else Implode(parts)
  }

  /** The last `/`-separated segment of the trimmed path `t`. */
  function LastSegment(t: string): string
  {
    var parts := Explode(t);
    parts[|parts| - 1]
  }

  /**
   * With `t` the trimmed path: a non-numeric last segment leaves `t` as it
   * is; a numeric one is removed together with the `/` before it (or leaves
   * "" when it is the only segment). The result has no leading `/`.
   */
  lemma {:induction false} CurrentUrlShape(host: string, uri: string)
    ensures var t := TrimSlashes(UrlPath(host + uri));
      var url := CurrentUrl(host, uri);
      var last := LastSegment(t);
      && '/' !in last
      && (!IsNumeric(last) ==> url == t)
      && (IsNumeric(last) ==> (t == last && url == "") || t == url + "/" + last)
      && url <= t
      && (url == "" || url[0] != '/')
  {
    var t := TrimSlashes(UrlPath(host + uri));
    assert CurrentUrl(host, uri) == DropNumericTail(t);
    DropNumericTailShape(t);
  }

  /** The segment rule on the trimmed path `t` alone. */
  lemma {:induction false} DropNumericTailShape(t: string)
    ensures var last := LastSegment(t);
      var u := DropNumericTail(t);
      && '/' !in last
      && (!IsNumeric(last) ==> u == t)
      && (IsNumeric(last) ==> (t == last && u == "") || t == u + "/" + last)
      && u <= t
      && (t == [] || t[0] != '/' ==> u == [] || u[0] != '/')
  {
    ImplodeExplode(t);
    DropLastSegment(t);
  }

  /** Dropping the last segment of `t` leaves the part before its last `/`, or "" when there is none. */
  lemma {:induction false} DropLastSegment(t: string)
    ensures var parts := Explode(t);
      var last := parts[|parts| - 1];
      var rest := Implode(parts[..|parts| - 1]);
      && '/' !in last
      && ((t == last && rest == "") || t == rest + "/" + last)
      && rest <= t
  {
    var parts := Explode(t);
    ImplodeExplode(t);
    if |parts| >= 2 {
      ImplodeDropLast(parts);
    } else {
      assert parts[..0] == [];
    }
  }

  /** `skipVerificationFor`: some value of the skip list loosely equals the normalised path (`in_array`). */
  predicate SkipVerificationFor(url: string, skipList: map<string, Value>)
    ensures (exists k :: k in skipList && skipList[k] == Str(url)) ==> SkipVerificationFor(url, skipList)
    ensures skipList == map[] ==> !SkipVerificationFor(url, skipList)
  {
    exists k :: k in skipList && LooseEqualsString(skipList[k], url)
  }

  /**
   * For a skip list of strings and a path with a character other than a
   * digit, the loose `in_array` is exact membership.
   */
  lemma SkipListExactForNonNumericPaths(url: string, skipList: map<string, Value>, i: nat)
    requires i < |url| && !IsDigit(url[i])
    requires forall k :: k in skipList ==> skipList[k].Str?
    ensures SkipVerificationFor(url, skipList) <==> exists k :: k in skipList && skipList[k] == Str(url)
  {
    assert !IsNumeric(url);
  }

  /** A `true` in the skip list matches every path except "" and "0", so every such request skips the check. */
  lemma TrueInSkipListSkipsAll(url: string, skipList: map<string, Value>, k: string)
    requires k in skipList && skipList[k] == Bool(true) && NonEmptyString(url)
    ensures SkipVerificationFor(url, skipList)
  {
  }

  /** For a non-empty host without `/`, `?` or `#` and a request URI starting with `/`, the path is the URI up to its query. */
  lemma {:induction false} UrlPathOfRequest(host: string, uri: string)
    requires host != [] && '/' !in host && '?' !in host && '#' !in host
    requires uri != [] && uri[0] == '/'
    ensures UrlPath(host + uri) == UpToQuery(uri)
  {
    AfterAuthorityOfHost(host, uri);
  }

  lemma {:induction false} AfterAuthorityOfHost(host: string, uri: string)
    requires '/' !in host && '?' !in host && '#' !in host
    requires uri != [] && uri[0] == '/'
    ensures AfterAuthority(host + uri) == uri
  {
    if host != [] {
      assert (host + uri)[1..] == host[1..] + uri;
      AfterAuthorityOfHost(host[1..], uri);
    }
  }

  lemma {:induction false} UpToQueryWithoutQuery(s: string)
    requires '?' !in s && '#' !in s
    ensures UpToQuery(s) == s
  {
    if s != [] {
      UpToQueryWithoutQuery(s[1..]);
      assert s == [s[0]] + s[1..];
    }
  }

  /** Splitting `a/b` gives the segments of `a` followed by those of `b`. */
  lemma {:induction false} ExplodeConcat(a: string, b: string)
    ensures Explode(a + "/" + b) == Explode(a) + Explode(b)
  {
    if a == [] {
      assert a + "/" + b == "/" + b;
      assert ("/" + b)[1..] == b;
    } else {
      assert (a + "/" + b)[1..] == a[1..] + "/" + b;
      ExplodeConcat(a[1..], b);
    }
  }

  lemma {:induction false} ExplodeSegment(s: string)
    requires '/' !in s
    ensures Explode(s) == [s]
  {
    if s != [] {
      ExplodeSegment(s[1..]);
      assert s == [s[0]] + s[1..];
    }
  }

  lemma {:induction false} NoQueryInPath(a: string, last: string)
    requires '?' !in a && '#' !in a && '?' !in last && '#' !in last
    ensures '?' !in "/" + (a + "/" + last) && '#' !in "/" + (a + "/" + last)
  {
  }

  lemma {:induction false} TrimSlashesOfPath(x: string)
    requires x != [] && x[0] != '/' && x[|x| - 1] != '/'
    ensures TrimSlashes("/" + x) == x
  {
    assert ("/" + x)[1..] == x;
    assert TrimLeft("/" + x) == x;
  }

  /** The trimmed path of `<host>/<a>/<last>` for a host and segments as browsers send them. */
  lemma {:induction false} TrimmedPathOf(host: string, a: string, last: string)
    requires host != [] && '/' !in host && '?' !in host && '#' !in host
    requires a != [] && a[0] != '/' && '?' !in a && '#' !in a
    requires last != [] && '/' !in last && '?' !in last && '#' !in last
    ensures Explode(TrimSlashes(UrlPath(host + ("/" + a + "/" + last)))) == Explode(a) + [last]
  {
    var x := a + "/" + last;
    var uri := "/" + x;
    assert uri == "/" + a + "/" + last;
    NoQueryInPath(a, last);
    UrlPathOfRequest(host, uri);
    UpToQueryWithoutQuery(uri);
    assert x[0] == a[0] && x[|x| - 1] == last[|last| - 1];
    TrimSlashesOfPath(x);
    ExplodeConcat(a, last);
    ExplodeSegment(last);
  }

  /** `/<a>/<n>` with a numeric last segment `n` normalises to `a`: `/blog/42` becomes `blog`. */
  lemma {:induction false} CurrentUrlDropsNumericTail(host: string, a: string, n: string)
    requires host != [] && '/' !in host && '?' !in host && '#' !in host
    requires a != [] && a[0] != '/' && '?' !in a && '#' !in a
    requires IsNumeric(n)
    ensures CurrentUrl(host, "/" + a + "/" + n) == a
  {
    assert '/' !in n && '?' !in n && '#' !in n;
    TrimmedPathOf(host, a, n);
    var parts := Explode(a) + [n];
    assert parts[..|parts| - 1] == Explode(a);
    ImplodeExplode(a);
  }

  /** `/<a>/<s>` with a non-numeric last segment `s` keeps it: `/blog/my-post` becomes `blog/my-post`. */
  lemma {:induction false} CurrentUrlKeepsSlugTail(host: string, a: string, s: string)
    requires host != [] && '/' !in host && '?' !in host && '#' !in host
    requires a != [] && a[0] != '/' && '?' !in a && '#' !in a
    requires s != [] && '/' !in s && '?' !in s && '#' !in s && !IsNumeric(s)
    ensures CurrentUrl(host, "/" + a + "/" + s) == a + "/" + s
  {
    TrimmedPathOf(host, a, s);
    ExplodeConcat(a, s);
    ExplodeSegment(s);
    ImplodeExplode(a + "/" + s);
  }

  /**
   * Without a `Host` header (or with an empty one) `parse_url` fails on
   * `https://<uri>`, so the normalised path is "" whatever the URI.
   */
  lemma {:induction false} MissingHostGivesEmptyUrl(uri: string)
    ensures uri == [] || uri[0] in {'/', '?', '#'} ==> CurrentUrl("", uri) == ""
  {
    assert "" + uri == uri;
    assert uri == [] || uri[0] in {'/', '?', '#'} ==> UrlPath(uri) == [];
    assert TrimSlashes([]) == [];
    assert Explode([]) == [""];
    assert !IsNumeric("");
  }

  /** `/blog/42` normalises to `blog`, so a skip list holding `blog` exempts it. */
  lemma CurrentUrlNumericExample(uri: string, skipList: map<string, Value>)
    requires uri == "/blog/42" && skipList == map["0" := Str("blog")]
    ensures CurrentUrl("example.com", uri) == "blog"
    ensures SkipVerificationFor(CurrentUrl("example.com", uri), skipList)
  {
    assert uri == "/" + "blog" + "/" + "42";
    assert IsNumeric("42");
    CurrentUrlDropsNumericTail("example.com", "blog", "42");
    assert skipList["0"] == Str("blog");
  }
}
