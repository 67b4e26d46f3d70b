/**
 * The token window: the ordered list of still-valid tokens the session holds
 * under the token name, oldest first, and the cookie that mirrors it.
 *
 * Tokens are compared with PHP's `==` (`$value == $token` and `in_array`),
 * so two numeric strings match when their values agree.
 */
module TokenWindow {
  import opened Wrappers
  import opened PhpValues

  /** What the session holds under the token name when the key is present. */
  datatype SessionEntry = NonArray | Tokens(ts: seq<string>)

  type Session = map<string, SessionEntry>

  /** `in_array($t, $w)`: some entry of the window loosely equals `t`. */
  predicate InWindow(w: seq<string>, t: string)
  {
    exists i :: 0 <= i < |w| && LooseEqualsStrings(w[i], t)
  }

  /** Position of the first entry that loosely equals `t`. */
  function FirstIndex(w: seq<string>, t: string): (i: nat)
    requires InWindow(w, t)
    ensures i < |w| && LooseEqualsStrings(w[i], t)
    ensures forall j :: 0 <= j < i ==> !LooseEqualsStrings(w[j], t)
  {
    if LooseEqualsStrings(w[0], t) then 0
    else
      var k :| 0 <= k < |w| && LooseEqualsStrings(w[k], t);
      assert w[1..][k - 1] == w[k];
      1 + FirstIndex(w[1..], t)
  }

  /**
   * The window after validating `t`: None when nothing matches `t`,
   * otherwise the window with exactly the entries before the first match
   * dropped; the match and everything after it stay, in order.
   */
  function Consume(w: seq<string>, t: string): (r: Option<seq<string>>)
    ensures r.Some? <==> InWindow(w, t)
    ensures r.Some? ==> 0 < |r.value| <= |w| && LooseEqualsStrings(r.value[0], t)
    ensures r.Some? ==> w == w[..|w| - |r.value|] + r.value && !InWindow(w[..|w| - |r.value|], t)
  {
    if InWindow(w, t) then
      var i := FirstIndex(w, t);
      assert w == w[..i] + w[i..];
      Some(w[i..])
    else None
  }

  /**
   * `isValidToken` on the whole session: false and no change when the entry
   * is missing, not an array or matches nothing; otherwise true with the
   * entry pruned by Consume.
   */
  function ValidateToken(session: Session, name: string, t: string): (r: (bool, Session))
    ensures r.0 <==> name in session && session[name].Tokens? && InWindow(session[name].ts, t)
    ensures !r.0 ==> r.1 == session
    ensures r.0 ==> r.1 == session[name := Tokens(Consume(session[name].ts, t).value)]
  {
    if name !in session || !session[name].Tokens? then (false, session)
    else match Consume(session[name].ts, t)
      case None => (false, session)
      case Some(rest) => (true, session[name := Tokens(rest)])
  }

  /**
   * `hasToken`: the session entry is a non-empty array, the cookie is set
   * and not empty, and the cookie value matches one of the window's tokens.
   */
  predicate HasTokenIn(session: Session, cookies: map<string, string>, name: string)
    ensures HasTokenIn(session, cookies, name) <==>
      name in cookies && NonEmptyString(cookies[name]) && ValidateToken(session, name, cookies[name]).0
  {
    && name in session
    && session[name].Tokens?
    && |session[name].ts| > 0
    && name in cookies
    && NonEmptyString(cookies[name])
    && InWindow(session[name].ts, cookies[name])
  }

  /** Validating the same token twice in a row: the second time nothing more is dropped. */
  lemma {:induction false} ConsumeIdempotent(w: seq<string>, t: string)
    requires InWindow(w, t)
    ensures Consume(Consume(w, t).value, t) == Consume(w, t)
  {
    var r := Consume(w, t).value;
    assert LooseEqualsStrings(r[0], t);
    assert FirstIndex(r, t) == 0;
  }

  /** A token at or after the first match stays valid once the match is consumed. */
  lemma {:induction false} ConsumeKeepsNewer(w: seq<string>, t: string, k: nat)
    requires InWindow(w, t) && FirstIndex(w, t) <= k < |w|
    ensures w[k] in Consume(w, t).value
  {
    var i := FirstIndex(w, t);
    var rest := w[i..];
    assert Consume(w, t) == Some(rest);
    assert rest[k - i] == w[k];
  }

  /** The window `[a, b, c]`: consuming b leaves `[b, c]`, a leaves it whole, an unmatched d fails. */
  lemma ConsumeExamples(a: string, b: string, c: string, d: string)
    requires !LooseEqualsStrings(a, b) && !LooseEqualsStrings(a, d) && !LooseEqualsStrings(b, d) && !LooseEqualsStrings(c, d)
    ensures Consume([a, b, c], b) == Some([b, c])
    ensures Consume([a, b, c], a) == Some([a, b, c])
    ensures Consume([a, b, c], d) == None
  {
    var w := [a, b, c];
    assert LooseEqualsStrings(w[1], b);
    var i := FirstIndex(w, b);
    assert i == 1;
    assert w[1..] == [b, c];
    assert LooseEqualsStrings(w[0], a);
    assert FirstIndex(w, a) == 0;
    assert w[0..] == w;
    assert !InWindow(w, d);
  }

  /** Right after a refresh to `[t]` with the cookie mirror set to `t`, hasToken holds iff `t` is not "" or "0". */
  lemma HasTokenAfterRefresh(session: Session, cookies: map<string, string>, name: string, t: string)
    ensures HasTokenIn(session[name := Tokens([t])], cookies[name := t], name) <==> NonEmptyString(t)
  {
    assert LooseEqualsStrings([t][0], t);
  }

  /** Validating the cookie's own token never breaks cookie/session agreement. */
  lemma {:induction false} HasTokenKeptByConsumingCookieToken(session: Session, cookies: map<string, string>, name: string)
    requires HasTokenIn(session, cookies, name)
    ensures ValidateToken(session, name, cookies[name]).0
    ensures HasTokenIn(ValidateToken(session, name, cookies[name]).1, cookies, name)
  {
    var rest := Consume(session[name].ts, cookies[name]).value;
    assert LooseEqualsStrings(rest[0], cookies[name]);
  }

  /** A token that matches no entry of the window is rejected and leaves the session as it was. */
  lemma ForgedTokenRejected(session: Session, name: string, t: string)
    requires name in session && session[name].Tokens? && !InWindow(session[name].ts, t)
    ensures ValidateToken(session, name, t) == (false, session)
  {
  }

  /**
   * Replay: a token that matched some entry before `t` was accepted, and
   * matches nothing from `t`'s match on, is rejected once `t` is consumed.
   */
  lemma {:induction false} OlderTokensRejectedAfterUse(session: Session, name: string, t: string, u: string)
    requires name in session && session[name].Tokens? && InWindow(session[name].ts, t)
    requires InWindow(session[name].ts[..FirstIndex(session[name].ts, t)], u)
    requires !InWindow(session[name].ts[FirstIndex(session[name].ts, t)..], u)
    ensures ValidateToken(session, name, t).0 && ValidateToken(session, name, u).0
    ensures !ValidateToken(ValidateToken(session, name, t).1, name, u).0
  {
    var w := session[name].ts;
    var i := FirstIndex(w, t);
    var k :| 0 <= k < i && LooseEqualsStrings(w[..i][k], u);
    assert w[k] == w[..i][k];
    var rest := Consume(w, t).value;
    assert rest == w[i..];
  }
}
