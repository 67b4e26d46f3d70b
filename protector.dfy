/**
 * `csrfProtector`: the static state of the library and the request it
 * guards, with the operations that read and change them.
 *
 * The PHP class keeps its state in static properties and works on the
 * superglobals `$_SESSION`, `$_COOKIE`, `$_POST`, `$_GET` and `$_SERVER`.
 * Here one object holds both: the static properties as fields, and the
 * superglobals as maps the methods reassign. `setcookie` calls are recorded
 * in `cookieWrites`; `exit` and thrown exceptions are `Outcome` values.
 */
module Protector {
  import opened Wrappers
  import opened PhpValues
  import opened CookieConfigs
  import opened TokenWindow
  import opened TokenGenerator
  import UrlSkip
  import opened Extraction
  import opened Dispatch
  import opened InitGuards

  /** One `setcookie` call. */
  datatype CookieWrite = CookieWrite(
    name: string, value: string, expires: int,
    path: Value, domain: Value, secure: bool, httpOnly: bool)

  /** How `init` ends: normally, skipped, or with the exception it throws. */
  datatype InitOutcome =
    | Initialized
    | Bypassed                                  // mod_csrfp already enforces protection
    | AlreadyInitializedError                   // alreadyInitializedException
    | ConfigFileNotFound                        // configFileNotFoundException
    | IncompleteConfiguration(missing: seq<string>) // incompleteConfigurationException

  /** What `authorizePost` decides for the request. */
  datatype Verdict =
    | NotChecked      // inactive, not a POST, or a skipped URL
    | HeaderAccepted  // a non-empty token came as a request header
    | TokenAccepted   // the token is in the session window
    | TokenRejected   // anything else: the failure action runs

  /** A token name that loosely equals "" becomes `csrfp_token`. */
  function WithTokenName(config: map<string, Value>): (c: map<string, Value>)
    ensures LooseEqualsEmptyString(Get(config, "CSRFP_TOKEN")) ==> c == config["CSRFP_TOKEN" := Str(DefaultTokenName)]
    ensures !LooseEqualsEmptyString(Get(config, "CSRFP_TOKEN")) ==> c == config
    ensures !LooseEqualsEmptyString(Get(c, "CSRFP_TOKEN"))
  {
    if LooseEqualsEmptyString(Get(config, "CSRFP_TOKEN")) then config["CSRFP_TOKEN" := Str(DefaultTokenName)] else config
  }

  /** A missing `cookieConfig` becomes an empty array. */
  function WithCookieConfig(config: map<string, Value>): (c: map<string, Value>)
    ensures IsSet(config, "cookieConfig") ==> c == config
    ensures !IsSet(config, "cookieConfig") ==> c == config["cookieConfig" := Arr(map[])]
    ensures IsSet(c, "cookieConfig")
    ensures Get(c, "CSRFP_TOKEN") == Get(config, "CSRFP_TOKEN")
  {
    if IsSet(config, "cookieConfig") then config else config["cookieConfig" := Arr(map[])]
  }

  /** The configuration `init` keeps: the loaded array with both defaults applied. */
  function Configured(loaded: map<string, Value>): (c: map<string, Value>)
    ensures Get(c, "CSRFP_TOKEN") ==
      if LooseEqualsEmptyString(Get(loaded, "CSRFP_TOKEN")) then Str(DefaultTokenName) else Get(loaded, "CSRFP_TOKEN")
    ensures Get(c, "cookieConfig") ==
      if IsSet(loaded, "cookieConfig") then loaded["cookieConfig"] else Arr(map[])
    ensures IsSet(c, "cookieConfig")
    ensures !LooseEqualsEmptyString(Get(c, "CSRFP_TOKEN"))
  {
    WithCookieConfig(WithTokenName(loaded))
  }

  /** `init` touches no configuration key besides the token name and `cookieConfig`. */
  lemma ConfiguredKeepsOtherKeys(loaded: map<string, Value>, k: string)
    requires k != "CSRFP_TOKEN" && k != "cookieConfig"
    ensures Get(Configured(loaded), k) == Get(loaded, k)
  {
  }

  /** The configuration after `generateAuthToken`: a `tokenLength` whose intval is 0 becomes 32. */
  function WithDefaultLength(config: map<string, Value>): (c: map<string, Value>)
    ensures IntVal(Get(c, "tokenLength")) == EffectiveLength(Get(config, "tokenLength"))
    ensures forall k :: k != "tokenLength" ==> Get(c, k) == Get(config, k)
  {
    if IntVal(Get(config, "tokenLength")) == 0 then config["tokenLength" := Int(DefaultTokenLength)] else config
  }

  /**
   * `authorizePost`'s decision: unchecked when inactive, not a POST or
   * skipped; a non-empty header token is enough; otherwise the non-empty
   * token must be in the session window.
   */
  function PostVerdict(
    active: bool, requestMethod: string, skipped: bool,
    found: Option<Extracted>, session: Session, name: string
  ): (v: Verdict)
    ensures v == NotChecked <==> !active || requestMethod != "POST" || skipped
    ensures v == HeaderAccepted <==>
      && v != NotChecked
      && found.Some? && found.value.source == ApacheRequestHeaders && NonEmptyString(found.value.token)
    ensures v != NotChecked && found.Some? && found.value.source != ApacheRequestHeaders
      && NonEmptyString(found.value.token) && ValidateToken(session, name, found.value.token).0
      ==> v == TokenAccepted
    ensures v == TokenAccepted ==>
      && found.Some? && found.value.source != ApacheRequestHeaders
      && name in session && session[name].Tokens? && InWindow(session[name].ts, found.value.token)
    ensures v in {HeaderAccepted, TokenAccepted} ==> found.Some? && NonEmptyString(found.value.token)
  {
    if !active || requestMethod != "POST" || skipped then NotChecked
    else if found.Some? && NonEmptyString(found.value.token) && found.value.source == ApacheRequestHeaders then HeaderAccepted
    else if found.Some? && NonEmptyString(found.value.token) && ValidateToken(session, name, found.value.token).0 then TokenAccepted
    else TokenRejected
  }

  /** A non-empty header token is accepted whatever the session holds, even with no window at all. */
  lemma HeaderTokenAcceptedOnPresence(t: string, session: Session, name: string)
    requires NonEmptyString(t)
    ensures PostVerdict(true, "POST", false, Some(Extracted(t, ApacheRequestHeaders)), session, name) == HeaderAccepted
  {
  }

  /** A checked POST whose token is missing, "" or "0" is rejected, wherever it came from. */
  lemma MissingTokenRejected(found: Option<Extracted>, session: Session, name: string)
    requires found.None? || !NonEmptyString(found.value.token)
    ensures PostVerdict(true, "POST", false, found, session, name) == TokenRejected
  {
  }

  /** A POST or server-variable token that matches nothing in the session window is rejected. */
  lemma ForgedPostRejected(found: Option<Extracted>, session: Session, name: string)
    requires found.Some? && found.value.source != ApacheRequestHeaders
    requires name !in session || !session[name].Tokens? || !InWindow(session[name].ts, found.value.token)
    ensures PostVerdict(true, "POST", false, found, session, name) == TokenRejected
  {
  }

  /**
   * Replay across requests: after a POST token `t` is accepted and the
   * window consumed, a token that matched only entries before `t` is
   * rejected when posted again.
   */
  lemma {:induction false} ReplayedOlderTokenRejected(t: string, u: string, src: Source, session: Session, name: string)
    requires src != ApacheRequestHeaders && NonEmptyString(t)
    requires PostVerdict(true, "POST", false, Some(Extracted(t, src)), session, name) == TokenAccepted
    requires InWindow(session[name].ts[..FirstIndex(session[name].ts, t)], u)
    requires !InWindow(session[name].ts[FirstIndex(session[name].ts, t)..], u)
    ensures PostVerdict(true, "POST", false, Some(Extracted(u, src)), ValidateToken(session, name, t).1, name) == TokenRejected
  {
    OlderTokensRejectedAfterUse(session, name, t, u);
  }

  class CsrfProtector {
    // The static properties of csrfProtector.
    var config: map<string, Value>
    var active: bool
    var requestType: string
    var skipList: map<string, Value>
    var tokenHeaderKey: Option<string>
    var cookieConfig: CookieConfig?
    // The request: superglobals, the headers `apache_request_headers`
    // returns (None when the function does not exist), and the cookies set.
    var session: Session
    var cookies: map<string, string>
    var post: map<string, string>
    var get: map<string, string>
    var server: map<string, string>
    var headers: Option<map<string, string>>
    var cookieWrites: seq<CookieWrite>

    /** The library before `init`, on a request with the given superglobals. */
    constructor (
      session: Session, cookies: map<string, string>, post: map<string, string>,
      get: map<string, string>, server: map<string, string>, headers: Option<map<string, string>>)
      ensures config == map[] && active && requestType == "GET" && skipList == map[]
      ensures tokenHeaderKey == None && cookieConfig == null
      ensures this.session == session && this.cookies == cookies && this.post == post
      ensures this.get == get && this.server == server && this.headers == headers
      ensures cookieWrites == []
    {
      config := map[];
      active := true;
      requestType := "GET";
      skipList := map[];
      tokenHeaderKey := None;
      cookieConfig := null;
      this.session := session;
      this.cookies := cookies;
      this.post := post;
      this.get := get;
      this.server := server;
      this.headers := headers;
      cookieWrites := [];
    }

    /** `config['CSRFP_TOKEN']`: the session key, cookie name and field name of the token. */
    function Name(): string
      reads this`config
    {
      KeyOf(Get(config, "CSRFP_TOKEN"))
    }

    /** `$_SERVER[$key]`, "" when absent. */
    function ServerVar(key: string): string
      reads this`server
    {
      if key in server then server[key] else ""
    }

    /**
     * `init`: fails on a second call, does nothing when mod_csrfp is on,
     * fails when no configuration file exists; otherwise loads it.
     */
    method Init(loaded: Option<map<string, Value>>, modCsrfpEnabled: bool) returns (r: InitOutcome)
      modifies this`config, this`skipList, this`active, this`tokenHeaderKey, this`cookieConfig
      ensures AlreadyInitialized(old(config)) ==> r == AlreadyInitializedError && unchanged(this)
      ensures !AlreadyInitialized(old(config)) && modCsrfpEnabled ==> r == Bypassed && unchanged(this)
      ensures !AlreadyInitialized(old(config)) && !modCsrfpEnabled && loaded.None? ==>
        r == ConfigFileNotFound && unchanged(this)
      ensures !AlreadyInitialized(old(config)) && !modCsrfpEnabled && loaded.Some? ==>
        && Loaded(loaded.value, old(skipList), old(active))
        && cookieConfig != null && fresh(cookieConfig)
        && r == (var missing := MissingKeys(config, RequiredConfigurations);
                 if missing == [] then Initialized else IncompleteConfiguration(missing))
    {
      if AlreadyInitialized(config) {
        return AlreadyInitializedError;
      }
      if modCsrfpEnabled {
        return Bypassed;
      }
      if loaded.None? {
        return ConfigFileNotFound;
      }
      Load(loaded.value);
      var missing := MissingConfiguration(config);
      if missing != [] {
        return IncompleteConfiguration(missing);
      }
      r := Initialized;
    }

    /**
     * The state `init` leaves after loading `loaded`: the configuration with
     * its defaults, a skip list taken only from a non-empty array, the active
     * flag only when configured, the header key of the token name and the
     * cookie attributes read from `cookieConfig`.
     */
    predicate Loaded(loaded: map<string, Value>, oldSkipList: map<string, Value>, oldActive: bool)
      reads this, cookieConfig
    {
      && config == Configured(loaded)
      && skipList == (var s := Get(loaded, "skipVerificationFor");
                      if s.Arr? && |s.entries| > 0 then s.entries else oldSkipList)
      && active == (if IsSet(loaded, "active") then Truthy(loaded["active"]) else oldActive)
      && tokenHeaderKey == Some(HeaderKey(Name()))
      && cookieConfig != null && cookieConfig.FilledFrom(config["cookieConfig"])
    }

    /** `init` reads the skip list (a non-empty array only) and the active flag (when set). */
    method ReadSwitches(loaded: map<string, Value>)
      modifies this`skipList, this`active
      ensures skipList == (var s := Get(loaded, "skipVerificationFor");
                           if s.Arr? && |s.entries| > 0 then s.entries else old(skipList))
      ensures active == (if IsSet(loaded, "active") then Truthy(loaded["active"]) else old(active))
    {
      var skip := Get(loaded, "skipVerificationFor");
      if Truthy(skip) && skip.Arr? {
        skipList := skip.entries;
      }
      if IsSet(loaded, "active") {
        active := Truthy(loaded["active"]);
      }
    }

    /** The part of `init` that reads the loaded configuration. */
    method Load(loaded: map<string, Value>)
      modifies this`config, this`skipList, this`active, this`tokenHeaderKey, this`cookieConfig
      ensures Loaded(loaded, old(skipList), old(active))
      ensures fresh(cookieConfig)
    {
      ReadSwitches(loaded);
      config := WithTokenName(loaded);
      tokenHeaderKey := Some(HeaderKey(Name()));
      config := WithCookieConfig(config);
      var cc := new CookieConfig(config["cookieConfig"]);
      cookieConfig := cc;
    }

    /** `hasToken`: the session window is non-empty and holds the cookie's non-empty value. */
    predicate HasToken()
      reads this`session, this`cookies, this`config
      ensures HasToken() <==>
        Name() in cookies && NonEmptyString(cookies[Name()]) && ValidateToken(session, Name(), cookies[Name()]).0
    {
      HasTokenIn(session, cookies, Name())
    }

    /**
     * `isValidToken`: scans the session window for the token; on the first
     * match shifts off every entry before it and answers true, otherwise
     * leaves the session alone and answers false.
     */
    method IsValidToken(token: string) returns (ok: bool)
      modifies this`session
      ensures (ok, session) == ValidateToken(old(session), Name(), token)
    {
      var name := Name();
      if name !in session || !session[name].Tokens? {
        return false;
      }
      var window := session[name].ts;
      var i := 0;
      while i < |window|
        invariant 0 <= i <= |window|
        invariant forall j :: 0 <= j < i ==> !LooseEqualsStrings(window[j], token)
        invariant session == old(session)
      {
        if LooseEqualsStrings(window[i], token) {
          // The scan runs over a copy of the window while array_shift
          // removes the oldest live entry, one per token before the match.
          var k := 0;
          assert old(session)[name := Tokens(window[k..])] == old(session);
          while k < |window| && !LooseEqualsStrings(window[k], token)
            invariant 0 <= k <= i
            invariant forall j :: 0 <= j < k ==> !LooseEqualsStrings(window[j], token)
            invariant session == old(session)[name := Tokens(window[k..])]
          {
            session := session[name := Tokens(session[name].ts[1..])];
            assert window[k..][1..] == window[k + 1..];
            k := k + 1;
          }
          assert k == FirstIndex(window, token);
          return true;
        }
        i := i + 1;
      }
      return false;
    }

    /**
     * `generateAuthToken`: replaces a `tokenLength` whose intval is 0 with
     * 32, then cuts the 128-character random string to that length.
     */
    method GenerateAuthToken(e: Entropy) returns (token: string)
      requires WellFormed(e)
      modifies this`config
      ensures config == WithDefaultLength(old(config))
      ensures token == Token(e, Get(old(config), "tokenLength"))
    {
      if IntVal(Get(config, "tokenLength")) == 0 {
        config := config["tokenLength" := Int(DefaultTokenLength)];
      }
      var raw: string;
      match e {
        case RandomBytes(bytes) =>
          raw := Bin2Hex(bytes);
        case OpensslBytes(bytes) =>
          raw := Bin2Hex(bytes);
        case MtRand(draws) =>
          raw := MtRandToken(draws);
          forall i | 0 <= i < |raw| ensures raw[i] == MtRandString(draws)[i] {
            MtRandCharOfDraw(raw[i]);
          }
      }
      token := Substr(raw, IntVal(Get(config, "tokenLength")));
    }

    /**
     * `refreshToken`: a new token replaces the whole session window, is
     * sent as a cookie with the configured attributes and is copied into
     * `$_COOKIE` at once, so `hasToken` agrees within the same request.
     */
    method RefreshToken(e: Entropy, now: int) returns (token: string)
      requires WellFormed(e)
      modifies this`config, this`session, this`cookies, this`cookieConfig, this`cookieWrites
      ensures token == Token(e, Get(old(config), "tokenLength"))
      ensures Name() == old(Name())
      ensures session == old(session)[Name() := Tokens([token])]
      ensures cookies == old(cookies)[Name() := token]
      ensures HasToken() <==> NonEmptyString(token)
      ensures old(cookieConfig) != null ==> cookieConfig == old(cookieConfig)
      ensures old(cookieConfig) == null ==> cookieConfig != null && fresh(cookieConfig)
      ensures config == (var c := WithDefaultLength(old(config));
                         if old(cookieConfig) == null then WithCookieConfig(c) else c)
      ensures old(cookieConfig) == null ==> cookieConfig.FilledFrom(config["cookieConfig"])
      ensures cookieConfig != null && cookieWrites == old(cookieWrites) + [CookieWrite(
        Name(), token, CookieExpiry(cookieConfig.expire, now),
        cookieConfig.path, cookieConfig.domain, cookieConfig.secure, cookieConfig.httpOnly)]
    {
      token := GenerateAuthToken(e);
      var name := Name();
      StartWindow(name, token);
      EnsureCookieConfig();
      SetCookie(name, token, now);
      cookies := cookies[name := token];
      HasTokenAfterRefresh(old(session), old(cookies), name, token);
    }

    /** `refreshToken` empties the session window, then pushes the new token. */
    method StartWindow(name: string, token: string)
      modifies this`session
      ensures session == old(session)[name := Tokens([token])]
    {
      session := session[name := Tokens([])];
      session := session[name := Tokens(session[name].ts + [token])];
      assert session[name].ts == [token];
    }

    /** The `setcookie` call of `refreshToken`, with the configured attributes. */
    method SetCookie(name: string, value: string, now: int)
      requires cookieConfig != null
      modifies this`cookieWrites
      ensures cookieWrites == old(cookieWrites) + [CookieWrite(
        name, value, CookieExpiry(cookieConfig.expire, now),
        cookieConfig.path, cookieConfig.domain, cookieConfig.secure, cookieConfig.httpOnly)]
    {
      var expires := if cookieConfig.expire != -1 then now + cookieConfig.expire else 0;
      cookieWrites := cookieWrites + [CookieWrite(
        name, value, expires,
        cookieConfig.path, cookieConfig.domain, cookieConfig.secure, cookieConfig.httpOnly)];
    }

    /** The lazy creation of the cookie attributes in `refreshToken`. */
    method EnsureCookieConfig()
      modifies this`config, this`cookieConfig
      ensures cookieConfig != null
      ensures Name() == old(Name())
      ensures old(cookieConfig) != null ==> cookieConfig == old(cookieConfig) && config == old(config)
      ensures old(cookieConfig) == null ==>
        && config == WithCookieConfig(old(config))
        && fresh(cookieConfig) && cookieConfig.FilledFrom(config["cookieConfig"])
    {
      if cookieConfig == null {
        config := WithCookieConfig(config);
        cookieConfig := new CookieConfig(config["cookieConfig"]);
      }
    }

    /** `getTokenFromRequest` on this request. */
    function GetTokenFromRequest(): (r: Option<Extracted>)
      reads this`headers, this`post, this`server, this`config, this`tokenHeaderKey
      ensures r.None? <==>
        && !(headers.Some? && Name() in headers.value)
        && Name() !in post
        && !(tokenHeaderKey.Some? && tokenHeaderKey.value in server)
      ensures r.Some? && r.value.source == PostPayload ==> Name() in post && r.value.token == post[Name()]
    {
      Extract(headers, post, server, Name(), tokenHeaderKey)
    }

    /** `unsetTokenFromRequest`: the token field leaves `$_POST`. */
    method UnsetTokenFromRequest()
      modifies this`post
      ensures post == old(post) - {Name()}
      ensures Name() !in post
    {
      if Name() in post {
        post := post - {Name()};
      }
    }

    /** `skipVerificationFor` on this request's `HTTP_HOST` and `REQUEST_URI`. */
    predicate SkipVerificationFor()
      reads this`server, this`skipList
      ensures ServerVar("HTTP_HOST") == "" && (ServerVar("REQUEST_URI") == "" || ServerVar("REQUEST_URI")[0] in {'/', '?', '#'})
        ==> (SkipVerificationFor() <==> UrlSkip.SkipVerificationFor("", skipList))
    {
      UrlSkip.MissingHostGivesEmptyUrl(ServerVar("REQUEST_URI"));
      UrlSkip.SkipVerificationFor(UrlSkip.CurrentUrl(ServerVar("HTTP_HOST"), ServerVar("REQUEST_URI")), skipList)
    }

    /** `failedValidationAction` with the corrected switch; logging is not modelled. */
    method FailedValidationAction() returns (outcome: Outcome)
      modifies this`get, this`post
      ensures (outcome, get, post) == FailedValidation(active, config, requestType, ServerVar("SERVER_PROTOCOL"), old(get), old(post))
    {
      if !active {
        return Continue;
      }
      match Switch(ConfiguredAction(config, requestType), CorrectedCases) {
        case Err(name) =>
          outcome := Raised(UndefinedConstant(name));
        case Ok(branch) =>
          if branch == ClearParametersBranch || branch == DefaultBranch {
            if requestType == "GET" {
              get := map[];
            } else {
              post := map[];
            }
            outcome := Continue;
          } else {
            outcome := BranchOutcome(branch, config, ServerVar("SERVER_PROTOCOL"));
          }
      }
    }

    /** The verdict `authorizePost` reaches on the current state. */
    function Verdict(): (v: Verdict)
      reads this`active, this`server, this`skipList, this`headers, this`post, this`config, this`tokenHeaderKey, this`session
      ensures v == NotChecked <==> !active || ServerVar("REQUEST_METHOD") != "POST" || SkipVerificationFor()
    {
      PostVerdict(active, ServerVar("REQUEST_METHOD"), SkipVerificationFor(), GetTokenFromRequest(), session, Name())
    }

    /**
     * `authorizePost`: on a checked POST, accepts a header token on
     * presence, otherwise validates the token against the session window and
     * runs the failure action when that fails; the token field is removed
     * from `$_POST` on every path that does not end the request.
     */
    method AuthorizePost() returns (outcome: Outcome)
      modifies this`requestType, this`session, this`post, this`get
      ensures old(Verdict()) == NotChecked ==>
        outcome == Continue && requestType == old(requestType) && session == old(session)
        && post == old(post) && get == old(get)
      ensures old(Verdict()) != NotChecked ==>
        requestType == "POST" && Checked(old(Verdict()), old(GetTokenFromRequest()), old(session), old(post), old(get), outcome)
    {
      if !active {
        return Continue;
      }
      if ServerVar("REQUEST_METHOD") != "POST" {
        return Continue;
      }
      if SkipVerificationFor() {
        return Continue;
      }
      requestType := "POST";
      outcome := CheckPost(GetTokenFromRequest());
    }

    /**
     * What a checked POST leaves behind for verdict `v` on the token `found`:
     * an accepted request continues with the token field gone from `$_POST`
     * (and, for a session token, the window consumed up to it); a rejected
     * one gets the failure action's outcome and parameters, the token field
     * also gone when that action lets the request continue.
     */
    predicate Checked(
      v: Verdict, found: Option<Extracted>,
      oldSession: Session, oldPost: map<string, string>, oldGet: map<string, string>,
      outcome: Outcome)
      reads this`session, this`post, this`get, this`config, this`active, this`server
    {
      match v
      case NotChecked => false
      case HeaderAccepted =>
        outcome == Continue && session == oldSession && post == oldPost - {Name()} && get == oldGet
      case TokenAccepted =>
        && found.Some?
        && outcome == Continue && session == ValidateToken(oldSession, Name(), found.value.token).1
        && post == oldPost - {Name()} && get == oldGet
      case TokenRejected =>
        var failure := FailedValidation(active, config, "POST", ServerVar("SERVER_PROTOCOL"), oldGet, oldPost);
        && session == oldSession
        && outcome == failure.0 && get == failure.1
        && post == (if failure.0 == Continue then failure.2 - {Name()} else failure.2)
    }

    /** The checks `authorizePost` makes on a POST it does not skip. */
    method CheckPost(found: Option<Extracted>) returns (outcome: Outcome)
      requires requestType == "POST"
      modifies this`session, this`post, this`get
      ensures PostVerdict(true, "POST", false, found, old(session), Name()) != NotChecked
      ensures Checked(PostVerdict(true, "POST", false, found, old(session), Name()), found, old(session), old(post), old(get), outcome)
    {
      ghost var v := PostVerdict(true, "POST", false, found, session, Name());
      var token: Option<string> := if found.Some? && NonEmptyString(found.value.token) then Some(found.value.token) else None;
      if found.Some? && found.value.source == ApacheRequestHeaders && token.Some? {
        assert v == HeaderAccepted;
        UnsetTokenFromRequest();
        return Continue;
      }
      assert v == (if token.Some? && ValidateToken(session, Name(), token.value).0 then TokenAccepted else TokenRejected);
      outcome := CheckSessionToken(token);
    }

    /**
     * The session-window part of `authorizePost`: a valid token consumes
     * the window; an absent or unknown one runs the failure action; the
     * token field leaves `$_POST` unless the request ends.
     */
    method CheckSessionToken(token: Option<string>) returns (outcome: Outcome)
      requires requestType == "POST"
      modifies this`session, this`post, this`get
      ensures token.Some? && ValidateToken(old(session), Name(), token.value).0 ==>
        && outcome == Continue && session == ValidateToken(old(session), Name(), token.value).1
        && post == old(post) - {Name()} && get == old(get)
      ensures !(token.Some? && ValidateToken(old(session), Name(), token.value).0) ==>
        var failure := FailedValidation(active, config, "POST", ServerVar("SERVER_PROTOCOL"), old(get), old(post));
        && session == old(session)
        && outcome == failure.0 && get == failure.1
        && post == (if failure.0 == Continue then failure.2 - {Name()} else failure.2)
    {
      var valid := false;
      if token.Some? && Name() in session {
        valid := IsValidToken(token.value);
      }
      if !valid {
        outcome := FailedValidationAction();
        if outcome != Continue {
          return outcome;
        }
      }
      UnsetTokenFromRequest();
      outcome := Continue;
    }
  }
}
