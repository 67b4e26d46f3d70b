/**
 * `csrfpCookieConfig`: the attributes passed to `setcookie` for the token
 * cookie, filled from the optional `cookieConfig` entry of the configuration.
 */
module CookieConfigs {
  import opened PhpValues

  /** Cookie lifetime in seconds when nothing truthy is configured (30 minutes). */
  const DefaultExpire: int := 1800

  class CookieConfig {
    var path: Value
    var domain: Value
    var secure: bool
    var expire: int
    var httpOnly: bool

    /** The attributes read from `cfg`, field by field, as the constructor fills them. */
    predicate FilledFrom(cfg: Value)
      reads this
    {
      && path == (if IsSet(Entries(cfg), "path") then Entries(cfg)["path"] else Str(""))
      && domain == (if IsSet(Entries(cfg), "domain") then Entries(cfg)["domain"] else Str(""))
      && (secure <==> IsSet(Entries(cfg), "secure") && Truthy(Entries(cfg)["secure"]))
      && expire == (if Truthy(Get(Entries(cfg), "expire")) then IntVal(Entries(cfg)["expire"]) else DefaultExpire)
      && (httpOnly <==> Truthy(Get(Entries(cfg), "httpOnly")))
    }

    /**
     * Starts from the defaults and overrides one field per key of `cfg`:
     * `path` and `domain` whenever the key is set, `secure` as the boolean
     * cast whenever set, `expire` and `httpOnly` only when set AND truthy.
     * A null or non-array `cfg` has no keys, so every default stays.
     */
    constructor (cfg: Value)
      ensures path == (if IsSet(Entries(cfg), "path") then Entries(cfg)["path"] else Str(""))
      ensures domain == (if IsSet(Entries(cfg), "domain") then Entries(cfg)["domain"] else Str(""))
      ensures secure <==> IsSet(Entries(cfg), "secure") && Truthy(Entries(cfg)["secure"])
      ensures expire == (if Truthy(Get(Entries(cfg), "expire")) then IntVal(Entries(cfg)["expire"]) else DefaultExpire)
      ensures httpOnly <==> Truthy(Get(Entries(cfg), "httpOnly"))
      ensures FilledFrom(cfg)
    {
      path := Str("");
      domain := Str("");
      secure := false;
      expire := DefaultExpire;
      httpOnly := false;
      if cfg != Null {
        var m := Entries(cfg);
        if IsSet(m, "path") {
          path := m["path"];
        }
        if IsSet(m, "domain") {
          domain := m["domain"];
        }
        if IsSet(m, "secure") {
          secure := Truthy(m["secure"]);
        }
        if IsSet(m, "expire") && Truthy(m["expire"]) {
          expire := IntVal(m["expire"]);
        }
        if IsSet(m, "httpOnly") && Truthy(m["httpOnly"]) {
          httpOnly := Truthy(m["httpOnly"]);
        }
      }
    }
  }

  /** The expiry handed to `setcookie`: a session cookie (0) for -1, else `now + expire`. */
  function CookieExpiry(expire: int, now: int): (at: int)
    ensures expire == -1 ==> at == 0
    ensures expire != -1 ==> at - now == expire
  {
    if expire != -1 then now + expire else 0
  }

  /** A client exercising the constructor on the configurations the defaults are about. */
  method CookieConfigExamples()
  {
    var none := new CookieConfig(Null);
    assert none.path == Str("") && none.domain == Str("") && !none.secure;
    assert none.expire == 1800 && !none.httpOnly;

    var zero := new CookieConfig(Arr(map["expire" := Int(0), "secure" := Str("0")]));
    assert zero.expire == 1800 && !zero.secure;

    var custom := new CookieConfig(Arr(map["path" := Str("/app"), "expire" := Str("60"), "httpOnly" := Int(1)]));
    assert LeadingDigits("60") == "60" && DigitsValue("6") == 6;
    assert custom.path == Str("/app") && custom.domain == Str("");
    assert custom.expire == 60 && custom.httpOnly;
  }
}
