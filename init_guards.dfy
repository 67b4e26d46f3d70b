/**
 * The checks `init` makes on the configuration: the library may be set up
 * only once, and the required keys must be present and not empty.
 */
module InitGuards {
  import opened PhpValues

  /** Keys without which the protector refuses to start, in the order they are reported. */
  const RequiredConfigurations: seq<string> := ["logDirectory", "failedAuthAction", "tokenLength"]

  /** A configuration already holds entries (`count > 0`), so `init` ran before: a second call must fail. */
  predicate AlreadyInitialized(config: map<string, Value>)
    ensures AlreadyInitialized(config) <==> exists k :: k in config
  {
    |config| > 0
  }

  /** The key is unset, null, or exactly the empty string (`=== ''`: "0", false and an empty array pass). */
  predicate IsMissing(config: map<string, Value>, key: string)
    ensures !IsMissing(config, key) <==> key in config && config[key] != Null && config[key] != Str("")
  {
    !IsSet(config, key) || config[key] == Str("")
  }

  /** The keys of `keys` that are missing, in order: a key is reported iff it is one of `keys` and missing. */
  function MissingKeys(config: map<string, Value>, keys: seq<string>): (r: seq<string>)
    ensures |r| <= |keys|
    ensures forall k :: k in r <==> k in keys && IsMissing(config, k)
    ensures r == [] <==> forall k :: k in keys ==> !IsMissing(config, k)
  {
    if keys == [] then []
    else
      var last := keys[|keys| - 1];
      assert keys == keys[..|keys| - 1] + [last];
      MissingKeys(config, keys[..|keys| - 1]) + (if IsMissing(config, last) then [last] else [])
  }

  /** The loop collecting the missing required keys. */
  method MissingConfiguration(config: map<string, Value>) returns (missing: seq<string>)
    ensures missing == MissingKeys(config, RequiredConfigurations)
  {
    missing := [];
    var i := 0;
    while i < |RequiredConfigurations|
      invariant 0 <= i <= |RequiredConfigurations|
      invariant missing == MissingKeys(config, RequiredConfigurations[..i])
    {
      var key := RequiredConfigurations[i];
      if !IsSet(config, key) || config[key] == Str("") {
        missing := missing + [key];
      }
      assert RequiredConfigurations[..i + 1][..i] == RequiredConfigurations[..i];
      i := i + 1;
    }
    assert RequiredConfigurations[..i] == RequiredConfigurations;
  }

  /** A configuration holding all three required keys with non-empty values passes. */
  lemma CompleteConfigurationPasses(config: map<string, Value>)
    requires forall k :: k in RequiredConfigurations ==> !IsMissing(config, k)
    ensures MissingKeys(config, RequiredConfigurations) == []
  {
  }
}
