# CSRF-Protector-PHP token core in Dafny

This project models the token lifecycle and request validation of
CSRF-Protector-PHP's static class `csrfProtector`, together with its two small
helper types, `csrfpCookieConfig` and `csrfpAction`. It proves properties of
that model.

`csrfProtector` keeps its state in static properties: the configuration, the
`active` flag, the request type, the skip list, the token header key and the
cookie attributes. It works on the PHP superglobals. The class
`Protector.CsrfProtector` holds both:

- **Static properties** become fields.
- **Superglobals** (`$_SESSION`, `$_COOKIE`, `$_POST`, `$_GET`, `$_SERVER`,
  and the `apache_request_headers()` map) are fields that the methods
  reassign. The headers map is optional, because that function may not exist.
- **`setcookie` calls** are appended to `cookieWrites`.
- **`header`/`exit`** become `Exit` outcomes.
- **A thrown exception or engine error** becomes a `Raised` outcome.

Configuration values are PHP values (`PhpValues.Value`). The PHP operations
the code relies on are written out explicitly:

- `isset`, `empty` / truthiness, `intval`, and array-key casting;
- loose `==` against `''`, an integer or a string, and `in_array`;
- `substr` with a possibly negative length;
- `bin2hex`, `explode`/`implode` and `trim`.

The modules follow the source:

- `CsrfpAction`: the seven action constants.
- `CookieConfigs`: the `csrfpCookieConfig` class and its constructor.
- `TokenWindow`: the session's ordered token window, as `isValidToken` and
  `hasToken` see it.
- `TokenGenerator`: `generateAuthToken`. The random source is an input.
- `UrlSkip`: `getCurrentUrl` and `skipVerificationFor`.
- `Extraction`: the header key and `getTokenFromRequest`.
- `Dispatch`: the `switch` of `failedValidationAction`.
- `InitGuards`: the re-initialisation guard and the required-keys check of `init`.
- `Protector`: the class itself.

`getCurrentUrl` is modelled as the code is written, which differs from its
usual description:

- the path has its slashes trimmed at both ends, so the result has no leading
  `/`;
- the last segment is dropped when it is numeric and kept otherwise. So
  `/blog/42` becomes `blog` and `/blog/my-post` stays `blog/my-post`;
- with an empty or missing `Host`, `parse_url` fails on `https://<uri>`
  and the path it yields is empty, so the result is "".

Token comparison (`$value == $token`, `in_array`) and skip-list membership
(`in_array`) use PHP's loose comparison, as the code does. They are not exact
string equality. For example, `"0123"` matches `"123"`, and a `true` in the
skip list matches every path except `""` and `"0"`.

## Model

| member | source | states |
|---|---|---|
| CsrfpAction.Code | libs/csrf/csrfpAction.php:13-62 | each action has one of the seven codes 0 to 6, at its own position in the list of actions |
| CsrfpAction.ConstantValue | libs/csrf/csrfpAction.php:19-61 | a constant name that evaluates to a value is the declared name of the action at that position among the seven, so the value is a code in 0..6 |
| CsrfpAction.FromCode | libs/csrf/csrfpAction.php:13-62 | an integer denotes an action iff it lies in 0..6, and that action's code is the integer |
| CsrfpAction.ConstantValueOfName | libs/csrf/csrfpAction.php:19-61 | every declared constant evaluates to its own action's code |
| CsrfpAction.CodesDistinct | libs/csrf/csrfpAction.php:19-61 | two actions share a code iff they are the same action, and decoding an action's code gives the action back, so no two switch cases overlap |
| CsrfpAction.TriggerErrorActionUndeclared | libs/csrf/csrfpAction.php:13-62 | no action is declared under the name `TriggerErrorAction`, so evaluating it yields no value |
| CookieConfigs.CookieConfig.constructor | libs/csrf/csrfpCookieConfig.php:20-64 | starting from path '', domain '', secure false, expire 1800 and httpOnly false: path and domain are taken whenever their key is set; secure is the boolean cast whenever set; expire is the int cast only when set and truthy; httpOnly is true iff the value is truthy; a null or non-array config changes nothing |
| CookieConfigs.CookieExpiry | libs/csrf/csrfprotector.php:491 | the expiry passed to setcookie is 0 for an expire of -1, and otherwise lies exactly `expire` seconds after `now` |
| PhpValues.LooseEqualsStringsNonNumeric | libs/csrf/csrfprotector.php:350 | a string with a non-digit character loosely equals another string iff the two are identical |
| PhpValues.LooseEqualsStringsLeadingZero | libs/csrf/csrfprotector.php:350 | "0123" and "123" are different strings that PHP's `==` treats as equal |
| TokenWindow.FirstIndex | libs/csrf/csrfprotector.php:349-350 | the position found holds an entry that loosely equals the token, and no earlier entry does |
| TokenWindow.Consume | libs/csrf/csrfprotector.php:349-358 | there is a result iff some entry matches the token; the result starts with the first match and is a suffix of the window; the dropped prefix holds no match |
| TokenWindow.ValidateToken | libs/csrf/csrfprotector.php:346-362 | validation succeeds iff the session entry is an array with an entry matching the token; on failure the session is unchanged; on success only that entry changes, to the consumed window |
| TokenWindow.HasTokenIn | libs/csrf/csrfprotector.php:446-459 | hasToken holds iff the cookie is set, its value is neither "" nor "0", and that value validates against the session window |
| TokenWindow.ConsumeIdempotent | libs/csrf/csrfprotector.php:352-356 | validating the same token a second time drops nothing more |
| TokenWindow.ConsumeKeepsNewer | libs/csrf/csrfprotector.php:352-356 | every entry at or after the first match survives the pruning |
| TokenWindow.ConsumeExamples | libs/csrf/csrfprotector.php:346-362 | in the window [a, b, c], validating b leaves [b, c], validating a leaves the window whole, and an unmatched d fails |
| TokenWindow.HasTokenAfterRefresh | libs/csrf/csrfprotector.php:446-459 | with the window reset to [t] and the cookie set to t, hasToken holds iff t is neither "" nor "0" |
| TokenWindow.HasTokenKeptByConsumingCookieToken | libs/csrf/csrfprotector.php:446-459 | when hasToken holds, the cookie's token validates, and hasToken still holds after the window is pruned |
| TokenWindow.ForgedTokenRejected | libs/csrf/csrfprotector.php:346-362 | a token that matches no entry is rejected, and the session is left as it was |
| TokenWindow.OlderTokensRejectedAfterUse | libs/csrf/csrfprotector.php:352-356 | if a token matched only entries before the accepted token, it validated before that acceptance and is rejected after it |
| TokenGenerator.Bin2Hex | libs/csrf/csrfprotector.php:529-532 | the hex text is twice as long as the bytes, and every character is lowercase hex |
| TokenGenerator.Hex2BinOfBin2Hex | libs/csrf/csrfprotector.php:530 | decoding the hex text gives the random bytes back, so no entropy is lost |
| TokenGenerator.MtRandChar | libs/csrf/csrfprotector.php:536-541 | each draw in 0..35 becomes a character in [a-z0-9] |
| TokenGenerator.MtRandDraw | libs/csrf/csrfprotector.php:536-541 | each character in [a-z0-9] comes from a draw in 0..35 |
| TokenGenerator.MtRandDrawOfChar | libs/csrf/csrfprotector.php:536-541 | the character mapping loses no draw: reading a character back gives the draw |
| TokenGenerator.MtRandCharOfDraw | libs/csrf/csrfprotector.php:536-541 | each character in [a-z0-9] is produced by exactly the draw it reads back as |
| TokenGenerator.MtRandString | libs/csrf/csrfprotector.php:533-544 | the fallback string has one character in [a-z0-9] per draw |
| TokenGenerator.MtRandToken | libs/csrf/csrfprotector.php:533-544 | the loop produces one character in [a-z0-9] per draw, and each character reads back as its draw |
| TokenGenerator.RawToken | libs/csrf/csrfprotector.php:529-544 | the untruncated string has 128 characters in [a-z0-9], all lowercase hex when it comes from random bytes |
| TokenGenerator.Substr | libs/csrf/csrfprotector.php:545 | `substr($s, 0, $n)` is a prefix of s; it has min(n, \|s\|) characters for n ≥ 0, and drops \|n\| characters from the end (or all of them) for n < 0 |
| TokenGenerator.EffectiveLength | libs/csrf/csrfprotector.php:523-525 | the length used is 32 when the configured intval is 0, and the configured intval otherwise; it is never 0 |
| TokenGenerator.Token | libs/csrf/csrfprotector.php:517-546 | the token is a prefix of the 128-character raw string, and has exactly 32 characters when the configured length's intval is 0 |
| TokenGenerator.TokenShape | libs/csrf/csrfprotector.php:517-546 | for an effective length L ≥ 1 the token has min(L, 128) characters; a zero or non-numeric tokenLength gives 32; all characters are in [a-z0-9], and hex from a byte source |
| TokenGenerator.LongTokensAreNonEmpty | libs/csrf/csrfprotector.php:545 | a token of two or more characters is never "" or "0", so hasToken can recognise it |
| TokenGenerator.OneCharacterTokenCanBeZero | libs/csrf/csrfprotector.php:545 | with tokenLength 1, a first random byte below 16 yields the token "0", which PHP treats as empty |
| UrlSkip.UpToQuery | libs/csrf/csrfprotector.php:590-591 | the path stops before any `?` or `#` and is a prefix of the input |
| UrlSkip.AfterAuthority | libs/csrf/csrfprotector.php:590-591 | what follows the host is a suffix of the input and either is empty or starts at a `/`, `?` or `#` |
| UrlSkip.AfterAuthorityAtFirstSeparator | libs/csrf/csrfprotector.php:590-591 | the authority ends at the FIRST `/`, `?` or `#`: no character before the returned suffix is one of them |
| UrlSkip.UrlPath | libs/csrf/csrfprotector.php:590-591 | the parsed path is empty or starts with `/`, and holds no `?` or `#` |
| UrlSkip.UrlPathOfRequest | libs/csrf/csrfprotector.php:590-591 | for a non-empty host without `/`, `?` or `#` and a URI starting with `/`, the path is the URI up to its query |
| UrlSkip.TrimLeft | libs/csrf/csrfprotector.php:592 | the result is a suffix of the input, only `/` was removed, and it does not start with `/` |
| UrlSkip.TrimRight | libs/csrf/csrfprotector.php:592 | the result is a prefix of the input, only `/` was removed, and it does not end with `/` |
| UrlSkip.TrimSlashes | libs/csrf/csrfprotector.php:592 | the trimmed path neither starts nor ends with `/` |
| UrlSkip.TrimSlashesRemovesOnlySlashes | libs/csrf/csrfprotector.php:592 | trimming removes exactly the leading and trailing runs of `/`: every position of the input either lies in the result at the same offset past the leading run, or holds a `/` outside it |
| UrlSkip.Explode | libs/csrf/csrfprotector.php:592 | splitting gives at least one segment, and no segment contains `/` |
| UrlSkip.ImplodeExplode | libs/csrf/csrfprotector.php:592-597 | joining the segments with `/` gives the trimmed path back |
| UrlSkip.ImplodeDropLast | libs/csrf/csrfprotector.php:593-597 | with two or more segments, the path is the join of all but the last, then `/`, then the last |
| UrlSkip.DropLastSegment | libs/csrf/csrfprotector.php:593-597 | removing the last segment leaves either "" (for a single segment) or the part before the last `/` |
| UrlSkip.CurrentUrl | libs/csrf/csrfprotector.php:588-599 | the current URL never starts with `/`; CurrentUrlShape relates it to the trimmed path segment by segment |
| UrlSkip.CurrentUrlShape | libs/csrf/csrfprotector.php:588-599 | for the current URL of any host and URI: a non-numeric last segment leaves the trimmed path whole; a numeric one is dropped with the `/` before it (the result is "" when it was the only segment); the result is a prefix of the trimmed path and never starts with `/` |
| UrlSkip.DropNumericTailShape | libs/csrf/csrfprotector.php:593-597 | on a trimmed path t: the last segment has no `/`; a non-numeric one leaves t whole; a numeric one leaves "" or the part of t before its last `/`; the result is a prefix of t and keeps t's lack of a leading `/` |
| UrlSkip.CurrentUrlDropsNumericTail | libs/csrf/csrfprotector.php:588-599 | `/a/<digits>` normalises to `a` |
| UrlSkip.CurrentUrlKeepsSlugTail | libs/csrf/csrfprotector.php:588-599 | `/a/<slug>` normalises to `a/<slug>` when the slug is not numeric |
| UrlSkip.MissingHostGivesEmptyUrl | libs/csrf/csrfprotector.php:589-591 | with an empty host and a URI that is empty or starts with `/`, `?` or `#`, parse_url fails and the current URL is "" |
| UrlSkip.CurrentUrlNumericExample | libs/csrf/csrfprotector.php:588-610 | `/blog/42` normalises to `blog`, so a skip list holding `blog` exempts it |
| UrlSkip.SkipVerificationFor | libs/csrf/csrfprotector.php:601-610 | a path the skip list holds as a string is skipped, and an empty skip list skips nothing |
| UrlSkip.SkipListExactForNonNumericPaths | libs/csrf/csrfprotector.php:601-610 | for a skip list of strings and a path with a non-digit character, the request is skipped iff the skip list holds exactly that path |
| UrlSkip.TrueInSkipListSkipsAll | libs/csrf/csrfprotector.php:601-610 | a `true` in the skip list exempts every path that is neither "" nor "0", because `in_array` compares loosely |
| Extraction.HeaderChar | libs/csrf/csrfprotector.php:173-174 | `-` becomes `_`, a lowercase ASCII letter becomes its uppercase letter, and every other character is unchanged |
| Extraction.HeaderKey | libs/csrf/csrfprotector.php:173-174 | the key is `HTTP_` followed by HeaderChar of each name character, in order, so no `-` and no lowercase letter follows the prefix |
| Extraction.HeaderKeyCollisions | libs/csrf/csrfprotector.php:173-174 | two names share one server variable iff they have the same length and agree character by character up to letter case and `-` against `_` |
| Extraction.Extract | libs/csrf/csrfprotector.php:294-316 | a result carries the value of the source it names; there is no result iff no header, no POST field and no server variable under the header key holds the token; server variables are not consulted before the header key exists |
| Extraction.ExtractPriority | libs/csrf/csrfprotector.php:294-316 | a header token wins whatever POST and server hold, and a POST token wins whatever server holds |
| Dispatch.Switch | libs/csrf/csrfprotector.php:387-433 | the switch raises only on a case label that names no declared constant |
| Dispatch.SwitchSelectsFirstMatch | libs/csrf/csrfprotector.php:387-433 | when every label is declared, the switch never raises; it takes the first matching case, or the default when none matches |
| Dispatch.SwitchReachesCase | libs/csrf/csrfprotector.php:387-433 | the switch takes case k when case k matches and every earlier label is declared and does not match |
| Dispatch.SwitchBranchFromMatchingCase | libs/csrf/csrfprotector.php:387-433 | any branch other than the default is the branch of a case whose label matches |
| Dispatch.WrittenSwitchAlwaysRaises | libs/csrf/csrfprotector.php:387-388 | as written, the switch raises an undefined-constant error for `TriggerErrorAction`, whatever the configured value |
| Dispatch.CorrectedCaseAt | libs/csrf/csrfprotector.php:391-424 | after the first label, each case names one action in source order, and its label evaluates to that action's code |
| Dispatch.CorrectedSwitchSelectsAction | libs/csrf/csrfprotector.php:391-424 | without the undeclared label, each action's code takes that action's branch |
| Dispatch.CorrectedSwitchNeverRaises | libs/csrf/csrfprotector.php:391-433 | without the undeclared label, the switch never raises, whatever the configured value |
| Dispatch.CorrectedSwitchDefault | libs/csrf/csrfprotector.php:425-432 | without the undeclared label, an integer that is no action's code takes the default branch |
| Dispatch.FailedValidationWith | libs/csrf/csrfprotector.php:377-434 | an inactive protector continues with nothing changed; a request that ends changes neither GET nor POST; GET can only be emptied, and only for a GET request; POST can only be emptied, and only for another request type |
| Dispatch.FailedValidation | libs/csrf/csrfprotector.php:377-434 | the same as FailedValidationWith, and with the corrected switch no undefined-constant error is raised |
| Dispatch.FailedValidationAsWrittenRaises | libs/csrf/csrfprotector.php:377-434 | as written, an active failure action always raises the undefined-constant error and leaves GET and POST unchanged |
| Dispatch.FailedValidationByAction | libs/csrf/csrfprotector.php:387-424 | with the corrected switch: ClearParameters empties GET for a GET request and POST otherwise; LogOnly changes nothing; Forbidden, Redirect, CustomErrorMessage and InternalServerError each exit with their response; ThrowException raises |
| Dispatch.FailedValidationUnknownCode | libs/csrf/csrfprotector.php:425-432 | with the corrected switch, a configured integer that is no action's code clears GET or POST, as ClearParameters does |
| Dispatch.FailedValidationMissingEntry | libs/csrf/csrfprotector.php:387-400 | with the corrected switch, a missing entry is null, which `==` equates with 0, so the request ends with 403 Forbidden |
| InitGuards.AlreadyInitialized | libs/csrf/csrfprotector.php:128-130 | init refuses to run again iff the configuration holds at least one key |
| InitGuards.IsMissing | libs/csrf/csrfprotector.php:184 | a key is present iff it is set, not null and not exactly the empty string |
| InitGuards.MissingKeys | libs/csrf/csrfprotector.php:182-187 | a key is reported iff it is one of the checked keys and it is missing; nothing is reported iff no checked key is missing; at most as many keys are reported as were checked |
| InitGuards.MissingConfiguration | libs/csrf/csrfprotector.php:182-187 | the loop reports exactly the missing required keys, in order |
| InitGuards.CompleteConfigurationPasses | libs/csrf/csrfprotector.php:182-193 | when logDirectory, failedAuthAction and tokenLength are all set and non-empty, nothing is reported missing |
| Protector.WithTokenName | libs/csrf/csrfprotector.php:170-171 | a token name that loosely equals '' is set to `csrfp_token` and nothing else changes; any other configuration is returned unchanged; afterwards the name never loosely equals '' |
| Protector.WithCookieConfig | libs/csrf/csrfprotector.php:177-178 | a set cookieConfig leaves the configuration unchanged; an unset one is set to an empty array and nothing else changes |
| Protector.Configured | libs/csrf/csrfprotector.php:170-178 | the token name is `csrfp_token` when the loaded one loosely equals '' and the loaded one otherwise; cookieConfig is the loaded value when set and an empty array otherwise |
| Protector.ConfiguredKeepsOtherKeys | libs/csrf/csrfprotector.php:162-178 | init changes no configuration key except CSRFP_TOKEN and cookieConfig |
| Protector.WithDefaultLength | libs/csrf/csrfprotector.php:523-525 | afterwards tokenLength's intval is the effective length, and no other key changes |
| Protector.PostVerdict | libs/csrf/csrfprotector.php:241-282 | the request goes unchecked iff the protector is inactive, the method is not POST, or the URL is skipped; a checked request is accepted on its header iff the token came from the headers and is neither "" nor "0"; a checked non-empty POST or server token that validates is accepted from the window, and one accepted from the window came from POST or server variables and matches a window entry |
| Protector.HeaderTokenAcceptedOnPresence | libs/csrf/csrfprotector.php:267-271 | a non-empty header token is accepted whatever the session holds |
| Protector.MissingTokenRejected | libs/csrf/csrfprotector.php:264-278 | a checked POST with no token, "" or "0" is rejected wherever the token came from |
| Protector.ForgedPostRejected | libs/csrf/csrfprotector.php:273-278 | a POST or server-variable token that matches nothing in the window is rejected |
| Protector.ReplayedOlderTokenRejected | libs/csrf/csrfprotector.php:273-278 | once a token is accepted, a token that matched only earlier entries is rejected when posted again |
| Protector.CsrfProtector.constructor | libs/csrf/csrfprotector.php:50-102 | the static state starts with an empty config, active set, request type GET, an empty skip list, no header key and no cookie attributes; the request maps are those given |
| Protector.CsrfProtector.HasToken | libs/csrf/csrfprotector.php:446-459 | hasToken on the current state holds iff the cookie is set, is neither "" nor "0", and validates against the session window |
| Protector.CsrfProtector.GetTokenFromRequest | libs/csrf/csrfprotector.php:294-316 | no token is found iff no header, no POST field and no server variable under the header key holds one; a POST-sourced token is the POST field's value |
| Protector.CsrfProtector.SkipVerificationFor | libs/csrf/csrfprotector.php:588-610 | with an empty host and a URI that is empty or starts with `/`, `?` or `#`, the request is skipped iff the skip list loosely holds "" |
| Protector.CsrfProtector.Verdict | libs/csrf/csrfprotector.php:241-282 | the current request goes unchecked iff the protector is inactive, the method is not POST, or the URL is skipped |
| Protector.CsrfProtector.Init | libs/csrf/csrfprotector.php:123-202 | a second call fails and mod_csrfp bypasses, both with no change; a missing file fails with no change; otherwise the loaded state is kept, and then any missing required keys are reported |
| Protector.CsrfProtector.ReadSwitches | libs/csrf/csrfprotector.php:162-168 | the skip list is taken only from a non-empty array; active is taken only when set |
| Protector.CsrfProtector.Load | libs/csrf/csrfprotector.php:162-179 | the configuration gets its defaults; the header key is that of the token name; cookie attributes are read from cookieConfig |
| Protector.CsrfProtector.IsValidToken | libs/csrf/csrfprotector.php:346-362 | the scan and its shift loop return and leave exactly what ValidateToken specifies |
| Protector.CsrfProtector.GenerateAuthToken | libs/csrf/csrfprotector.php:517-546 | tokenLength defaults to 32 when its intval is 0, and the token is the raw string cut to that length |
| Protector.CsrfProtector.RefreshToken | libs/csrf/csrfprotector.php:472-504 | the window becomes exactly [t] and the cookie mirror t; cookie attributes that did not exist yet are created from cookieConfig (defaulted to an empty array), existing ones are kept; one cookie is written with those attributes and expiry; hasToken then holds iff t is not "" or "0" |
| Protector.CsrfProtector.StartWindow | libs/csrf/csrfprotector.php:476-479 | the session entry becomes exactly [t] |
| Protector.CsrfProtector.SetCookie | libs/csrf/csrfprotector.php:488-496 | one cookie write is appended, with the configured path, domain, secure, httpOnly and expiry |
| Protector.CsrfProtector.EnsureCookieConfig | libs/csrf/csrfprotector.php:482-486 | the cookie attributes are created once, from cookieConfig (defaulted to an empty array); existing ones are kept |
| Protector.CsrfProtector.UnsetTokenFromRequest | libs/csrf/csrfprotector.php:328-333 | the token field is gone from POST, and nothing else changes |
| Protector.CsrfProtector.FailedValidationAction | libs/csrf/csrfprotector.php:377-434 | the outcome, GET and POST are those of the corrected failure dispatch |
| Protector.CsrfProtector.AuthorizePost | libs/csrf/csrfprotector.php:241-282 | an unchecked request continues with nothing changed; otherwise request type becomes POST, and the result follows the verdict: a header token continues without touching the window, a window token consumes the window, a rejected token runs the failure action; the token field leaves POST on every path that does not end the request |
| Protector.CsrfProtector.CheckPost | libs/csrf/csrfprotector.php:262-271 | a checked POST always reaches a verdict, and leaves the state that verdict prescribes |
| Protector.CsrfProtector.CheckSessionToken | libs/csrf/csrfprotector.php:273-281 | a valid token consumes the window and continues; otherwise the failure action's outcome and parameters apply, and the token field is removed unless the request ends |

## Left out

- Configuration loading is not modelled: `include`, `file_exists` and the three candidate paths are replaced by an optional loaded map. `getenv('mod_csrfp_enabled')` is a boolean parameter. `session_start` is not modelled (I/O).
- The logger (`csrfpDefaultLogger`, the `$logger` argument of `init`) and `logCSRFattack` are not modelled (logging I/O).
- `renderHeaderTokens` is not modelled (HTML templating).
- The randomness of `random_bytes`, `openssl_random_pseudo_bytes` and `mt_rand` is an input (`TokenGenerator.Entropy`). Which function exists is the choice of constructor.
- `time()` is the parameter `now`. `setcookie` is a recorded `CookieWrite`. `header` and `exit` are `Exit` outcomes. The `trigger_error` notice of the as-written first case is never reached, because evaluating its label already fails.
- Concurrent requests sharing one session are not modelled. Each method runs alone on one request.
- PhpValues.Value: there are no floats and no objects. Array keys are strings, so integer keys appear as their decimal text.
- PhpValues.IsNumeric: a numeric string is a non-empty run of ASCII digits. PHP also accepts signs, decimals, exponents and surrounding whitespace, so `LooseEqualsStrings`, `LooseEqualsString`, `LooseEqualsInt` and the numeric-tail rule of `UrlSkip.CurrentUrl` cover only digit runs. Integers are unbounded: two digit strings beyond PHP_INT_MAX, which PHP compares as floats (or as strings when both overflow), are compared here by exact value, so `"0"` followed by a 20-digit number equals that number here but not in PHP.
- PhpValues.IntVal: `intval`/`(int)` on a string reads only an optional sign and the leading ASCII digits, with no 64-bit saturation. PHP 8 also skips leading whitespace and reads decimals and exponents (`intval(" 16")` is 16 and `intval("1e2")` is 100; here they are 0 and 1). This affects `TokenGenerator.EffectiveLength` and `TokenGenerator.Token` (a `tokenLength` of `" 16"` gives 32 characters here, 16 in PHP) and `CookieConfigs.CookieConfig.expire` (an `expire` of `"1e3"` is 1 here, 1000 in PHP).
- PhpValues.KeyOf: an array used as an array key is a TypeError in PHP. Here it reads as "".
- Protector.CsrfProtector.GenerateAuthToken: a `tokenLength` that is an array is a TypeError at `substr` in PHP. Here it is read through its intval.
- Protector.CsrfProtector.Init: `active` is stored as the truthiness of the configured value. The PHP keeps the raw value, but every use tests only its truthiness.
- Extraction.Extract: header, POST and server values are strings. An array-valued POST field is not modelled.
- UrlSkip.UrlPath: only the empty authority is modelled as a `parse_url` failure. Other URLs `parse_url` rejects (a non-numeric port, say) are split as if valid.

## Findings

| source | as written | input that shows it | evidently intended | confidence | as-written member | corrected member |
|---|---|---|---|---|---|---|
| libs/csrf/csrfprotector.php:388 | the first case label of the failure switch is `csrfpAction::TriggerErrorAction`, a constant csrfpAction does not declare; PHP evaluates that label first and raises an undefined-constant error | any failed validation on an active protector, e.g. a POST with a forged token and `failedAuthAction['POST'] = 0` | the switch without that label, where each action code selects its own branch and other values take the default | high, not executed | Dispatch.FailedValidationAsWrittenRaises | Dispatch.CorrectedSwitchSelectsAction |
