/**
 * The `switch` of `failedValidationAction`: which branch runs for the
 * configured action value, and what each branch does to the request.
 *
 * PHP evaluates the case labels of a switch one by one, in order, comparing
 * each with `==`. The first label as written, `csrfpAction::TriggerErrorAction`,
 * names a constant the enumeration does not declare, so evaluating it raises
 * an "undefined constant" error before any other label is looked at.
 * `WrittenCases` is the switch as written; `CorrectedCases` is the same
 * switch without that label, which the protector uses.
 */
module Dispatch {
  import opened Wrappers
  import opened PhpValues
  import opened CsrfpAction

  /** The code paths of the switch. */
  datatype Branch =
    | TriggerErrorBranch
    | LogOnlyBranch
    | ThrowExceptionBranch
    | ForbiddenBranch
    | ClearParametersBranch
    | RedirectBranch
    | CustomErrorMessageBranch
    | InternalServerErrorBranch
    | DefaultBranch

  /** `case csrfpAction::<name>:` followed by the code of `branch`. */
  datatype Case = Case(name: string, branch: Branch)

  /** The order of the cases after the first, by the action each names. */
  const CaseOrder: seq<Action> := [
    LogOnly, ThrowException, ForbiddenResponse, ClearParameters, Redirect,
    CustomErrorMessage, InternalServerErrorResponse
  ]

  /** The switch without its first label: one case per action, in source order. */
  const CorrectedCases: seq<Case> := [
    Case("LogOnlyAction", LogOnlyBranch),
    Case("ThrowExceptionAction", ThrowExceptionBranch),
    Case("ForbiddenResponseAction", ForbiddenBranch),
    Case("ClearParametersAction", ClearParametersBranch),
    Case("RedirectAction", RedirectBranch),
    Case("CustomErrorMessageAction", CustomErrorMessageBranch),
    Case("InternalServerErrorResponseAction", InternalServerErrorBranch)
  ]

  /** The switch as written: `TriggerErrorAction` first, then the declared cases. */
  const WrittenCases: seq<Case> := [Case("TriggerErrorAction", TriggerErrorBranch)] + CorrectedCases


  /** The case's label names a declared constant whose value `subject` loosely equals. */
  predicate Matches(subject: Value, c: Case)
  {
    ConstantValue(c.name).Some? && LooseEqualsInt(subject, ConstantValue(c.name).value)
  }

  /**
   * A PHP `switch ($subject)` over `cases` with a `default:` branch: labels
   * are evaluated in order, an undeclared one raises (Err with its name),
   * the first matching one selects its branch.
   */
  function Switch(subject: Value, cases: seq<Case>): (r: Result<Branch, string>)
    ensures r.Err? ==> ConstantValue(r.error).None? && exists k :: 0 <= k < |cases| && cases[k].name == r.error
  {
    if cases == [] then Ok(DefaultBranch)
    else match ConstantValue(cases[0].name)
      case None => Err(cases[0].name)
      case Some(v) =>
        if LooseEqualsInt(subject, v) then Ok(cases[0].branch)
        else
          var r := Switch(subject, cases[1..]);
          assert forall k :: 0 <= k < |cases| - 1 ==> cases[1..][k] == cases[k + 1];
          r
  }

  /**
   * When every label is declared the switch never raises: it selects the
   * branch of the first matching case, or the default when none matches.
   */
  lemma {:induction false} SwitchSelectsFirstMatch(subject: Value, cases: seq<Case>)
    requires forall k :: 0 <= k < |cases| ==> ConstantValue(cases[k].name).Some?
    ensures Switch(subject, cases).Ok?
    ensures forall k ::
              0 <= k < |cases| && Matches(subject, cases[k]) && (forall j :: 0 <= j < k ==> !Matches(subject, cases[j]))
              ==> Switch(subject, cases).value == cases[k].branch
    ensures (forall k :: 0 <= k < |cases| ==> !Matches(subject, cases[k]))
      ==> Switch(subject, cases).value == DefaultBranch
  {
    if cases != [] {
      var rest := cases[1..];
      forall k | 0 <= k < |rest|
        ensures ConstantValue(rest[k].name).Some?
      {
        assert rest[k] == cases[k + 1];
      }
      SwitchSelectsFirstMatch(subject, rest);
      if forall k :: 0 <= k < |cases| ==> !Matches(subject, cases[k]) {
        assert !Matches(subject, cases[0]);
        forall j | 0 <= j < |rest|
          ensures !Matches(subject, rest[j])
        {
          assert rest[j] == cases[j + 1];
        }
      }
    }
    forall k | 0 <= k < |cases| && Matches(subject, cases[k])
      && (forall j :: 0 <= j < k ==> !Matches(subject, cases[j]))
      ensures Switch(subject, cases).value == cases[k].branch
    {
      SwitchReachesCase(subject, cases, k);
    }
  }

  /**
   * The switch selects case `k` when every earlier label is declared and
   * does not match and label `k` matches.
   */
  lemma {:induction false} SwitchReachesCase(subject: Value, cases: seq<Case>, k: nat)
    requires k < |cases| && Matches(subject, cases[k])
    requires forall j :: 0 <= j < k ==> ConstantValue(cases[j].name).Some? && !Matches(subject, cases[j])
    ensures Switch(subject, cases) == Ok(cases[k].branch)
  {
    if k > 0 {
      assert !Matches(subject, cases[0]);
      forall j | 0 <= j < k - 1
        ensures ConstantValue(cases[1..][j].name).Some? && !Matches(subject, cases[1..][j])
      {
        assert cases[1..][j] == cases[j + 1];
      }
      SwitchReachesCase(subject, cases[1..], k - 1);
    }
  }

  /** A branch other than the default is always that of a case whose label matches. */
  lemma {:induction false} SwitchBranchFromMatchingCase(subject: Value, cases: seq<Case>)
    ensures var r := Switch(subject, cases);
      r.Ok? && r.value != DefaultBranch ==>
        exists k :: 0 <= k < |cases| && cases[k].branch == r.value && Matches(subject, cases[k])
  {
    var r := Switch(subject, cases);
    if cases != [] && ConstantValue(cases[0].name).Some? && r.Ok? && r.value != DefaultBranch {
      if Matches(subject, cases[0]) {
        assert cases[0].branch == r.value;
      } else {
        SwitchBranchFromMatchingCase(subject, cases[1..]);
        var k :| 0 <= k < |cases| - 1 && cases[1..][k].branch == r.value && Matches(subject, cases[1..][k]);
        assert cases[k + 1] == cases[1..][k];
      }
    }
  }

  /** As written, the switch raises on its first label whatever the configured value. */
  lemma WrittenSwitchAlwaysRaises(subject: Value)
    ensures Switch(subject, WrittenCases) == Err("TriggerErrorAction")
  {
    TriggerErrorActionUndeclared();
  }

  /** The branch each declared action selects. */
  function ActionBranch(a: Action): Branch
  {
    match a
    case ForbiddenResponse => ForbiddenBranch
    case ClearParameters => ClearParametersBranch
    case Redirect => RedirectBranch
    case CustomErrorMessage => CustomErrorMessageBranch
    case InternalServerErrorResponse => InternalServerErrorBranch
    case LogOnly => LogOnlyBranch
    case ThrowException => ThrowExceptionBranch
  }

  /** The k-th corrected case names the k-th action of CaseOrder and evaluates to its code. */
  lemma CorrectedCaseAt(k: nat)
    requires k < |CorrectedCases|
    ensures CorrectedCases[k] == Case(ConstantName(CaseOrder[k]), ActionBranch(CaseOrder[k]))
    ensures ConstantValue(CorrectedCases[k].name) == Some(Code(CaseOrder[k]))
  {
    ConstantValueOfName(CaseOrder[k]);
  }

  /** The position of each action in CaseOrder. */
  function CasePosition(a: Action): (k: nat)
    ensures k < |CaseOrder| && CaseOrder[k] == a
  {
    match a
    case LogOnly => 0
    case ThrowException => 1
    case ForbiddenResponse => 2
    case ClearParameters => 3
    case Redirect => 4
    case CustomErrorMessage => 5
    case InternalServerErrorResponse => 6
  }

  /** Without the undeclared label, each action's code selects that action's branch. */
  lemma {:induction false} CorrectedSwitchSelectsAction(a: Action)
    ensures Switch(Int(Code(a)), CorrectedCases) == Ok(ActionBranch(a))
  {
    var k := CasePosition(a);
    CorrectedCaseAt(k);
    assert Matches(Int(Code(a)), CorrectedCases[k]);
    forall j | 0 <= j < k
      ensures ConstantValue(CorrectedCases[j].name).Some? && !Matches(Int(Code(a)), CorrectedCases[j])
    {
      CorrectedCaseAt(j);
      CodesDistinct(CaseOrder[j], a);
    }
    SwitchReachesCase(Int(Code(a)), CorrectedCases, k);
  }

  /** Without the undeclared label no label fails to evaluate, whatever the configured value. */
  lemma CorrectedSwitchNeverRaises(subject: Value)
    ensures Switch(subject, CorrectedCases).Ok?
  {
    forall k | 0 <= k < |CorrectedCases|
      ensures ConstantValue(CorrectedCases[k].name).Some?
    {
      CorrectedCaseAt(k);
    }
    SwitchSelectsFirstMatch(subject, CorrectedCases);
  }

  /** Without the undeclared label, an integer that is no action's code selects the default branch. */
  lemma {:induction false} CorrectedSwitchDefault(n: int)
    requires FromCode(n).None?
    ensures Switch(Int(n), CorrectedCases) == Ok(DefaultBranch)
  {
    forall k | 0 <= k < |CorrectedCases|
      ensures ConstantValue(CorrectedCases[k].name).Some? && !Matches(Int(n), CorrectedCases[k])
    {
      CorrectedCaseAt(k);
    }
    SwitchSelectsFirstMatch(Int(n), CorrectedCases);
  }

  /** How a terminating branch ends the script (`exit` after the headers it sends). */
  datatype Response =
    | Forbidden                              // "HTTP/1.0 403 Forbidden" and a fixed page
    | RedirectTo(location: Value, body: Value) // "location:" the error page, body the custom message
    | CustomMessage(body: Value)             // the custom message alone
    | InternalServerError(protocol: string)  // "<protocol> 500 Internal Server Error" and a fixed page

  /** What escapes to the caller. */
  datatype Error =
    | UndefinedConstant(name: string)  // evaluating csrfpAction::<name> failed
    | ValidationException              // \Exception("CSRF Token Validation Failed")

  /** How a request goes on after a step that may end it. */
  datatype Outcome = Continue | Exit(response: Response) | Raised(error: Error)

  /** `config['failedAuthAction'][requestType]`, null when absent. */
  function ConfiguredAction(config: map<string, Value>, requestType: string): Value
  {
    Get(Entries(Get(config, "failedAuthAction")), requestType)
  }

  /** The outcome of a branch that does not clear parameters. */
  function BranchOutcome(b: Branch, config: map<string, Value>, protocol: string): Outcome
  {
    match b
    case ForbiddenBranch => Exit(Forbidden)
    case RedirectBranch => Exit(RedirectTo(Get(config, "errorRedirectionPage"), Get(config, "customErrorMessage")))
    case CustomErrorMessageBranch => Exit(CustomMessage(Get(config, "customErrorMessage")))
    case InternalServerErrorBranch => Exit(InternalServerError(protocol))
    case ThrowExceptionBranch => Raised(ValidationException)
    case _ => Continue
  }

  /**
   * `failedValidationAction` over a given case list: nothing when inactive;
   * otherwise the selected branch, where clearing empties `$_GET` for a GET
   * request and `$_POST` otherwise. Returns the outcome and the new `$_GET`
   * and `$_POST`. (`trigger_error` only emits a notice, which is not kept.)
   */
  function FailedValidationWith(
    cases: seq<Case>, active: bool, config: map<string, Value>, requestType: string,
    protocol: string, get: map<string, string>, post: map<string, string>
  ): (r: (Outcome, map<string, string>, map<string, string>))
    ensures !active ==> r == (Continue, get, post)
    ensures r.0 != Continue ==> r.1 == get && r.2 == post
    ensures r.1 == get || (r.1 == map[] && requestType == "GET")
    ensures r.2 == post || (r.2 == map[] && requestType != "GET")
  {
    if !active then (Continue, get, post)
    else match Switch(ConfiguredAction(config, requestType), cases)
      case Err(name) => (Raised(UndefinedConstant(name)), get, post)
      case Ok(b) =>
        if b == ClearParametersBranch || b == DefaultBranch then
          if requestType == "GET" then (Continue, map[], post) else (Continue, get, map[])
        else (BranchOutcome(b, config, protocol), get, post)
  }

  /** The failure action as the protector runs it, with the corrected switch. */
  function FailedValidation(
    active: bool, config: map<string, Value>, requestType: string,
    protocol: string, get: map<string, string>, post: map<string, string>
  ): (r: (Outcome, map<string, string>, map<string, string>))
    ensures !active ==> r == (Continue, get, post)
    ensures !(r.0.Raised? && r.0.error.UndefinedConstant?)
    ensures r.0 != Continue ==> r.1 == get && r.2 == post
    ensures r.1 == get || (r.1 == map[] && requestType == "GET")
    ensures r.2 == post || (r.2 == map[] && requestType != "GET")
  {
    CorrectedSwitchNeverRaises(ConfiguredAction(config, requestType));
    FailedValidationWith(CorrectedCases, active, config, requestType, protocol, get, post)
  }

  /** As written, an active protector's failure action always raises the undefined-constant error and changes nothing. */
  lemma FailedValidationAsWrittenRaises(
    config: map<string, Value>, requestType: string, protocol: string,
    get: map<string, string>, post: map<string, string>)
    ensures FailedValidationWith(WrittenCases, true, config, requestType, protocol, get, post)
      == (Raised(UndefinedConstant("TriggerErrorAction")), get, post)
  {
    WrittenSwitchAlwaysRaises(ConfiguredAction(config, requestType));
  }

  /**
   * Each configured action, per request method: ClearParameters empties the
   * GET parameters of a GET request and the POST payload otherwise; LogOnly
   * changes nothing and goes on; Forbidden, Redirect, CustomErrorMessage and
   * InternalServerError end the request; ThrowException raises.
   */
  lemma {:induction false} FailedValidationByAction(
    a: Action, config: map<string, Value>, requestType: string, protocol: string,
    get: map<string, string>, post: map<string, string>)
    requires ConfiguredAction(config, requestType) == Int(Code(a))
    ensures var r := FailedValidation(true, config, requestType, protocol, get, post);
      match a
      case ClearParameters =>
        && r.0 == Continue
        && (requestType == "GET" ==> r.1 == map[] && r.2 == post)
        && (requestType != "GET" ==> r.1 == get && r.2 == map[])
      case LogOnly => r == (Continue, get, post)
      case ForbiddenResponse => r == (Exit(Forbidden), get, post)
      case Redirect =>
        r == (Exit(RedirectTo(Get(config, "errorRedirectionPage"), Get(config, "customErrorMessage"))), get, post)
      case CustomErrorMessage => r == (Exit(CustomMessage(Get(config, "customErrorMessage"))), get, post)
      case InternalServerErrorResponse => r == (Exit(InternalServerError(protocol)), get, post)
      case ThrowException => r == (Raised(ValidationException), get, post)
  {
    CorrectedSwitchSelectsAction(a);
    var r := FailedValidationWith(CorrectedCases, true, config, requestType, protocol, get, post);
    assert FailedValidation(true, config, requestType, protocol, get, post) == r;
    assert r.0 == if ActionBranch(a) == ClearParametersBranch then Continue else BranchOutcome(ActionBranch(a), config, protocol);
  }

  /** A configured integer that is no action's code takes the default branch, which clears like ClearParameters. */
  lemma {:induction false} FailedValidationUnknownCode(
    config: map<string, Value>, requestType: string, protocol: string,
    get: map<string, string>, post: map<string, string>)
    requires ConfiguredAction(config, requestType).Int?
    requires FromCode(ConfiguredAction(config, requestType).i).None?
    ensures FailedValidation(true, config, requestType, protocol, get, post)
      == if requestType == "GET" then (Continue, map[], post) else (Continue, get, map[])
  {
    CorrectedSwitchDefault(ConfiguredAction(config, requestType).i);
  }

  /**
   * A missing entry reads as null, which `==` equates with 0, so it ends
   * the request as ForbiddenResponse does.
   */
  lemma {:induction false} FailedValidationMissingEntry(
    config: map<string, Value>, requestType: string, protocol: string,
    get: map<string, string>, post: map<string, string>)
    requires ConfiguredAction(config, requestType) == Null
    ensures FailedValidation(true, config, requestType, protocol, get, post) == (Exit(Forbidden), get, post)
  {
    var k := CasePosition(ForbiddenResponse);
    CorrectedCaseAt(k);
    forall j | 0 <= j < k
      ensures ConstantValue(CorrectedCases[j].name).Some? && !Matches(Null, CorrectedCases[j])
    {
      CorrectedCaseAt(j);
    }
    SwitchReachesCase(Null, CorrectedCases, k);
  }
}
