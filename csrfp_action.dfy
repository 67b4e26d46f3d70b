/**
 * The `csrfpAction` enumeration: the codes a configuration uses to choose
 * what happens when a request fails validation, one code per request
 * method.
 */
module CsrfpAction {
  import opened Wrappers

  /** The seven declared class constants, in declaration order. */
  datatype Action =
    | ForbiddenResponse
    | ClearParameters
    | Redirect
    | CustomErrorMessage
    | InternalServerErrorResponse
    | LogOnly
    | ThrowException

  const AllActions: seq<Action> := [
    ForbiddenResponse, ClearParameters, Redirect, CustomErrorMessage,
    InternalServerErrorResponse, LogOnly, ThrowException
  ]

  /** The integer value of each constant. */
  function Code(a: Action): (n: int)
    ensures 0 <= n < |AllActions| && AllActions[n] == a
  {
    match a
    case ForbiddenResponse => 0
    case ClearParameters => 1
    case Redirect => 2
    case CustomErrorMessage => 3
    case InternalServerErrorResponse => 4
    case LogOnly => 5
    case ThrowException => 6
  }

  /** The name each constant is declared under. */
  function ConstantName(a: Action): string
  {
    match a
    case ForbiddenResponse => "ForbiddenResponseAction"
    case ClearParameters => "ClearParametersAction"
    case Redirect => "RedirectAction"
    case CustomErrorMessage => "CustomErrorMessageAction"
    case InternalServerErrorResponse => "InternalServerErrorResponseAction"
    case LogOnly => "LogOnlyAction"
    case ThrowException => "ThrowExceptionAction"
  }

  /**
   * Evaluating `csrfpAction::<name>`: the value of a declared constant, or
   * None when the class declares no constant of that name (PHP then raises
   * an "undefined constant" error).
   */
  function ConstantValue(name: string): (r: Option<int>)
    ensures r.Some? ==> 0 <= r.value < |AllActions| && ConstantName(AllActions[r.value]) == name
  {
    if name == "ForbiddenResponseAction" then Some(0)
    else if name == "ClearParametersAction" then Some(1)
    else if name == "RedirectAction" then Some(2)
    else if name == "CustomErrorMessageAction" then Some(3)
    else if name == "InternalServerErrorResponseAction" then Some(4)
    else if name == "LogOnlyAction" then Some(5)
    else if name == "ThrowExceptionAction" then Some(6)
    else None
  }

  /** The action an integer code denotes, if any. */
  function FromCode(n: int): (r: Option<Action>)
    ensures r.Some? <==> 0 <= n < |AllActions|
    ensures r.Some? ==> Code(r.value) == n
  {
    if 0 <= n < |AllActions| then Some(AllActions[n]) else None
  }

  /** Every declared name evaluates to its own code. */
  lemma ConstantValueOfName(a: Action)
    ensures ConstantValue(ConstantName(a)) == Some(Code(a))
  {
    match a
    case ForbiddenResponse =>
    case ClearParameters =>
    case Redirect =>
    case CustomErrorMessage =>
    case InternalServerErrorResponse =>
    case LogOnly =>
    case ThrowException =>
  }

  /** Exactly seven codes, 0 to 6, pairwise distinct, so no two cases of a switch over them overlap. */
  lemma CodesDistinct(a: Action, b: Action)
    ensures Code(a) == Code(b) <==> a == b
    ensures FromCode(Code(a)) == Some(a)
  {
  }

  /** The class declares no `TriggerErrorAction` constant. */
  lemma TriggerErrorActionUndeclared()
    ensures ConstantValue("TriggerErrorAction") == None
    ensures forall a :: ConstantName(a) != "TriggerErrorAction"
  {
  }
}
