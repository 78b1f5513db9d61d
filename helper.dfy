/**
 * The values the middleware leaves in a request context and the two helpers the
 * handlers use to read them back.
 */
module Helper {
  import opened Wrappers

  /** A context value, tagged by its dynamic type. */
  datatype CtxValue = UintValue(n: nat) | BoolValue(b: bool) | OtherValue

  /** The request context's key-value store. */
  type Keys = map<string, CtxValue>

  const UserCtx := "userID"
  const ModeratorCtx := "isModerator"

  /** The authenticated user's id, or why it cannot be read. */
  function GetUserIdFromContext(keys: Keys): (r: Result<nat, string>)
    ensures UserCtx !in keys ==> r == Failure("user ID not found in context")
    ensures UserCtx in keys && !keys[UserCtx].UintValue? ==> r == Failure("invalid user ID type in context")
    ensures r.Success? <==> UserCtx in keys && keys[UserCtx].UintValue?
    ensures r.Success? ==> keys[UserCtx] == UintValue(r.value)
  {
    if UserCtx !in keys then Failure("user ID not found in context")
    else match keys[UserCtx]
      case UintValue(n) => Success(n)
      case _ => Failure("invalid user ID type in context")
  }

  /** Whether the context marks the caller as a moderator; false when the flag is absent or not a bool. */
  function IsUserModerator(keys: Keys): (b: bool)
    ensures b <==> ModeratorCtx in keys && keys[ModeratorCtx] == BoolValue(true)
  {
    if ModeratorCtx !in keys then false
    else match keys[ModeratorCtx]
      case BoolValue(v) => v
      case _ => false
  }
}
