/**
 * The authentication gate. `AuthDecision` is the middleware's fixed check chain:
 * header present, `Bearer ` prefix, blacklist lookup, token parse and expiry. On
 * success the principal is written into the request context. `ModeratorDecision`
 * then admits only contexts whose moderator flag is true. The token parser is an
 * oracle `parse` that checks the signature and decodes the claims. The expiry check
 * a parser performs against the clock is written out.
 */
module Middleware {
  import opened Wrappers
  import opened Domain
  import opened Http
  import opened Helper
  import GoStrings
  import Blacklist

  const BearerPrefix := "Bearer "

  /** The description a failing blacklist lookup is reported with; the store's own error text is not modelled. */
  const LookupErrorText := "redis: lookup failed"

  /** The token part of an Authorization header. */
  function BearerToken(header: string): (t: string)
    requires GoStrings.HasPrefix(header, BearerPrefix)
    ensures BearerPrefix + t == header
  {
    header[|BearerPrefix|..]
  }

  /** Whether the parser accepts a token at `now`: the signature checks out and the token has not expired. */
  predicate TokenAccepted(token: string, now: Time, parse: string -> Option<Claims>)
  {
    parse(token).Some? && now < parse(token).value.expiresAt
  }

  datatype AuthOutcome = Reject(response: Response) | Admit(userId: nat, isModerator: bool)

  /**
   * The middleware's verdict on a header. `store` and `redisUp` are the blacklist's
   * contents and whether it answers.
   */
  function AuthDecision(header: string, store: map<string, Blacklist.Entry>, redisUp: bool, now: Time,
                        parse: string -> Option<Claims>): (o: AuthOutcome)
    ensures header == "" ==> o == Reject(Error(StatusUnauthorized, "empty auth header"))
    ensures header != "" && !GoStrings.HasPrefix(header, BearerPrefix) ==>
      o == Reject(Error(StatusUnauthorized, "invalid auth header format"))
    ensures GoStrings.HasPrefix(header, BearerPrefix) && redisUp && Blacklist.Listed(store, BearerToken(header), now) ==>
      o == Reject(Error(StatusUnauthorized, "token is blacklisted"))
    ensures GoStrings.HasPrefix(header, BearerPrefix) && !redisUp ==>
      o == Reject(Error(StatusInternalServerError, LookupErrorText))
    ensures o.Admit? <==>
      (GoStrings.HasPrefix(header, BearerPrefix) && redisUp
       && !Blacklist.Listed(store, BearerToken(header), now)
       && TokenAccepted(BearerToken(header), now, parse))
    ensures o.Admit? ==>
      (o.userId == parse(BearerToken(header)).value.userId
       && o.isModerator == parse(BearerToken(header)).value.isModerator)
    ensures o.Reject? ==> o.response.code == StatusUnauthorized || (o.response.code == StatusInternalServerError && !redisUp)
  {
    if header == "" then Reject(Error(StatusUnauthorized, "empty auth header"))
    else if !GoStrings.HasPrefix(header, BearerPrefix) then Reject(Error(StatusUnauthorized, "invalid auth header format"))
    else
      var token := BearerToken(header);
      if !redisUp then Reject(Error(StatusInternalServerError, LookupErrorText))
      else if Blacklist.Listed(store, token, now) then Reject(Error(StatusUnauthorized, "token is blacklisted"))
      else if !TokenAccepted(token, now, parse) then Reject(Error(StatusUnauthorized, "invalid token"))
      else Admit(parse(token).value.userId, parse(token).value.isModerator)
  }

  /** The context after the middleware stores a principal. */
  function WithPrincipal(keys: Keys, userId: nat, isModerator: bool): Keys
  {
    keys[UserCtx := UintValue(userId)][ModeratorCtx := BoolValue(isModerator)]
  }

  /**
   * The moderator gate: None lets the chain continue. A missing or false flag is
   * refused with 403; a flag of another type makes the type assertion panic, which
   * the recovery middleware answers with 500.
   */
  function ModeratorDecision(keys: Keys): (d: Option<Response>)
    ensures d.None? <==> ModeratorCtx in keys && keys[ModeratorCtx] == BoolValue(true)
    ensures ModeratorCtx !in keys || keys[ModeratorCtx] == BoolValue(false) ==>
      d == Some(Error(StatusForbidden, "access denied: moderator rights required"))
    ensures ModeratorCtx in keys && !keys[ModeratorCtx].BoolValue? ==> d == Some(Response(StatusInternalServerError, PanicBody))
  {
    if ModeratorCtx !in keys then Some(Error(StatusForbidden, "access denied: moderator rights required"))
    else match keys[ModeratorCtx]
      case BoolValue(v) => if v then None else Some(Error(StatusForbidden, "access denied: moderator rights required"))
      case _ => Some(Response(StatusInternalServerError, PanicBody))
  }

  /**
   * What the handlers read back after the middleware admitted a principal: the same
   * user id and moderator flag, and the moderator gate opens exactly for moderators.
   */
  lemma PrincipalReadBack(keys: Keys, userId: nat, isModerator: bool)
    ensures GetUserIdFromContext(WithPrincipal(keys, userId, isModerator)) == Success(userId)
    ensures IsUserModerator(WithPrincipal(keys, userId, isModerator)) == isModerator
    ensures ModeratorDecision(WithPrincipal(keys, userId, isModerator)).None? <==> isModerator
  {
    assert UserCtx != ModeratorCtx by { assert UserCtx[0] != ModeratorCtx[0]; }
  }

  /** A request's context: the Authorization header, the key-value store, the abort flag and the written response. */
  class GinContext {
    const authorization: string
    var keys: Keys
    var aborted: bool
    var response: Option<Response>

    constructor (authorization: string)
      ensures this.authorization == authorization
      ensures keys == map[] && !aborted && response == None
    {
      this.authorization := authorization;
      keys := map[];
      aborted := false;
      response := None;
    }
  }

  /** Runs the check chain on the context: either the principal is stored, or the context is aborted with the error. */
  method AuthMiddleware(c: GinContext, client: Blacklist.RedisClient, now: Time, redisUp: bool,
                        parse: string -> Option<Claims>)
    modifies c
    ensures var o := AuthDecision(c.authorization, client.store, redisUp, now, parse);
      if o.Admit? then
        c.keys == WithPrincipal(old(c.keys), o.userId, o.isModerator)
        && c.aborted == old(c.aborted) && c.response == old(c.response)
      else
        c.aborted && c.response == Some(o.response) && c.keys == old(c.keys)
  {
    var header := c.authorization;
    if header == "" {
      c.response := Some(Error(StatusUnauthorized, "empty auth header"));
      c.aborted := true;
      return;
    }
    if !GoStrings.HasPrefix(header, BearerPrefix) {
      c.response := Some(Error(StatusUnauthorized, "invalid auth header format"));
      c.aborted := true;
      return;
    }
    var token := header[|BearerPrefix|..];
    var reply := client.CheckJWTInBlacklist(token, now, redisUp);
    if reply == Blacklist.Found {
      c.response := Some(Error(StatusUnauthorized, "token is blacklisted"));
      c.aborted := true;
      return;
    }
    if reply != Blacklist.Missing {
      c.response := Some(Error(StatusInternalServerError, LookupErrorText));
      c.aborted := true;
      return;
    }
    var claims := parse(token);
    if claims.None? || !(now < claims.value.expiresAt) {
      c.response := Some(Error(StatusUnauthorized, "invalid token"));
      c.aborted := true;
      return;
    }
    c.keys := WithPrincipal(c.keys, claims.value.userId, claims.value.isModerator);
  }

  /** Runs the moderator gate on the context. */
  method ModeratorMiddleware(c: GinContext)
    modifies c`aborted, c`response
    ensures ModeratorDecision(c.keys).None? ==> c.aborted == old(c.aborted) && c.response == old(c.response)
    ensures ModeratorDecision(c.keys).Some? ==> c.aborted && c.response == ModeratorDecision(c.keys)
  {
    var d := ModeratorDecision(c.keys);
    if d.Some? {
      c.response := d;
      c.aborted := true;
    }
  }
}
