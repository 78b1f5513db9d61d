/**
 * Registration, login and logout. bcrypt is the pair of oracles `hash` (may fail)
 * and `verify(hash, password)`; token signing is the oracle `sign` (may fail). A
 * request body is `None` when it is not valid JSON; the `binding:"required"` tags
 * additionally refuse an empty username or password.
 */
module UserHandlers {
  import opened Wrappers
  import opened Domain
  import opened Http
  import GoStrings
  import Ids
  import Users
  import Blacklist
  import Middleware

  /** The description a rejected request body is reported with; the binder's own text is not modelled. */
  const BindErrorText := "invalid request body"

  predicate RegisterBodyValid(body: Option<RegisterRequest>)
  {
    body.Some? && body.value.username != "" && body.value.password != ""
  }

  predicate LoginBodyValid(body: Option<LoginRequest>)
  {
    body.Some? && body.value.username != "" && body.value.password != ""
  }

  /** The claims a login issues to user `id` at `now`. */
  function LoginClaims(id: nat, u: User, now: Time, expiresIn: int): (c: Claims)
    ensures c.userId == id && c.isModerator == u.moderator
    ensures c.issuedAt == now && c.expiresAt == now + expiresIn
  {
    Claims(id, u.moderator, now, now + expiresIn)
  }

  /**
   * Creates an account. The stored user is never a moderator and holds the hash of
   * the password; every store error is answered with 500.
   */
  method Register(users: Users.UserStore, body: Option<RegisterRequest>, hash: string -> Option<string>,
                  countFails: bool, insertFails: bool) returns (resp: Response)
    requires users.Valid()
    modifies users
    ensures users.Valid()
    ensures !RegisterBodyValid(body) ==> resp == Error(StatusBadRequest, BindErrorText)
    ensures RegisterBodyValid(body) && hash(body.value.password).None? ==> resp.code == StatusInternalServerError
    ensures RegisterBodyValid(body) && hash(body.value.password).Some? && resp.code != StatusCreated ==>
      resp.code == StatusInternalServerError
    ensures resp.code != StatusCreated ==> users.users == old(users.users)
    ensures resp.code == StatusCreated <==>
      (RegisterBodyValid(body) && hash(body.value.password).Some? && !countFails
       && Users.IdsNamed(old(users.users), body.value.username) == {} && !insertFails)
    ensures resp.code == StatusCreated ==>
      var id := old(users.nextId);
      var stored := User(body.value.fullName, body.value.username, hash(body.value.password).value, false);
      users.users == old(users.users)[id := stored]
      && resp.body == UserBody(UserDTO(id, stored.fullName, stored.username, false))
    ensures Users.UniqueUsernames(old(users.users)) ==> Users.UniqueUsernames(users.users)
  {
    if !RegisterBodyValid(body) {
      return Error(StatusBadRequest, BindErrorText);
    }
    var req := body.value;
    var hashed := hash(req.password);
    if hashed.None? {
      return Error(StatusInternalServerError, "bcrypt: hashing failed");
    }
    var user := User(req.fullName, req.username, hashed.value, false);
    var created := users.CreateUser(user, countFails, insertFails);
    if created.Failure? {
      return Error(StatusInternalServerError,
        if created.error == Users.ErrUsernameExists then "username already exists" else "database error");
    }
    resp := Response(StatusCreated, UserBody(UserDTO(created.value, user.fullName, user.username, user.moderator)));
  }

  /**
   * Checks the credentials of the user with the given username (the lowest id when
   * several share it) and issues a token for that user's id and moderator flag.
   */
  method Login(users: Users.UserStore, body: Option<LoginRequest>, verify: (string, string) -> bool,
               sign: Claims -> Option<string>, now: Time, expiresIn: int) returns (resp: Response)
    ensures !LoginBodyValid(body) ==> resp == Error(StatusBadRequest, BindErrorText)
    ensures LoginBodyValid(body) && Users.IdsNamed(users.users, body.value.username) == {} ==>
      resp == Error(StatusUnauthorized, "record not found")
    ensures LoginBodyValid(body) ==>
      ((forall id :: id in users.users && users.users[id].username == body.value.username ==>
          !verify(users.users[id].password, body.value.password))
       ==> resp.code == StatusUnauthorized)
    ensures resp.code == StatusOK ==>
      (LoginBodyValid(body) &&
       exists id :: id in users.users && users.users[id].username == body.value.username
         && verify(users.users[id].password, body.value.password)
         && sign(LoginClaims(id, users.users[id], now, expiresIn)).Some?
         && resp.body == LoginBody(sign(LoginClaims(id, users.users[id], now, expiresIn)).value,
              UserDTO(id, users.users[id].fullName, users.users[id].username, users.users[id].moderator)))
    ensures resp.code in {StatusOK, StatusBadRequest, StatusUnauthorized, StatusInternalServerError}
    ensures LoginBodyValid(body) && Users.IdsNamed(users.users, body.value.username) != {} ==>
      var m := Ids.SetMin(Users.IdsNamed(users.users, body.value.username));
      var u := users.users[m];
      var token := sign(LoginClaims(m, u, now, expiresIn));
      if !verify(u.password, body.value.password) then resp.code == StatusUnauthorized
      else if token.None? then resp.code == StatusInternalServerError
      else resp == Response(StatusOK, LoginBody(token.value, UserDTO(m, u.fullName, u.username, u.moderator)))
    ensures resp.code == StatusOK <==>
      (LoginBodyValid(body) && Users.IdsNamed(users.users, body.value.username) != {}
       && var m := Ids.SetMin(Users.IdsNamed(users.users, body.value.username));
          verify(users.users[m].password, body.value.password)
          && sign(LoginClaims(m, users.users[m], now, expiresIn)).Some?)
  {
    if !LoginBodyValid(body) {
      return Error(StatusBadRequest, BindErrorText);
    }
    var req := body.value;
    var found := users.GetUserByUsername(req.username);
    if found.Failure? {
      return Error(StatusUnauthorized, "record not found");
    }
    var (id, user) := found.value;
    assert id == Ids.SetMin(Users.IdsNamed(users.users, req.username));
    if !verify(user.password, req.password) {
      return Error(StatusUnauthorized, "crypto/bcrypt: hashedPassword is not the hash of the given password");
    }
    var claims := LoginClaims(id, user, now, expiresIn);
    var token := sign(claims);
    if token.None? {
      return Error(StatusInternalServerError, "token signing failed");
    }
    resp := Response(StatusOK, LoginBody(token.value, UserDTO(id, user.fullName, user.username, user.moderator)));
  }

  /**
   * Revokes the header's token by listing it in the blacklist for the full token
   * lifetime `expiresIn`, counted from the logout.
   */
  method Logout(authorization: string, client: Blacklist.RedisClient, now: Time, expiresIn: int, reachable: bool)
    returns (resp: Response)
    modifies client
    ensures !GoStrings.HasPrefix(authorization, Middleware.BearerPrefix) ==>
      resp == Error(StatusBadRequest, "invalid header") && client.store == old(client.store)
    ensures GoStrings.HasPrefix(authorization, Middleware.BearerPrefix) ==>
      var token := Middleware.BearerToken(authorization);
      if reachable then
        resp == Response(StatusOK, MessageBody)
        && client.store == Blacklist.SetEntry(old(client.store), Blacklist.JwtKey(token), "1", expiresIn, now)
      else
        resp.code == StatusInternalServerError && client.store == old(client.store)
  {
    if !GoStrings.HasPrefix(authorization, Middleware.BearerPrefix) {
      return Error(StatusBadRequest, "invalid header");
    }
    var token := authorization[|Middleware.BearerPrefix|..];
    var written := client.WriteJWTToBlacklist(token, expiresIn, now, reachable);
    if written.Fail? {
      return Error(StatusInternalServerError, written.error);
    }
    resp := Response(StatusOK, MessageBody);
  }

  /** The Authorization header a client sends with a token. */
  function BearerHeader(token: string): (h: string)
    ensures GoStrings.HasPrefix(h, Middleware.BearerPrefix) && Middleware.BearerToken(h) == token
  {
    GoStrings.TrimPrefixOfConcat(Middleware.BearerPrefix, token);
    Middleware.BearerPrefix + token
  }

  /**
   * A token the parser maps back to the claims it was signed with is admitted, as
   * the claims' principal, while it is unexpired and not blacklisted.
   */
  lemma IssuedTokenAdmitted(token: string, claims: Claims, store: map<string, Blacklist.Entry>, later: Time,
                            parse: string -> Option<Claims>)
    requires parse(token) == Some(claims)
    requires later < claims.expiresAt
    requires !Blacklist.Listed(store, token, later)
    ensures Middleware.AuthDecision(BearerHeader(token), store, true, later, parse)
      == Middleware.Admit(claims.userId, claims.isModerator)
  {
  }

  /**
   * After a logout the token is refused from then on: the blacklist entry lives for a
   * full `expiresIn` from the logout, and a token issued no later than the logout
   * with that lifetime has expired by the time the entry does.
   */
  lemma LogoutRevokes(token: string, store: map<string, Blacklist.Entry>, now: Time, expiresIn: int,
                      later: Time, redisUp: bool, parse: string -> Option<Claims>)
    requires expiresIn > 0 && now <= later
    requires parse(token).Some? ==> parse(token).value.expiresAt <= now + expiresIn
    ensures Middleware.AuthDecision(BearerHeader(token),
      Blacklist.SetEntry(store, Blacklist.JwtKey(token), "1", expiresIn, now), redisUp, later, parse).Reject?
  {
    var store' := Blacklist.SetEntry(store, Blacklist.JwtKey(token), "1", expiresIn, now);
    if later < now + expiresIn {
      Blacklist.WriteThenListed(store, token, expiresIn, now, later);
      assert Blacklist.Listed(store', token, later);
    } else {
      assert !Middleware.TokenAccepted(token, later, parse);
    }
  }

  /** A token issued at login and revoked at a later logout is refused for good. */
  lemma LoginLogoutRevokes(id: nat, u: User, issued: Time, expiresIn: int, token: string,
                           store: map<string, Blacklist.Entry>, now: Time, later: Time, redisUp: bool,
                           parse: string -> Option<Claims>)
    requires expiresIn > 0 && issued <= now <= later
    requires parse(token).Some? ==> parse(token) == Some(LoginClaims(id, u, issued, expiresIn))
    ensures Middleware.AuthDecision(BearerHeader(token),
      Blacklist.SetEntry(store, Blacklist.JwtKey(token), "1", expiresIn, now), redisUp, later, parse).Reject?
  {
    LogoutRevokes(token, store, now, expiresIn, later, redisUp, parse);
  }
}
