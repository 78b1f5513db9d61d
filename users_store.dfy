/**
 * The users table: registration with a username-uniqueness check, lookup by id
 * and by username, and partial updates. bcrypt is an oracle `hash` that may fail;
 * the database's own failures are modelled where the code reports them distinctly.
 */
module Users {
  import opened Wrappers
  import opened Domain
  import Ids

  datatype UserError = ErrDatabase | ErrUsernameExists | NotFound | HashFailed

  /** No two users share a username. */
  ghost predicate UniqueUsernames(users: map<nat, User>)
  {
    forall a, b :: (a in users && b in users && users[a].username == users[b].username) ==> a == b
  }

  /** The ids of the users called `name`. */
  function IdsNamed(users: map<nat, User>, name: string): (s: set<nat>)
    ensures forall id :: id in s <==> id in users && users[id].username == name
  {
    set id | id in users && users[id].username == name
  }

  /** A user after an update whose password has already been hashed. */
  function ApplyUserUpdate(u: User, username: Option<string>, passwordHash: Option<string>): (u': User)
    ensures u'.username == (if username.Some? then username.value else u.username)
    ensures u'.password == (if passwordHash.Some? then passwordHash.value else u.password)
    ensures u'.fullName == u.fullName && u'.moderator == u.moderator
  {
    u.(username := if username.Some? then username.value else u.username,
       password := if passwordHash.Some? then passwordHash.value else u.password)
  }

  /** Because the update does not re-check uniqueness, renaming a user onto another's username is accepted. */
  lemma UpdateCanBreakUniqueness()
    ensures
      var users := map[1 := User("A", "alice", "h1", false), 2 := User("B", "bob", "h2", false)];
      UniqueUsernames(users)
      && !UniqueUsernames(users[2 := ApplyUserUpdate(users[2], Some("alice"), None)])
  {
    var users := map[1 := User("A", "alice", "h1", false), 2 := User("B", "bob", "h2", false)];
    assert "alice" != "bob" by { assert "alice"[0] != "bob"[0]; }
    var after := users[2 := ApplyUserUpdate(users[2], Some("alice"), None)];
    assert after[1].username == after[2].username;
  }

  class UserStore {
    var users: map<nat, User>
    /** The next value of the users id sequence. */
    var nextId: nat

    ghost predicate Valid()
      reads this
    {
      0 < nextId && forall id :: id in users ==> 0 < id < nextId
    }

    constructor ()
      ensures Valid() && users == map[]
    {
      users := map[];
      nextId := 1;
    }

    /**
     * Inserts a user unless the username is taken. A failing existence count or
     * insert is reported as a database error.
     */
    method CreateUser(u: User, countFails: bool, insertFails: bool) returns (r: Result<nat, UserError>)
      requires Valid()
      modifies this
      ensures Valid()
      ensures countFails ==> r == Failure(ErrDatabase)
      ensures !countFails && IdsNamed(old(users), u.username) != {} ==> r == Failure(ErrUsernameExists)
      ensures !countFails && IdsNamed(old(users), u.username) == {} && insertFails ==> r == Failure(ErrDatabase)
      ensures r.Success? <==> !countFails && IdsNamed(old(users), u.username) == {} && !insertFails
      ensures r.Failure? ==> users == old(users) && nextId == old(nextId)
      ensures r.Success? ==>
        (r.value == old(nextId) && r.value !in old(users)
         && users == old(users)[r.value := u] && nextId == old(nextId) + 1)
      ensures UniqueUsernames(old(users)) ==> UniqueUsernames(users)
    {
      if countFails {
        return Failure(ErrDatabase);
      }
      var count := |IdsNamed(users, u.username)|;
      if count > 0 {
        return Failure(ErrUsernameExists);
      }
      if insertFails {
        return Failure(ErrDatabase);
      }
      var id := nextId;
      users := users[id := u];
      nextId := nextId + 1;
      r := Success(id);
    }

    method GetUserByID(id: nat) returns (r: Result<User, UserError>)
      ensures r.Success? <==> id in users
      ensures r.Success? ==> r.value == users[id]
      ensures r.Failure? ==> r.error == NotFound
    {
      if id !in users {
        return Failure(NotFound);
      }
      r := Success(users[id]);
    }

    /**
     * Writes only the supplied username and password; a password is stored as its
     * hash. With nothing supplied nothing is written. The moderator flag never changes.
     */
    method UpdateUser(id: nat, username: Option<string>, password: Option<string>, hash: string -> Option<string>)
      returns (r: Outcome<UserError>)
      requires Valid()
      modifies this`users
      ensures Valid()
      ensures r.Fail? <==> password.Some? && hash(password.value).None?
      ensures r.Fail? ==> r.error == HashFailed && users == old(users)
      ensures username.None? && password.None? ==> users == old(users)
      ensures r.Pass? ==>
        (users ==
          if id in old(users) && (username.Some? || password.Some?)
          then old(users)[id := ApplyUserUpdate(old(users)[id], username,
            if password.Some? then hash(password.value) else None)]
          else old(users))
      ensures users.Keys == old(users).Keys
      ensures forall k :: k in users ==> users[k].moderator == old(users)[k].moderator
    {
      var hashed: Option<string> := None;
      if password.Some? {
        hashed := hash(password.value);
        if hashed.None? {
          return Fail(HashFailed);
        }
      }
      if username.None? && password.None? {
        return Pass;
      }
      if id in users {
        users := users[id := ApplyUserUpdate(users[id], username, hashed)];
      }
      r := Pass;
    }

    /** The user called `name`; when several are, the one with the lowest id. */
    method GetUserByUsername(name: string) returns (r: Result<(nat, User), UserError>)
      ensures r.Success? <==> IdsNamed(users, name) != {}
      ensures r.Failure? ==> r.error == NotFound
      ensures r.Success? ==>
        (r.value.0 in users && r.value.1 == users[r.value.0] && r.value.1.username == name
         && forall id :: id in users && users[id].username == name ==> r.value.0 <= id)
    {
      var named := IdsNamed(users, name);
      if named == {} {
        return Failure(NotFound);
      }
      var id := Ids.SetMin(named);
      r := Success((id, users[id]));
    }
  }
}
