/**
 * The route table `RegisterAPI` builds. Routes registered on the API group run no
 * guard. The authenticated group and the moderator group are sub-groups at "/"
 * (their routes keep the paths as written). They run the authentication middleware,
 * and the moderator group runs the moderator middleware after it.
 */
module Routes {
  import opened Wrappers
  import opened Domain
  import opened Http
  import opened Helper
  import Middleware
  import Blacklist

  datatype Verb = GET | POST | PUT | DELETE

  /** A middleware a route runs before its handler. */
  datatype Guard = Auth | Moderator

  datatype Endpoint =
    | Register | Login | GetComponents | GetComponent
    | Logout | GetUserData | UpdateUserData
    | AddComponentToDraft | GetCartBadge | ListRequests | GetRequest | UpdateRequest
    | FormRequest | DeleteRequest | RemoveComponentFromRequest | UpdateComponentInRequest
    | CreateComponent | UpdateComponent | DeleteComponent | UploadComponentImage | ResolveRequest

  datatype Route = Route(verb: Verb, path: string, guards: seq<Guard>, endpoint: Endpoint)

  /** The endpoints anyone may call. */
  predicate IsPublic(e: Endpoint)
  {
    e in {Register, Login, GetComponents, GetComponent}
  }

  /** The endpoints only moderators may call: catalog edits and request resolution. */
  predicate IsModeratorOnly(e: Endpoint)
  {
    e in {CreateComponent, UpdateComponent, DeleteComponent, UploadComponentImage, ResolveRequest}
  }

  /** The guard chain each endpoint is registered with. */
  function RequiredGuards(e: Endpoint): seq<Guard>
  {
    if IsPublic(e) then [] else if IsModeratorOnly(e) then [Auth, Moderator] else [Auth]
  }

  /** The routes registered on the API group itself. */
  function PublicRoutes(): (r: seq<Route>)
    ensures |r| == 4
    ensures forall i :: 0 <= i < |r| ==> r[i].guards == [] && IsPublic(r[i].endpoint)
  {
    [ Route(POST, "/users", [], Register),
      Route(POST, "/auth/login", [], Login),
      Route(GET, "/components", [], GetComponents),
      Route(GET, "/components/:id", [], GetComponent) ]
  }

  /** The routes of the authenticated group. */
  function AuthRoutes(): (r: seq<Route>)
    ensures |r| == 12
    ensures forall i :: 0 <= i < |r| ==>
      r[i].guards == [Auth] && !IsPublic(r[i].endpoint) && !IsModeratorOnly(r[i].endpoint)
  {
    var g := [Auth];
    [ Route(POST, "/auth/logout", g, Logout),
      Route(GET, "/users/:id", g, GetUserData),
      Route(PUT, "/users/:id", g, UpdateUserData),
      Route(POST, "/coolrequest/draft/components/:component_id", g, AddComponentToDraft),
      Route(GET, "/coolrequests/coolcart", g, GetCartBadge),
      Route(GET, "/coolrequests", g, ListRequests),
      Route(GET, "/coolrequests/:id", g, GetRequest),
      Route(PUT, "/coolrequests/:id", g, UpdateRequest),
      Route(PUT, "/coolrequests/:id/form", g, FormRequest),
      Route(DELETE, "/coolrequests/:id", g, DeleteRequest),
      Route(DELETE, "/coolrequests/:id/components/:component_id", g, RemoveComponentFromRequest),
      Route(PUT, "/coolrequests/:id/components/:component_id", g, UpdateComponentInRequest) ]
  }

  /** The routes of the moderator group. */
  function ModeratorRoutes(): (r: seq<Route>)
    ensures |r| == 5
    ensures forall i :: 0 <= i < |r| ==> r[i].guards == [Auth, Moderator] && IsModeratorOnly(r[i].endpoint)
  {
    var g := [Auth, Moderator];
    [ Route(POST, "/components", g, CreateComponent),
      Route(PUT, "/components/:id", g, UpdateComponent),
      Route(DELETE, "/components/:id", g, DeleteComponent),
      Route(POST, "/components/:id/image", g, UploadComponentImage),
      Route(PUT, "/coolrequests/:id/resolve", g, ResolveRequest) ]
  }

  /** The routes in registration order. */
  function ApiRoutes(): (r: seq<Route>)
    ensures |r| == |PublicRoutes()| + |AuthRoutes()| + |ModeratorRoutes()|
  {
    PublicRoutes() + AuthRoutes() + ModeratorRoutes()
  }

  /** The position of an endpoint's route in the table. */
  function RouteIndex(e: Endpoint): (i: nat)
    ensures i < |ApiRoutes()| && ApiRoutes()[i].endpoint == e
  {
    match e
    case Register => 0 case Login => 1 case GetComponents => 2 case GetComponent => 3
    case Logout => 4 case GetUserData => 5 case UpdateUserData => 6
    case AddComponentToDraft => 7 case GetCartBadge => 8 case ListRequests => 9 case GetRequest => 10
    case UpdateRequest => 11 case FormRequest => 12 case DeleteRequest => 13
    case RemoveComponentFromRequest => 14 case UpdateComponentInRequest => 15
    case CreateComponent => 16 case UpdateComponent => 17 case DeleteComponent => 18
    case UploadComponentImage => 19 case ResolveRequest => 20
  }

  /**
   * Every route is registered with the guards its endpoint's access level calls
   * for: none for the public ones, authentication for the rest, and the moderator
   * check after authentication for moderator-only endpoints.
   */
  lemma RouteGuards()
    ensures forall i :: 0 <= i < |ApiRoutes()| ==> ApiRoutes()[i].guards == RequiredGuards(ApiRoutes()[i].endpoint)
  {
    var p, a, m := PublicRoutes(), AuthRoutes(), ModeratorRoutes();
    assert forall i :: 0 <= i < |p| ==> p[i].guards == [] && IsPublic(p[i].endpoint);
    assert forall i :: 0 <= i < |a| ==> a[i].guards == [Auth] && !IsPublic(a[i].endpoint) && !IsModeratorOnly(a[i].endpoint);
    assert forall i :: 0 <= i < |m| ==> m[i].guards == [Auth, Moderator] && IsModeratorOnly(m[i].endpoint);
    forall i | 0 <= i < |ApiRoutes()|
      ensures ApiRoutes()[i].guards == RequiredGuards(ApiRoutes()[i].endpoint)
    {
      if i < |p| {
        assert ApiRoutes()[i] == p[i];
      } else if i < |p| + |a| {
        assert ApiRoutes()[i] == a[i - |p|];
      } else {
        assert ApiRoutes()[i] == m[i - |p| - |a|];
      }
    }
  }

  /** What running a route's guards leaves: a response that stops the chain, or the context the handler sees. */
  datatype ChainOutcome = Stopped(response: Response) | Reached(keys: Keys)

  /** Runs the guards in order on a request with the given context and Authorization header. */
  function RunChain(guards: seq<Guard>, keys: Keys, header: string, store: map<string, Blacklist.Entry>, redisUp: bool,
                    now: Time, parse: string -> Option<Claims>): (o: ChainOutcome)
    ensures guards == [] ==> o == Reached(keys)
    ensures o.Reached? && Auth in guards ==> Middleware.AuthDecision(header, store, redisUp, now, parse).Admit?
    decreases |guards|
  {
    if guards == [] then Reached(keys)
    else match guards[0]
      case Auth =>
        (match Middleware.AuthDecision(header, store, redisUp, now, parse)
         case Reject(resp) => Stopped(resp)
         case Admit(id, m) =>
           RunChain(guards[1..], Middleware.WithPrincipal(keys, id, m), header, store, redisUp, now, parse))
      case Moderator =>
        (match Middleware.ModeratorDecision(keys)
         case Some(resp) => Stopped(resp)
         case None => RunChain(guards[1..], keys, header, store, redisUp, now, parse))
  }

  /** An authenticated route reaches its handler exactly when the token is admitted, with its principal stored. */
  lemma AuthChain(keys: Keys, header: string, store: map<string, Blacklist.Entry>, redisUp: bool,
                  now: Time, parse: string -> Option<Claims>)
    ensures var o := Middleware.AuthDecision(header, store, redisUp, now, parse);
      RunChain([Auth], keys, header, store, redisUp, now, parse) ==
        if o.Reject? then Stopped(o.response) else Reached(Middleware.WithPrincipal(keys, o.userId, o.isModerator))
  {
  }

  /**
   * A moderator-only route reaches its handler exactly when the token is admitted
   * and carries the moderator flag; an admitted non-moderator gets 403.
   */
  lemma ModeratorChain(keys: Keys, header: string, store: map<string, Blacklist.Entry>, redisUp: bool,
                       now: Time, parse: string -> Option<Claims>)
    ensures var o := Middleware.AuthDecision(header, store, redisUp, now, parse);
      RunChain([Auth, Moderator], keys, header, store, redisUp, now, parse) ==
        if o.Reject? then Stopped(o.response)
        else if o.isModerator then Reached(Middleware.WithPrincipal(keys, o.userId, o.isModerator))
        else Stopped(Error(StatusForbidden, "access denied: moderator rights required"))
  {
    var o := Middleware.AuthDecision(header, store, redisUp, now, parse);
    if o.Admit? {
      Middleware.PrincipalReadBack(keys, o.userId, o.isModerator);
      assert [Auth, Moderator][1..] == [Moderator];
    }
  }

  /**
   * The handler of a registered route is reached exactly when its access level
   * allows the request, and then sees the admitted token's principal.
   */
  lemma GuardedAccess(i: nat, keys: Keys, header: string, store: map<string, Blacklist.Entry>, redisUp: bool,
                      now: Time, parse: string -> Option<Claims>)
    requires i < |ApiRoutes()|
    ensures var e := ApiRoutes()[i].endpoint;
      var o := Middleware.AuthDecision(header, store, redisUp, now, parse);
      var out := RunChain(ApiRoutes()[i].guards, keys, header, store, redisUp, now, parse);
      (IsPublic(e) ==> out == Reached(keys))
      && (!IsPublic(e) ==>
            ((out.Reached? <==> o.Admit? && (IsModeratorOnly(e) ==> o.isModerator))
             && (out.Reached? ==>
                   GetUserIdFromContext(out.keys) == Success(o.userId)
                   && IsUserModerator(out.keys) == o.isModerator)))
  {
    RouteGuards();
    var e := ApiRoutes()[i].endpoint;
    var o := Middleware.AuthDecision(header, store, redisUp, now, parse);
    if !IsPublic(e) {
      if IsModeratorOnly(e) {
        ModeratorChain(keys, header, store, redisUp, now, parse);
      } else {
        AuthChain(keys, header, store, redisUp, now, parse);
      }
      if o.Admit? {
        Middleware.PrincipalReadBack(keys, o.userId, o.isModerator);
      }
    }
  }

  /** The routes registered so far on the engine. */
  class RouteTable {
    var routes: seq<Route>

    constructor ()
      ensures routes == []
    {
      routes := [];
    }
  }

  /** A router group: the engine it registers on and the middleware its routes run. */
  class RouterGroup {
    const table: RouteTable
    var handlers: seq<Guard>

    constructor (table: RouteTable, handlers: seq<Guard>)
      ensures this.table == table && this.handlers == handlers
    {
      this.table := table;
      this.handlers := handlers;
    }

    /** A sub-group at "/" that starts with this group's middleware. */
    method Group() returns (g: RouterGroup)
      ensures fresh(g) && g.table == table && g.handlers == handlers
    {
      g := new RouterGroup(table, handlers);
    }

    method Use(guards: seq<Guard>)
      modifies this`handlers
      ensures handlers == old(handlers) + guards
    {
      handlers := handlers + guards;
    }

    method Handle(verb: Verb, path: string, endpoint: Endpoint)
      modifies table
      ensures table.routes == old(table.routes) + [Route(verb, path, handlers, endpoint)]
    {
      table.routes := table.routes + [Route(verb, path, handlers, endpoint)];
    }
  }

  /** Registers every route on the API group, which itself runs no guard. */
  method RegisterAPI(r: RouterGroup)
    requires r.handlers == []
    modifies r.table
    ensures r.table.routes == old(r.table.routes) + ApiRoutes()
  {
    ghost var start := r.table.routes;
    r.Handle(POST, "/users", Register);
    r.Handle(POST, "/auth/login", Login);
    r.Handle(GET, "/components", GetComponents);
    r.Handle(GET, "/components/:id", GetComponent);
    assert r.table.routes == start + PublicRoutes();

    var auth := r.Group();
    auth.Use([Auth]);
    RegisterAuthGroup(auth);

    var moderator := r.Group();
    moderator.Use([Auth, Moderator]);
    RegisterModeratorGroup(moderator);
    assert r.table.routes == start + PublicRoutes() + AuthRoutes() + ModeratorRoutes();
  }

  /** The block of routes registered on the authenticated group. */
  method RegisterAuthGroup(auth: RouterGroup)
    requires auth.handlers == [Auth]
    modifies auth.table
    ensures auth.table.routes == old(auth.table.routes) + AuthRoutes()
  {
    ghost var start := auth.table.routes;
    auth.Handle(POST, "/auth/logout", Logout);
    auth.Handle(GET, "/users/:id", GetUserData);
    auth.Handle(PUT, "/users/:id", UpdateUserData);
    auth.Handle(POST, "/coolrequest/draft/components/:component_id", AddComponentToDraft);
    auth.Handle(GET, "/coolrequests/coolcart", GetCartBadge);
    auth.Handle(GET, "/coolrequests", ListRequests);
    assert auth.table.routes == start + AuthRoutes()[..6];
    auth.Handle(GET, "/coolrequests/:id", GetRequest);
    auth.Handle(PUT, "/coolrequests/:id", UpdateRequest);
    auth.Handle(PUT, "/coolrequests/:id/form", FormRequest);
    auth.Handle(DELETE, "/coolrequests/:id", DeleteRequest);
    auth.Handle(DELETE, "/coolrequests/:id/components/:component_id", RemoveComponentFromRequest);
    auth.Handle(PUT, "/coolrequests/:id/components/:component_id", UpdateComponentInRequest);
    assert AuthRoutes() == AuthRoutes()[..6] + AuthRoutes()[6..];
  }

  /** The block of routes registered on the moderator group. */
  method RegisterModeratorGroup(moderator: RouterGroup)
    requires moderator.handlers == [Auth, Moderator]
    modifies moderator.table
    ensures moderator.table.routes == old(moderator.table.routes) + ModeratorRoutes()
  {
    moderator.Handle(POST, "/components", CreateComponent);
    moderator.Handle(PUT, "/components/:id", UpdateComponent);
    moderator.Handle(DELETE, "/components/:id", DeleteComponent);
    moderator.Handle(POST, "/components/:id/image", UploadComponentImage);
    moderator.Handle(PUT, "/coolrequests/:id/resolve", ResolveRequest);
  }
}
