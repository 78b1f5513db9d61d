/**
 * The record shapes of the `ds` package: requests ("cooling" rows, also called
 * `CoolRequest` in the half-renamed code), users, catalog components, JWT claims
 * and the DTOs the handlers answer with. Timestamps are abstract integers and the
 * floating-point room fields are kept only for whether they are present.
 */
module Domain {
  import opened Wrappers

  /** An abstract point on the server clock. */
  type Time = int

  /** The request status enum. */
  datatype Status = Draft | Deleted | Formed | Completed | Rejected

  /** The integer stored in the `status` column: 1 draft, 2 deleted, 3 formed, 4 completed, 5 rejected. */
  function StatusCode(s: Status): (c: int)
    ensures 1 <= c <= 5
  {
    match s
    case Draft => 1
    case Deleted => 2
    case Formed => 3
    case Completed => 4
    case Rejected => 5
  }

  /** Distinct statuses are stored as distinct integers, so a status filter selects exactly one status. */
  lemma StatusCodeInjective(a: Status, b: Status)
    ensures StatusCode(a) == StatusCode(b) ==> a == b
  {
  }

  /** A row of the requests table. */
  datatype Request = Request(
    status: Status,
    creator: nat,
    moderator: Option<nat>,
    creationDate: Time,
    formingDate: Option<Time>,
    completionDate: Option<Time>,
    roomArea: Option<real>,
    roomHeight: Option<real>,
    coolingPower: Option<real>)

  /** The key of a link row: (request id, component id). */
  type LinkKey = (nat, nat)

  /** A row of the component catalog; `status` is the active flag the lifecycle flips. */
  datatype Component = Component(
    title: string,
    description: string,
    tdp: int,
    imageUrl: Option<string>,
    status: bool)

  /** A row of the users table; `password` holds the bcrypt hash. */
  datatype User = User(fullName: string, username: string, password: string, moderator: bool)

  /** The claims a session token carries. */
  datatype Claims = Claims(userId: nat, isModerator: bool, issuedAt: Time, expiresAt: Time)

  /** One entry of a request's component list in a response. */
  datatype ComponentInRequest = ComponentInRequest(
    componentId: nat,
    title: string,
    description: string,
    tdp: int,
    imageUrl: Option<string>,
    count: nat)

  /** A request as the API returns it; `components` is empty in listings. */
  datatype RequestDTO = RequestDTO(
    id: nat,
    status: int,
    creationDate: Time,
    creatorId: nat,
    moderatorId: Option<nat>,
    formingDate: Option<Time>,
    completionDate: Option<Time>,
    roomArea: Option<real>,
    roomHeight: Option<real>,
    coolingPower: Option<real>,
    components: seq<ComponentInRequest>)

  /** The public view of a user (never the password hash). */
  datatype UserDTO = UserDTO(id: nat, fullName: string, username: string, moderator: bool)

  /** The body of a registration request. */
  datatype RegisterRequest = RegisterRequest(fullName: string, username: string, password: string)

  /** The body of a login request. */
  datatype LoginRequest = LoginRequest(username: string, password: string)

  /** The body of a request edit: only the supplied fields are written. */
  datatype RequestUpdate = RequestUpdate(roomArea: Option<real>, roomHeight: Option<real>)

  /** The body of a catalog component edit. */
  datatype ComponentUpdate = ComponentUpdate(title: Option<string>, description: Option<string>, tdp: Option<int>)
}
