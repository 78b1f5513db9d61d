/**
 * The repository behind the request lifecycle: the requests table, the
 * request-component link table (component id and count per request), the
 * component catalog with its active flag, and the names of the images in the
 * object-store bucket. Each repository call runs sequentially; a call that
 * fails leaves every table as it was, which is how the model reads the
 * transactions and single-statement writes of the store.
 */
module RequestStore {
  import opened Wrappers
  import opened Domain
  import Ids
  import GoStrings
  import ObjectNames

  datatype RepoError =
    | RecordNotFound
    | RequestDeleted
    | NotCreator
    | NotDraft
    | RoomFieldsMissing
    | NotFormed
    | InvalidAction
    | AlreadyLinked
    | LinkNotFound
    | QueryFailed
    | FileOpenFailed
    | UploadFailed

  /** The text of each error, as the handlers pass it on. */
  function Message(e: RepoError): string
  {
    match e
    case RecordNotFound => "record not found"
    case RequestDeleted => "cooling page not found or has been deleted"
    case NotCreator => "only creator can form cooling"
    case NotDraft => "only draft cooling can be formed"
    case RoomFieldsMissing => "room area and height are required"
    case NotFormed => "only formed cooling can be resolved"
    case InvalidAction => "invalid action, must be 'complete' or 'reject'"
    case AlreadyLinked => "component already in coolrequest"
    case LinkNotFound => "component not found in this cooling"
    case QueryFailed => "database error"
    case FileOpenFailed => "cannot open uploaded file"
    case UploadFailed => "failed to upload to minio"
  }

  /** A link of a request with its preloaded component (absent when the catalog row is gone). */
  datatype LinkView = LinkView(componentId: nat, count: nat, component: Option<Component>)

  /** A request with its links, as `GetRequestWithComponents` loads it. */
  datatype RequestView = RequestView(id: nat, request: Request, links: seq<LinkView>)

  /** The filter arguments of the request listing, as received from the query string. */
  datatype ListQuery = ListQuery(user: nat, isModerator: bool, status: string, from: string, to: string)

  /** The ids of `user`'s draft requests. */
  function Drafts(requests: map<nat, Request>, user: nat): (d: set<nat>)
    ensures forall id :: id in d <==> id in requests && requests[id].creator == user && requests[id].status == Draft
  {
    set id | id in requests && requests[id].creator == user && requests[id].status == Draft
  }

  /** The draft-as-cart invariant: no user has two drafts. */
  ghost predicate AtMostOneDraft(requests: map<nat, Request>)
  {
    forall a, b ::
      (a in requests && b in requests
       && requests[a].status == Draft && requests[b].status == Draft
       && requests[a].creator == requests[b].creator) ==> a == b
  }

  /** Under the invariant a user's drafts form at most a singleton. */
  lemma DraftsAtMostOne(requests: map<nat, Request>, user: nat, d: nat)
    requires AtMostOneDraft(requests)
    requires d in Drafts(requests, user)
    ensures Drafts(requests, user) == {d}
  {
  }

  /** The component ids linked to request `rid`. */
  function LinkedComponents(links: map<LinkKey, nat>, rid: nat): (cs: set<nat>)
    ensures forall c :: c in cs <==> (rid, c) in links
  {
    set k | k in links && k.0 == rid :: k.1
  }

  /** The catalog after `UPDATE ... SET status = false WHERE id IN ids`. */
  function Deactivate(components: map<nat, Component>, ids: set<nat>): (m: map<nat, Component>)
    ensures m.Keys == components.Keys
    ensures forall c :: c in m && c in ids ==> m[c] == components[c].(status := false)
    ensures forall c :: c in m && c !in ids ==> m[c] == components[c]
  {
    map c | c in components :: if c in ids then components[c].(status := false) else components[c]
  }

  /** The catalog after `UPDATE ... SET status = v WHERE id = c` (no row when `c` is unknown). */
  function SetActive(components: map<nat, Component>, c: nat, v: bool): (m: map<nat, Component>)
    ensures m.Keys == components.Keys
    ensures c in m ==> m[c] == components[c].(status := v)
    ensures forall c' :: c' in m && c' != c ==> m[c'] == components[c']
  {
    if c in components then components[c := components[c].(status := v)] else components
  }

  /** The draft `AddComponentToDraft` creates. */
  function NewDraft(user: nat, now: Time): (r: Request)
    ensures r.status == Draft && r.creator == user && r.creationDate == now
    ensures r.moderator.None? && r.formingDate.None? && r.completionDate.None?
    ensures r.roomArea.None? && r.roomHeight.None? && r.coolingPower.None?
  {
    Request(Draft, user, None, now, None, None, None, None, None)
  }

  /** A request after a partial update of its room fields. */
  function WithRoom(r: Request, u: RequestUpdate): (r': Request)
    ensures r'.roomArea == (if u.roomArea.Some? then u.roomArea else r.roomArea)
    ensures r'.roomHeight == (if u.roomHeight.Some? then u.roomHeight else r.roomHeight)
    ensures r'.(roomArea := r.roomArea, roomHeight := r.roomHeight) == r
  {
    r.(roomArea := if u.roomArea.Some? then u.roomArea else r.roomArea,
       roomHeight := if u.roomHeight.Some? then u.roomHeight else r.roomHeight)
  }

  /** A catalog row after a partial edit of its title, description and TDP. */
  function WithComponentUpdate(c: Component, u: ComponentUpdate): (c': Component)
    ensures c'.title == (if u.title.Some? then u.title.value else c.title)
    ensures c'.description == (if u.description.Some? then u.description.value else c.description)
    ensures c'.tdp == (if u.tdp.Some? then u.tdp.value else c.tdp)
    ensures c'.status == c.status && c'.imageUrl == c.imageUrl
  {
    c.(title := if u.title.Some? then u.title.value else c.title,
       description := if u.description.Some? then u.description.value else c.description,
       tdp := if u.tdp.Some? then u.tdp.value else c.tdp)
  }

  /** The `status` query parameter filters only when it parses as an integer. */
  predicate StatusFilter(r: Request, q: ListQuery)
  {
    q.status == "" || GoStrings.Atoi(q.status).None? || StatusCode(r.status) == GoStrings.Atoi(q.status).value
  }

  /** A `status` parameter that parses as the code of status `s` keeps exactly the requests in status `s`. */
  lemma StatusFilterSelects(r: Request, q: ListQuery, s: Status)
    requires GoStrings.Atoi(q.status) == Some(StatusCode(s))
    ensures StatusFilter(r, q) <==> r.status == s
  {
    StatusCodeInjective(r.status, s);
  }

  /**
   * The `from`/`to` query parameters are inclusive bounds on the forming date when
   * they parse as dates; a request without a forming date fails any active bound.
   */
  predicate DateFilter(r: Request, q: ListQuery, parseDate: string -> Option<Time>)
  {
    (q.from == "" || parseDate(q.from).None? ||
      (r.formingDate.Some? && r.formingDate.value >= parseDate(q.from).value)) &&
    (q.to == "" || parseDate(q.to).None? ||
      (r.formingDate.Some? && r.formingDate.value <= parseDate(q.to).value))
  }

  /** Whether the listing query selects request `r`. */
  predicate Listed(r: Request, q: ListQuery, parseDate: string -> Option<Time>)
  {
    r.status != Deleted && r.status != Draft
    && (q.isModerator || r.creator == q.user)
    && StatusFilter(r, q)
    && DateFilter(r, q, parseDate)
  }

  /** A listed request is neither a draft nor deleted, and is the caller's own unless the caller moderates. */
  lemma ListedShape(r: Request, q: ListQuery, parseDate: string -> Option<Time>)
    requires Listed(r, q, parseDate)
    ensures StatusCode(r.status) != StatusCode(Draft) && StatusCode(r.status) != StatusCode(Deleted)
    ensures !q.isModerator ==> r.creator == q.user
  {
  }

  /** The DTO of a request without its components, as the listing builds it. */
  function SummaryDTO(id: nat, r: Request): (d: RequestDTO)
    ensures d.id == id && d.status == StatusCode(r.status) && d.creatorId == r.creator
    ensures d.moderatorId == r.moderator && d.components == []
  {
    RequestDTO(id, StatusCode(r.status), r.creationDate, r.creator, r.moderator,
      r.formingDate, r.completionDate, r.roomArea, r.roomHeight, r.coolingPower, [])
  }

  /** The catalog title filter: no filter for an empty title, else `title ILIKE '%<title>%'`. */
  predicate TitleMatches(c: Component, title: string, ilike: (string, string) -> bool)
  {
    title == "" || ilike(c.title, "%" + title + "%")
  }

  /** Whether a stored image URL is set and non-empty. */
  predicate HasImage(c: Component)
  {
    c.imageUrl.Some? && c.imageUrl.value != ""
  }

  /** The object a component's image URL names, when the URL is set and `url.Parse` accepts it. */
  function StoredObject(bucket: string, c: Component): (r: Option<string>)
    ensures r.Some? <==> HasImage(c) && ObjectNames.ParsedPath(c.imageUrl.value).Some?
  {
    if HasImage(c) then ObjectNames.ObjectNameFromUrl(bucket, c.imageUrl.value) else None
  }

  /**
   * A component whose URL an upload of `filename` wrote names the uploaded object,
   * so a later delete or re-upload removes that object, when the file's base name
   * holds no '?', '#', '%' or control byte.
   */
  lemma UploadedObjectIsStored(endpoint: string, bucket: string, filename: string, c: Component)
    requires ObjectNames.PlainUrlText(endpoint) && '/' !in endpoint && ObjectNames.PlainUrlText(bucket)
    requires ObjectNames.PlainUrlText(GoStrings.FilepathBase(filename))
    requires c.imageUrl == Some(ObjectNames.ImageUrl(endpoint, bucket, ObjectNames.ObjectName(filename)))
    ensures StoredObject(bucket, c) == Some(ObjectNames.ObjectName(filename))
  {
    ObjectNames.UploadedImageRoundTrip(endpoint, bucket, filename);
  }

  /** A link of request `id` to component `c`, with the catalog row when there is one. */
  function ViewOf(links: map<LinkKey, nat>, components: map<nat, Component>, id: nat, c: nat): (v: LinkView)
    requires (id, c) in links
  {
    LinkView(c, links[(id, c)], if c in components then Some(components[c]) else None)
  }

  /** The views of the links to the listed components, in the listed order. */
  function ViewsOf(links: map<LinkKey, nat>, components: map<nat, Component>, id: nat, cids: seq<nat>): (vs: seq<LinkView>)
    requires forall i :: 0 <= i < |cids| ==> (id, cids[i]) in links
    ensures |vs| == |cids|
    ensures forall i :: 0 <= i < |cids| ==> vs[i] == ViewOf(links, components, id, cids[i])
  {
    seq(|cids|, i requires 0 <= i < |cids| => ViewOf(links, components, id, cids[i]))
  }

  /** The views of strictly increasing component ids are in that order and cover every listed id. */
  lemma ViewsOfInOrder(links: map<LinkKey, nat>, components: map<nat, Component>, id: nat, cids: seq<nat>)
    requires forall i :: 0 <= i < |cids| ==> (id, cids[i]) in links
    requires Ids.StrictlyIncreasing(cids)
    ensures var vs := ViewsOf(links, components, id, cids);
      (forall i :: 0 <= i < |vs| ==>
         ((id, vs[i].componentId) in links && vs[i].count == links[(id, vs[i].componentId)]
          && vs[i].component == (if vs[i].componentId in components then Some(components[vs[i].componentId]) else None)))
      && (forall c :: c in cids ==> exists i :: 0 <= i < |vs| && vs[i].componentId == c)
      && (forall i, j :: 0 <= i < j < |vs| ==> vs[i].componentId < vs[j].componentId)
  {
    var vs := ViewsOf(links, components, id, cids);
    assert forall i :: 0 <= i < |vs| ==> vs[i].componentId == cids[i];
    forall c | c in cids ensures exists i :: 0 <= i < |vs| && vs[i].componentId == c {
      var i :| 0 <= i < |cids| && cids[i] == c;
      assert vs[i].componentId == c;
    }
  }

  class Repository {
    var requests: map<nat, Request>
    var links: map<LinkKey, nat>
    var components: map<nat, Component>
    /** The names of the objects in the image bucket. */
    var objects: set<string>
    /** The next value of the requests id sequence. */
    var nextId: nat
    const endpoint: string
    const bucket: string

    ghost predicate Valid()
      reads this
    {
      (forall id :: id in requests ==> id < nextId) &&
      (forall k :: k in links ==> k.0 in requests) &&
      AtMostOneDraft(requests)
    }

    constructor (endpoint: string, bucket: string, catalog: map<nat, Component>, stored: set<string>)
      ensures Valid()
      ensures this.endpoint == endpoint && this.bucket == bucket
      ensures requests == map[] && links == map[] && components == catalog && objects == stored
    {
      this.endpoint := endpoint;
      this.bucket := bucket;
      requests := map[];
      links := map[];
      components := catalog;
      objects := stored;
      nextId := 1;
    }

    /** The user's draft, if any; the lookup takes an arbitrary matching row. */
    method GetDraftRequest(user: nat, queryFails: bool) returns (r: Result<Option<nat>, RepoError>)
      ensures queryFails ==> r == Failure(QueryFailed)
      ensures !queryFails ==> r.Success?
      ensures r.Success? ==> (r.value.None? <==> Drafts(requests, user) == {})
      ensures r.Success? && r.value.Some? ==>
        (r.value.value in requests
         && requests[r.value.value].creator == user && requests[r.value.value].status == Draft)
    {
      if queryFails {
        return Failure(QueryFailed);
      }
      var drafts := Drafts(requests, user);
      if drafts == {} {
        r := Success(None);
      } else {
        var id :| id in drafts;
        r := Success(Some(id));
      }
    }

    /**
     * The links of request `id` with their preloaded components (None when the
     * catalog row is gone), one per linked component, in ascending component-id order.
     */
    function LinkViews(id: nat): (vs: seq<LinkView>)
      reads this
      ensures |vs| == |LinkedComponents(links, id)|
      ensures forall i :: 0 <= i < |vs| ==>
        ((id, vs[i].componentId) in links && vs[i].count == links[(id, vs[i].componentId)]
         && vs[i].component == (if vs[i].componentId in components then Some(components[vs[i].componentId]) else None))
      ensures forall c :: (id, c) in links ==> exists i :: 0 <= i < |vs| && vs[i].componentId == c
      ensures forall i, j :: 0 <= i < j < |vs| ==> vs[i].componentId < vs[j].componentId
    {
      var ls, cs := links, components;
      var cids := Ids.AscendingIds(LinkedComponents(ls, id));
      ViewsOfInOrder(ls, cs, id, cids);
      ViewsOf(ls, cs, id, cids)
    }

    /**
     * A request and its links. A non-moderator sees only their own requests; a
     * deleted request is an error for everyone.
     */
    method GetRequestWithComponents(id: nat, user: nat, isModerator: bool) returns (r: Result<RequestView, RepoError>)
      ensures r.Success? <==> id in requests && (isModerator || requests[id].creator == user) && requests[id].status != Deleted
      ensures r.Failure? ==>
        (r.error == if id !in requests || (!isModerator && requests[id].creator != user) then RecordNotFound else RequestDeleted)
      ensures r.Success? ==> r.value == RequestView(id, requests[id], LinkViews(id))
    {
      if id !in requests || (!isModerator && requests[id].creator != user) {
        return Failure(RecordNotFound);
      }
      var request := requests[id];
      if request.status == Deleted {
        return Failure(RequestDeleted);
      }
      r := Success(RequestView(id, request, LinkViews(id)));
    }

    /**
     * The requests list: never a draft or a deleted request, only the caller's own
     * for a non-moderator, filtered by status and forming date when those parse.
     * The store returns rows in no particular order; the model lists them by id.
     */
    method RequestsListFiltered(q: ListQuery, parseDate: string -> Option<Time>) returns (items: seq<RequestDTO>)
      ensures forall d :: d in items ==> d.status != StatusCode(Draft) && d.status != StatusCode(Deleted)
      ensures !q.isModerator ==> forall d :: d in items ==> d.creatorId == q.user
      ensures forall i :: 0 <= i < |items| ==>
        (items[i].id in requests
         && Listed(requests[items[i].id], q, parseDate)
         && items[i] == SummaryDTO(items[i].id, requests[items[i].id]))
      ensures forall id :: id in requests && Listed(requests[id], q, parseDate) ==>
        exists i :: 0 <= i < |items| && items[i].id == id
      ensures forall i, j :: 0 <= i < j < |items| ==> items[i].id < items[j].id
    {
      var selected := set id | id in requests && Listed(requests[id], q, parseDate);
      var ids := Ids.AscendingIds(selected);
      items := [];
      var i := 0;
      while i < |ids|
        invariant 0 <= i <= |ids|
        invariant |items| == i
        invariant forall j :: 0 <= j < i ==> ids[j] in selected && items[j] == SummaryDTO(ids[j], requests[ids[j]])
      {
        assert ids[i] in ids;
        items := items + [SummaryDTO(ids[i], requests[ids[i]])];
        i := i + 1;
      }
      forall id | id in requests && Listed(requests[id], q, parseDate)
        ensures exists k :: 0 <= k < |items| && items[k].id == id
      {
        assert id in selected;
        var k :| 0 <= k < |ids| && ids[k] == id;
        assert items[k].id == id;
      }
      forall k | 0 <= k < |items|
        ensures items[k].status != StatusCode(Draft) && items[k].status != StatusCode(Deleted)
        ensures !q.isModerator ==> items[k].creatorId == q.user
      {
        ListedShape(requests[ids[k]], q, parseDate);
      }
    }

    /** Writes only the supplied room fields; with neither supplied it writes nothing. */
    method UpdateRequestUserFields(id: nat, u: RequestUpdate)
      requires Valid()
      modifies this`requests
      ensures Valid()
      ensures u.roomArea.None? && u.roomHeight.None? ==> requests == old(requests)
      ensures requests == (if id in old(requests) then old(requests)[id := WithRoom(old(requests)[id], u)] else old(requests))
    {
      if u.roomArea.None? && u.roomHeight.None? {
        return;
      }
      if id in requests {
        requests := requests[id := WithRoom(requests[id], u)];
      }
    }

    /**
     * Turns the caller's complete draft into a formed request. The guards run in
     * order: the request exists, the caller created it, it is a draft, both room
     * fields are set.
     */
    method FormRequest(id: nat, caller: nat, now: Time) returns (r: Outcome<RepoError>)
      requires Valid()
      modifies this`requests
      ensures Valid()
      ensures id !in old(requests) ==> r == Fail(RecordNotFound)
      ensures id in old(requests) ==>
        var q := old(requests)[id];
        r == (if q.creator != caller then Fail(NotCreator)
              else if q.status != Draft then Fail(NotDraft)
              else if q.roomArea.None? || q.roomHeight.None? then Fail(RoomFieldsMissing)
              else Pass)
      ensures r.Fail? ==> requests == old(requests)
      ensures r.Pass? ==>
        (id in old(requests)
         && requests == old(requests)[id := old(requests)[id].(status := Formed, formingDate := Some(now))])
    {
      if id !in requests {
        return Fail(RecordNotFound);
      }
      var cooling := requests[id];
      if cooling.creator != caller {
        return Fail(NotCreator);
      }
      if cooling.status != Draft {
        return Fail(NotDraft);
      }
      if cooling.roomArea.None? || cooling.roomHeight.None? {
        return Fail(RoomFieldsMissing);
      }
      requests := requests[id := cooling.(status := Formed, formingDate := Some(now))];
      r := Pass;
    }

    /** Stores an externally computed cooling power; nothing else changes. */
    method UpdateCoolingResult(id: nat, power: real)
      requires Valid()
      modifies this`requests
      ensures Valid()
      ensures requests == (if id in old(requests) then old(requests)[id := old(requests)[id].(coolingPower := Some(power))] else old(requests))
    {
      if id in requests {
        requests := requests[id := requests[id].(coolingPower := Some(power))];
      }
    }

    /** The component ids of a request's links, collected one link at a time. */
    method CollectLinkedIds(id: nat) returns (componentIds: seq<nat>)
      ensures forall c :: c in componentIds <==> c in LinkedComponents(links, id)
    {
      var linked := Ids.AscendingIds(LinkedComponents(links, id));
      componentIds := [];
      var i := 0;
      while i < |linked|
        invariant 0 <= i <= |linked|
        invariant componentIds == linked[..i]
      {
        componentIds := componentIds + [linked[i]];
        i := i + 1;
      }
      assert linked[..|linked|] == linked;
    }

    /**
     * A moderator's decision on a formed request: it becomes completed or rejected,
     * records the moderator and completion time, and every linked component becomes
     * inactive. The cooling power and room fields are not touched.
     */
    method ResolveRequest(id: nat, moderator: nat, action: string, now: Time) returns (r: Outcome<RepoError>)
      requires Valid()
      modifies this`requests, this`components
      ensures Valid()
      ensures id !in old(requests) ==> r == Fail(RecordNotFound)
      ensures id in old(requests) && old(requests)[id].status != Formed ==> r == Fail(NotFormed)
      ensures id in old(requests) && old(requests)[id].status == Formed && action != "complete" && action != "reject" ==>
        r == Fail(InvalidAction)
      ensures r.Pass? <==> id in old(requests) && old(requests)[id].status == Formed && (action == "complete" || action == "reject")
      ensures r.Fail? ==> requests == old(requests) && components == old(components)
      ensures r.Pass? ==>
        requests == old(requests)[id := old(requests)[id].(
          status := if action == "complete" then Completed else Rejected,
          moderator := Some(moderator),
          completionDate := Some(now))]
        && components == Deactivate(old(components), LinkedComponents(links, id))
    {
      if id !in requests {
        return Fail(RecordNotFound);
      }
      var cooling := requests[id];
      if cooling.status != Formed {
        return Fail(NotFormed);
      }
      var status: Status;
      if action == "complete" {
        status := Completed;
      } else if action == "reject" {
        status := Rejected;
      } else {
        return Fail(InvalidAction);
      }
      var componentIds := CollectLinkedIds(id);
      if |componentIds| > 0 {
        components := Deactivate(components, set c | c in componentIds);
      } else {
        assert LinkedComponents(links, id) == {};
      }
      requests := requests[id := cooling.(status := status, moderator := Some(moderator), completionDate := Some(now))];
      r := Pass;
    }

    /**
     * Soft delete from any status: the request becomes deleted, its forming date is
     * overwritten with the deletion time, its links stay, and every linked component
     * becomes inactive.
     */
    method LogicallyDeleteRequest(id: nat, now: Time) returns (r: Outcome<RepoError>)
      requires Valid()
      modifies this`requests, this`components
      ensures Valid()
      ensures r.Pass? <==> id in old(requests)
      ensures r.Fail? ==> r.error == RecordNotFound && requests == old(requests) && components == old(components)
      ensures r.Pass? ==>
        requests == old(requests)[id := old(requests)[id].(status := Deleted, formingDate := Some(now))]
        && components == Deactivate(old(components), LinkedComponents(links, id))
    {
      if id !in requests {
        return Fail(RecordNotFound);
      }
      requests := requests[id := requests[id].(status := Deleted, formingDate := Some(now))];
      var componentIds := CollectLinkedIds(id);
      if |componentIds| > 0 {
        components := Deactivate(components, set c | c in componentIds);
      } else {
        assert LinkedComponents(links, id) == {};
      }
      r := Pass;
    }

    /**
     * Deletes one link and makes its component inactive; when the request is left
     * without links it is soft-deleted as well.
     */
    method RemoveComponentFromRequest(requestId: nat, componentId: nat, now: Time) returns (r: Outcome<RepoError>)
      requires Valid()
      modifies this`requests, this`links, this`components
      ensures Valid()
      ensures r.Pass? <==> (requestId, componentId) in old(links)
      ensures r.Fail? ==>
        (r.error == LinkNotFound
         && requests == old(requests) && links == old(links) && components == old(components))
      ensures r.Pass? ==>
        (links == old(links) - {(requestId, componentId)}
         && components == SetActive(old(components), componentId, false))
      ensures r.Pass? ==>
        (requests ==
          if LinkedComponents(links, requestId) == {}
          then old(requests)[requestId := old(requests)[requestId].(status := Deleted, formingDate := Some(now))]
          else old(requests))
    {
      if (requestId, componentId) !in links {
        return Fail(LinkNotFound);
      }
      links := links - {(requestId, componentId)};
      components := SetActive(components, componentId, false);
      var remaining := LinkedComponents(links, requestId);
      if |remaining| == 0 {
        requests := requests[requestId := requests[requestId].(status := Deleted, formingDate := Some(now))];
      }
      r := Pass;
    }

    /** Edits a link's count; a zero count changes nothing. */
    method UpdateMM(requestId: nat, componentId: nat, count: nat) returns (r: Outcome<RepoError>)
      requires Valid()
      modifies this`links
      ensures Valid()
      ensures r.Pass? <==> (requestId, componentId) in old(links)
      ensures r.Fail? ==> r.error == RecordNotFound && links == old(links)
      ensures r.Pass? ==> links == (if count == 0 then old(links) else old(links)[(requestId, componentId) := count])
    {
      if (requestId, componentId) !in links {
        return Fail(RecordNotFound);
      }
      if count == 0 {
        return Pass;
      }
      links := links[(requestId, componentId) := count];
      r := Pass;
    }

    /**
     * Adds a component to the user's draft, creating the draft when the user has
     * none. A component already in the draft is an error and the whole call is
     * undone. The new link's count is the zero value; the component becomes active.
     */
    method AddComponentToDraft(user: nat, componentId: nat, now: Time) returns (r: Outcome<RepoError>)
      requires Valid()
      modifies this`requests, this`links, this`components, this`nextId
      ensures Valid()
      ensures r.Fail? ==> r.error == AlreadyLinked
      ensures r.Fail? <==>
        (Drafts(old(requests), user) != {}
         && (Ids.SetMin(Drafts(old(requests), user)), componentId) in old(links))
      ensures r.Fail? ==>
        requests == old(requests) && links == old(links) && components == old(components) && nextId == old(nextId)
      ensures r.Pass? && Drafts(old(requests), user) == {} ==>
        requests == old(requests)[old(nextId) := NewDraft(user, now)]
        && nextId == old(nextId) + 1
        && links == old(links)[(old(nextId), componentId) := 0]
      ensures r.Pass? && Drafts(old(requests), user) != {} ==>
        requests == old(requests) && nextId == old(nextId)
        && links == old(links)[(Ids.SetMin(Drafts(old(requests), user)), componentId) := 0]
      ensures r.Pass? ==> components == SetActive(old(components), componentId, true)
      ensures r.Pass? ==> |Drafts(requests, user)| == 1
    {
      var savedRequests, savedNextId := requests, nextId;
      var drafts := Drafts(requests, user);
      var draftId: nat;
      if drafts == {} {
        draftId := nextId;
        requests := requests[nextId := NewDraft(user, now)];
        nextId := nextId + 1;
        assert Drafts(requests, user) == {draftId};
      } else {
        draftId := Ids.SetMin(drafts);
        DraftsAtMostOne(requests, user, draftId);
      }
      if (draftId, componentId) in links {
        requests, nextId := savedRequests, savedNextId;
        return Fail(AlreadyLinked);
      }
      links := links[(draftId, componentId) := 0];
      components := SetActive(components, componentId, true);
      r := Pass;
    }

    /** Edits only the supplied title, description and TDP of a catalog row. */
    method UpdateComponent(id: nat, u: ComponentUpdate) returns (r: Result<Component, RepoError>)
      modifies this`components
      ensures id !in old(components) ==> r == Failure(RecordNotFound) && components == old(components)
      ensures id in old(components) ==>
        r == Success(WithComponentUpdate(old(components)[id], u))
        && components == old(components)[id := r.value]
    {
      if id !in components {
        return Failure(RecordNotFound);
      }
      var component := WithComponentUpdate(components[id], u);
      components := components[id := component];
      r := Success(component);
    }

    /**
     * The catalog, filtered by title when a title is given, in ascending id order,
     * with the count of matching rows. `ilike(value, pattern)` is the database's
     * case-insensitive LIKE.
     */
    method ComponentsList(title: string, ilike: (string, string) -> bool) returns (items: seq<(nat, Component)>, total: nat)
      ensures total == |items|
      ensures forall i :: 0 <= i < |items| ==>
        (items[i].0 in components && items[i].1 == components[items[i].0]
         && TitleMatches(components[items[i].0], title, ilike))
      ensures forall id :: id in components && TitleMatches(components[id], title, ilike) ==>
        exists i :: 0 <= i < |items| && items[i].0 == id
      ensures forall i, j :: 0 <= i < j < |items| ==> items[i].0 < items[j].0
    {
      var cs := components;
      var matching := set id | id in cs && TitleMatches(cs[id], title, ilike);
      total := |matching|;
      var ids := Ids.AscendingIds(matching);
      assert forall i :: 0 <= i < |ids| ==> ids[i] in ids;
      items := seq(|ids|, i requires 0 <= i < |ids| => (ids[i], cs[ids[i]]));
      assert forall i :: 0 <= i < |items| ==> items[i].0 == ids[i];
      forall id | id in cs && TitleMatches(cs[id], title, ilike)
        ensures exists i :: 0 <= i < |items| && items[i].0 == id
      {
        assert id in matching;
        var k :| 0 <= k < |ids| && ids[k] == id;
        assert items[k].0 == id;
      }
    }

    /**
     * Deletes a catalog row, then tries to remove its image. The call succeeds once
     * the row is gone, whether or not the URL parses or the object removal works.
     */
    method DeleteComponent(id: nat, removeSucceeds: bool) returns (r: Outcome<RepoError>)
      modifies this`components, this`objects
      ensures r.Pass? <==> id in old(components)
      ensures r.Fail? ==> r.error == RecordNotFound && components == old(components) && objects == old(objects)
      ensures r.Pass? ==> components == old(components) - {id}
      ensures r.Pass? ==>
        (objects ==
          var stored := StoredObject(bucket, old(components)[id]);
          if stored.Some? && removeSucceeds then old(objects) - {stored.value} else old(objects))
    {
      if id !in components {
        return Fail(RecordNotFound);
      }
      var component := components[id];
      components := components - {id};
      if HasImage(component) {
        var objectName := ObjectNames.ObjectNameFromUrl(bucket, component.imageUrl.value);
        if objectName.None? {
          return Pass;
        }
        if removeSucceeds {
          objects := objects - {objectName.value};
        }
      }
      r := Pass;
    }

    /**
     * Replaces a component's image: the old object is removed (best effort, and not
     * undone when the upload then fails), the file is stored as
     * `Components/<base name>`, and the row's URL points at it.
     */
    method UploadComponentImage(id: nat, filename: string, removeSucceeds: bool, openSucceeds: bool, putSucceeds: bool)
      returns (r: Result<string, RepoError>)
      modifies this`components, this`objects
      ensures id !in old(components) ==> r == Failure(RecordNotFound) && components == old(components) && objects == old(objects)
      ensures id in old(components) ==>
        var stored := StoredObject(bucket, old(components)[id]);
        var removed := if stored.Some? && removeSucceeds then old(objects) - {stored.value} else old(objects);
        var name := ObjectNames.ObjectName(filename);
        if openSucceeds && putSucceeds then
          r == Success(ObjectNames.ImageUrl(endpoint, bucket, name))
          && objects == removed + {name}
          && components == old(components)[id := old(components)[id].(imageUrl := Some(r.value))]
        else
          r == Failure(if openSucceeds then UploadFailed else FileOpenFailed)
          && objects == removed && components == old(components)
    {
      if id !in components {
        return Failure(RecordNotFound);
      }
      var component := components[id];
      if HasImage(component) {
        var oldObjectName := ObjectNames.ObjectNameFromUrl(bucket, component.imageUrl.value);
        if oldObjectName.Some? && removeSucceeds {
          objects := objects - {oldObjectName.value};
        }
      }
      var objectName := ObjectNames.ObjectName(filename);
      if !openSucceeds {
        return Failure(FileOpenFailed);
      }
      if !putSucceeds {
        return Failure(UploadFailed);
      }
      objects := objects + {objectName};
      var imageUrl := ObjectNames.ImageUrl(endpoint, bucket, objectName);
      components := components[id := component.(imageUrl := Some(imageUrl))];
      r := Success(imageUrl);
    }
  }
}
