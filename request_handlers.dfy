/**
 * The request endpoints: path parameters are read with `strconv.Atoi` and
 * converted to an unsigned id, the caller is read from the context the middleware
 * filled, and each repository outcome is mapped to a status code. Request bodies
 * are `None` when they do not bind.
 */
module RequestHandlers {
  import opened Wrappers
  import opened Domain
  import opened Http
  import opened Helper
  import GoStrings
  import RequestStore

  const BindErrorText := "invalid request body"
  /** The description a path id that does not parse is reported with; `strconv`'s own text is not modelled. */
  const SyntaxErrorText := "strconv.Atoi: parsing: invalid syntax"

  /** A path id: `strconv.Atoi`, then the conversion to `uint` (a negative number wraps around). */
  function PathId(s: string): (r: Option<nat>)
    ensures r.Some? <==> GoStrings.Atoi(s).Some?
    ensures r.Some? ==> r.value < GoStrings.TwoTo64
    ensures r.Some? && GoStrings.Atoi(s).value >= 0 ==> r.value == GoStrings.Atoi(s).value
  {
    var i := GoStrings.Atoi(s);
    if i.None? then None else Some(GoStrings.ToUint(i.value))
  }

  /** Every id written in decimal within the range of `int` is read back as itself. */
  lemma PathIdOfDecimal(n: nat)
    requires n <= GoStrings.MaxInt64
    ensures PathId(GoStrings.Decimal(n)) == Some(n)
  {
    GoStrings.AtoiOfDecimal(n);
  }

  /**
   * The component entry of a link. When the catalog row is gone the preloaded
   * component is the zero value, so only the count is carried over.
   */
  function ComponentEntry(v: RequestStore.LinkView): (e: ComponentInRequest)
    ensures e.count == v.count
    ensures v.component.Some? ==>
      (e.componentId == v.componentId && e.title == v.component.value.title
       && e.description == v.component.value.description
       && e.tdp == v.component.value.tdp && e.imageUrl == v.component.value.imageUrl)
    ensures v.component.None? ==> e == ComponentInRequest(0, "", "", 0, None, v.count)
  {
    match v.component
    case Some(c) => ComponentInRequest(v.componentId, c.title, c.description, c.tdp, c.imageUrl, v.count)
    case None => ComponentInRequest(0, "", "", 0, None, v.count)
  }

  /** The detailed DTO of a request: the summary fields and one entry per link, in link order. */
  function DetailDTO(view: RequestStore.RequestView): (d: RequestDTO)
    ensures d.id == view.id && d.status == StatusCode(view.request.status) && d.creatorId == view.request.creator
    ensures d.moderatorId == view.request.moderator
    ensures |d.components| == |view.links|
    ensures forall i :: 0 <= i < |view.links| ==> d.components[i] == ComponentEntry(view.links[i])
  {
    RequestStore.SummaryDTO(view.id, view.request).(components :=
      seq(|view.links|, i requires 0 <= i < |view.links| => ComponentEntry(view.links[i])))
  }

  /** Whether `GetRequestWithComponents` succeeds for the caller. */
  predicate Visible(requests: map<nat, Request>, id: nat, user: nat, isModerator: bool)
  {
    id in requests && (isModerator || requests[id].creator == user) && requests[id].status != Deleted
  }

  /**
   * The cart badge, as written: with no draft the nil draft is dereferenced and the
   * handler panics, which the recovery middleware answers with 500.
   */
  method GetCartBadge(repo: RequestStore.Repository, keys: Keys, queryFails: bool) returns (resp: Response)
    requires repo.Valid()
    ensures GetUserIdFromContext(keys).Failure? ==>
      resp == Error(StatusUnauthorized, GetUserIdFromContext(keys).error)
    ensures GetUserIdFromContext(keys).Success? ==>
      var user := GetUserIdFromContext(keys).value;
      var drafts := RequestStore.Drafts(repo.requests, user);
      if queryFails then resp == Response(StatusOK, CartBody(None, 0))
      else if drafts == {} then resp == Response(StatusInternalServerError, PanicBody)
      else exists d :: (drafts == {d}
        && resp == Response(StatusOK, CartBody(Some(d), |RequestStore.LinkedComponents(repo.links, d)|)))
  {
    var userId := GetUserIdFromContext(keys);
    if userId.Failure? {
      return Error(StatusUnauthorized, userId.error);
    }
    var user := userId.value;
    var draft := repo.GetDraftRequest(user, queryFails);
    if draft.Failure? {
      return Response(StatusOK, CartBody(None, 0));
    }
    if draft.value.None? {
      return Response(StatusInternalServerError, PanicBody);
    }
    var d := draft.value.value;
    RequestStore.DraftsAtMostOne(repo.requests, user, d);
    var full := repo.GetRequestWithComponents(d, user, false);
    // The draft is the caller's and not deleted, so the lookup's error branch is never taken.
    assert full.Success?;
    resp := Response(StatusOK, CartBody(Some(full.value.id), |full.value.links|));
  }

  /** The cart badge as intended: a user without a draft has an empty cart. */
  method GetCartBadgeIntended(repo: RequestStore.Repository, keys: Keys, queryFails: bool) returns (resp: Response)
    requires repo.Valid()
    ensures GetUserIdFromContext(keys).Failure? ==>
      resp == Error(StatusUnauthorized, GetUserIdFromContext(keys).error)
    ensures GetUserIdFromContext(keys).Success? ==> resp.code == StatusOK && resp.body.CartBody?
    ensures GetUserIdFromContext(keys).Success? ==>
      var user := GetUserIdFromContext(keys).value;
      var drafts := RequestStore.Drafts(repo.requests, user);
      if queryFails || drafts == {} then resp.body == CartBody(None, 0)
      else exists d :: (drafts == {d}
        && resp.body == CartBody(Some(d), |RequestStore.LinkedComponents(repo.links, d)|))
  {
    var userId := GetUserIdFromContext(keys);
    if userId.Failure? {
      return Error(StatusUnauthorized, userId.error);
    }
    var user := userId.value;
    var draft := repo.GetDraftRequest(user, queryFails);
    if draft.Failure? || draft.value.None? {
      return Response(StatusOK, CartBody(None, 0));
    }
    var d := draft.value.value;
    RequestStore.DraftsAtMostOne(repo.requests, user, d);
    var full := repo.GetRequestWithComponents(d, user, false);
    // The draft is the caller's and not deleted, so the lookup's error branch is never taken.
    assert full.Success?;
    resp := Response(StatusOK, CartBody(Some(full.value.id), |full.value.links|));
  }

  /**
   * The caller's request listing. The moderator flag comes from the context, so a
   * non-moderator only ever sees their own formed, completed and rejected requests.
   */
  method ListRequests(repo: RequestStore.Repository, keys: Keys, status: string, from: string, to: string,
                      parseDate: string -> Option<Time>) returns (resp: Response)
    ensures GetUserIdFromContext(keys).Failure? ==>
      resp == Error(StatusUnauthorized, GetUserIdFromContext(keys).error)
    ensures GetUserIdFromContext(keys).Success? ==>
      var q := RequestStore.ListQuery(GetUserIdFromContext(keys).value, IsUserModerator(keys), status, from, to);
      resp.code == StatusOK && resp.body.ListBody?
      && (forall d :: d in resp.body.items ==>
            d.status != StatusCode(Draft) && d.status != StatusCode(Deleted)
            && (!IsUserModerator(keys) ==> d.creatorId == q.user))
      && (forall i :: 0 <= i < |resp.body.items| ==>
            (resp.body.items[i].id in repo.requests
             && RequestStore.Listed(repo.requests[resp.body.items[i].id], q, parseDate)))
      && (forall id :: id in repo.requests && RequestStore.Listed(repo.requests[id], q, parseDate) ==>
            exists i :: 0 <= i < |resp.body.items| && resp.body.items[i].id == id)
      && (forall i :: 0 <= i < |resp.body.items| ==>
            resp.body.items[i] == RequestStore.SummaryDTO(resp.body.items[i].id, repo.requests[resp.body.items[i].id]))
      && (forall i, j :: 0 <= i < j < |resp.body.items| ==> resp.body.items[i].id < resp.body.items[j].id)
  {
    var userId := GetUserIdFromContext(keys);
    if userId.Failure? {
      return Error(StatusUnauthorized, userId.error);
    }
    var isModerator := IsUserModerator(keys);
    var items := repo.RequestsListFiltered(RequestStore.ListQuery(userId.value, isModerator, status, from, to), parseDate);
    resp := Response(StatusOK, ListBody(items));
  }

  /**
   * One request with its components. Every lookup failure, whether the request is
   * missing, another user's or deleted, is answered with 404.
   */
  method GetRequest(repo: RequestStore.Repository, keys: Keys, idParam: string) returns (resp: Response)
    ensures PathId(idParam).None? ==> resp == Error(StatusBadRequest, SyntaxErrorText)
    ensures PathId(idParam).Some? && GetUserIdFromContext(keys).Failure? ==>
      resp == Error(StatusBadRequest, GetUserIdFromContext(keys).error)
    ensures PathId(idParam).Some? && GetUserIdFromContext(keys).Success? ==>
      var id := PathId(idParam).value;
      if Visible(repo.requests, id, GetUserIdFromContext(keys).value, IsUserModerator(keys)) then
        resp == Response(StatusOK, RequestBody(DetailDTO(RequestStore.RequestView(id, repo.requests[id], repo.LinkViews(id)))))
      else
        resp.code == StatusNotFound
  {
    var id := PathId(idParam);
    if id.None? {
      return Error(StatusBadRequest, SyntaxErrorText);
    }
    var isModerator := IsUserModerator(keys);
    var userId := GetUserIdFromContext(keys);
    if userId.Failure? {
      return Error(StatusBadRequest, userId.error);
    }
    var found := repo.GetRequestWithComponents(id.value, userId.value, isModerator);
    if found.Failure? {
      return Error(StatusNotFound, RequestStore.Message(found.error));
    }
    var view := found.value;
    var components := ComponentEntries(view.links);
    var dto := RequestStore.SummaryDTO(view.id, view.request).(components := components);
    assert dto.components == DetailDTO(view).components;
    resp := Response(StatusOK, RequestBody(dto));
  }

  /** The component entries of a request's links, appended one link at a time. */
  method ComponentEntries(links: seq<RequestStore.LinkView>) returns (entries: seq<ComponentInRequest>)
    ensures |entries| == |links|
    ensures forall j :: 0 <= j < |links| ==> entries[j] == ComponentEntry(links[j])
  {
    entries := [];
    var i := 0;
    while i < |links|
      invariant 0 <= i <= |links|
      invariant |entries| == i
      invariant forall j :: 0 <= j < i ==> entries[j] == ComponentEntry(links[j])
    {
      entries := entries + [ComponentEntry(links[i])];
      i := i + 1;
    }
  }

  /**
   * Edits the room fields of the caller's own request. Ownership is checked before
   * the body is read: another user's or a missing request is answered with 403, a
   * deleted one with 404, and in both cases nothing changes.
   */
  method UpdateRequest(repo: RequestStore.Repository, keys: Keys, idParam: string, body: Option<RequestUpdate>)
    returns (resp: Response)
    requires repo.Valid()
    modifies repo`requests
    ensures repo.Valid()
    ensures PathId(idParam).None? ==> resp.code == StatusBadRequest
    ensures PathId(idParam).Some? && GetUserIdFromContext(keys).Failure? ==> resp.code == StatusBadRequest
    ensures PathId(idParam).Some? && GetUserIdFromContext(keys).Success? ==>
      var id := PathId(idParam).value;
      var user := GetUserIdFromContext(keys).value;
      if id !in old(repo.requests) || old(repo.requests)[id].creator != user then
        resp == Error(StatusForbidden, "access denied or request not found")
      else if old(repo.requests)[id].status == Deleted then
        resp.code == StatusNotFound
      else if body.None? then
        resp == Error(StatusBadRequest, BindErrorText)
      else
        resp == Response(StatusNoContent, MessageBody)
        && repo.requests == old(repo.requests)[id := RequestStore.WithRoom(old(repo.requests)[id], body.value)]
    ensures resp.code != StatusNoContent ==> repo.requests == old(repo.requests)
  {
    var id := PathId(idParam);
    if id.None? {
      return Error(StatusBadRequest, SyntaxErrorText);
    }
    var userId := GetUserIdFromContext(keys);
    if userId.Failure? {
      return Error(StatusBadRequest, userId.error);
    }
    var found := repo.GetRequestWithComponents(id.value, userId.value, false);
    if found.Failure? {
      if found.error == RequestStore.RecordNotFound {
        return Error(StatusForbidden, "access denied or request not found");
      }
      return Error(StatusNotFound, RequestStore.Message(found.error));
    }
    if body.None? {
      return Error(StatusBadRequest, BindErrorText);
    }
    repo.UpdateRequestUserFields(id.value, body.value);
    resp := Response(StatusNoContent, MessageBody);
  }

  /** Forms the caller's draft; every repository refusal is answered with 400. */
  method FormRequest(repo: RequestStore.Repository, keys: Keys, idParam: string, now: Time) returns (resp: Response)
    requires repo.Valid()
    modifies repo`requests
    ensures repo.Valid()
    ensures PathId(idParam).None? ==> resp.code == StatusBadRequest
    ensures PathId(idParam).Some? && GetUserIdFromContext(keys).Failure? ==> resp.code == StatusUnauthorized
    ensures resp.code == StatusNoContent <==>
      (PathId(idParam).Some? && GetUserIdFromContext(keys).Success?
       && var id := PathId(idParam).value;
          id in old(repo.requests) && old(repo.requests)[id].creator == GetUserIdFromContext(keys).value
          && old(repo.requests)[id].status == Draft
          && old(repo.requests)[id].roomArea.Some? && old(repo.requests)[id].roomHeight.Some?)
    ensures PathId(idParam).Some? && GetUserIdFromContext(keys).Success? && resp.code != StatusNoContent ==>
      resp.code == StatusBadRequest
    ensures resp.code != StatusNoContent ==> repo.requests == old(repo.requests)
    ensures resp.code == StatusNoContent ==>
      var id := PathId(idParam).value;
      repo.requests == old(repo.requests)[id := old(repo.requests)[id].(status := Formed, formingDate := Some(now))]
    ensures resp.code in {StatusNoContent, StatusBadRequest, StatusUnauthorized}
  {
    var id := PathId(idParam);
    if id.None? {
      return Error(StatusBadRequest, SyntaxErrorText);
    }
    var userId := GetUserIdFromContext(keys);
    if userId.Failure? {
      return Error(StatusUnauthorized, userId.error);
    }
    var formed := repo.FormRequest(id.value, userId.value, now);
    if formed.Fail? {
      return Error(StatusBadRequest, RequestStore.Message(formed.error));
    }
    resp := Response(StatusNoContent, MessageBody);
  }

  /**
   * A moderator's decision. The body must name an action; the authenticated caller
   * is recorded as the moderator, and every repository refusal is answered with 400.
   */
  method ResolveRequest(repo: RequestStore.Repository, keys: Keys, idParam: string, action: Option<string>, now: Time)
    returns (resp: Response)
    requires repo.Valid()
    modifies repo`requests, repo`components
    ensures repo.Valid()
    ensures PathId(idParam).None? ==> resp.code == StatusBadRequest
    ensures PathId(idParam).Some? && (action.None? || action.value == "") ==> resp == Error(StatusBadRequest, BindErrorText)
    ensures PathId(idParam).Some? && action.Some? && action.value != "" && GetUserIdFromContext(keys).Failure? ==>
      resp.code == StatusUnauthorized
    ensures (PathId(idParam).Some? && action.Some? && action.value != "" && GetUserIdFromContext(keys).Success?
             && resp.code != StatusNoContent) ==> resp.code == StatusBadRequest
    ensures resp.code == StatusNoContent <==>
      (PathId(idParam).Some? && action.Some? && (action.value == "complete" || action.value == "reject")
       && GetUserIdFromContext(keys).Success?
       && PathId(idParam).value in old(repo.requests) && old(repo.requests)[PathId(idParam).value].status == Formed)
    ensures resp.code != StatusNoContent ==> repo.requests == old(repo.requests) && repo.components == old(repo.components)
    ensures resp.code == StatusNoContent ==>
      (PathId(idParam).Some? && action.Some? && GetUserIdFromContext(keys).Success?
       && var id := PathId(idParam).value;
          id in old(repo.requests) && old(repo.requests)[id].status == Formed
          && repo.requests == old(repo.requests)[id := old(repo.requests)[id].(
               status := if action.value == "complete" then Completed else Rejected,
               moderator := Some(GetUserIdFromContext(keys).value),
               completionDate := Some(now))]
          && repo.components == RequestStore.Deactivate(old(repo.components), RequestStore.LinkedComponents(repo.links, id)))
    ensures resp.code in {StatusNoContent, StatusBadRequest, StatusUnauthorized}
  {
    var id := PathId(idParam);
    if id.None? {
      return Error(StatusBadRequest, SyntaxErrorText);
    }
    if action.None? || action.value == "" {
      return Error(StatusBadRequest, BindErrorText);
    }
    var userId := GetUserIdFromContext(keys);
    if userId.Failure? {
      return Error(StatusUnauthorized, userId.error);
    }
    var resolved := repo.ResolveRequest(id.value, userId.value, action.value, now);
    if resolved.Fail? {
      return Error(StatusBadRequest, RequestStore.Message(resolved.error));
    }
    resp := Response(StatusNoContent, MessageBody);
  }

  /** Soft-deletes any request by id; the caller is not consulted. */
  method DeleteRequest(repo: RequestStore.Repository, idParam: string, now: Time) returns (resp: Response)
    requires repo.Valid()
    modifies repo`requests, repo`components
    ensures repo.Valid()
    ensures PathId(idParam).None? ==> resp.code == StatusBadRequest
    ensures PathId(idParam).Some? ==>
      var id := PathId(idParam).value;
      if id in old(repo.requests) then
        resp == Response(StatusNoContent, MessageBody)
        && repo.requests == old(repo.requests)[id := old(repo.requests)[id].(status := Deleted, formingDate := Some(now))]
        && repo.components == RequestStore.Deactivate(old(repo.components), RequestStore.LinkedComponents(repo.links, id))
      else
        resp.code == StatusInternalServerError
    ensures resp.code != StatusNoContent ==> repo.requests == old(repo.requests) && repo.components == old(repo.components)
  {
    var id := PathId(idParam);
    if id.None? {
      return Error(StatusBadRequest, SyntaxErrorText);
    }
    var deleted := repo.LogicallyDeleteRequest(id.value, now);
    if deleted.Fail? {
      return Error(StatusInternalServerError, RequestStore.Message(deleted.error));
    }
    resp := Response(StatusNoContent, MessageBody);
  }

  /** Removes a link from any request by ids; the caller is not consulted. */
  method RemoveComponentFromRequest(repo: RequestStore.Repository, idParam: string, componentParam: string, now: Time)
    returns (resp: Response)
    requires repo.Valid()
    modifies repo`requests, repo`links, repo`components
    ensures repo.Valid()
    ensures PathId(idParam).None? || PathId(componentParam).None? ==> resp.code == StatusBadRequest
    ensures resp.code == StatusNoContent <==>
      (PathId(idParam).Some? && PathId(componentParam).Some?
       && (PathId(idParam).value, PathId(componentParam).value) in old(repo.links))
    ensures resp.code != StatusNoContent ==>
      (resp.code == StatusBadRequest
       && repo.requests == old(repo.requests) && repo.links == old(repo.links) && repo.components == old(repo.components))
    ensures resp.code == StatusNoContent ==>
      var rid, cid := PathId(idParam).value, PathId(componentParam).value;
      repo.links == old(repo.links) - {(rid, cid)}
      && repo.components == RequestStore.SetActive(old(repo.components), cid, false)
      && repo.requests ==
           if RequestStore.LinkedComponents(repo.links, rid) == {}
           then old(repo.requests)[rid := old(repo.requests)[rid].(status := Deleted, formingDate := Some(now))]
           else old(repo.requests)
  {
    var rid := PathId(idParam);
    if rid.None? {
      return Error(StatusBadRequest, SyntaxErrorText);
    }
    var cid := PathId(componentParam);
    if cid.None? {
      return Error(StatusBadRequest, SyntaxErrorText);
    }
    var removed := repo.RemoveComponentFromRequest(rid.value, cid.value, now);
    if removed.Fail? {
      return Error(StatusBadRequest, RequestStore.Message(removed.error));
    }
    resp := Response(StatusNoContent, MessageBody);
  }

  /** Edits a link's count; only the count from the body is passed on. */
  method UpdateComponentInRequest(repo: RequestStore.Repository, idParam: string, componentParam: string, count: Option<nat>)
    returns (resp: Response)
    requires repo.Valid()
    modifies repo`links
    ensures repo.Valid()
    ensures resp.code == StatusNoContent <==>
      (PathId(idParam).Some? && PathId(componentParam).Some? && count.Some?
       && (PathId(idParam).value, PathId(componentParam).value) in old(repo.links))
    ensures resp.code != StatusNoContent ==> resp.code == StatusBadRequest && repo.links == old(repo.links)
    ensures resp.code == StatusNoContent ==>
      var key := (PathId(idParam).value, PathId(componentParam).value);
      repo.links == if count.value == 0 then old(repo.links) else old(repo.links)[key := count.value]
  {
    var rid := PathId(idParam);
    if rid.None? {
      return Error(StatusBadRequest, SyntaxErrorText);
    }
    var cid := PathId(componentParam);
    if cid.None? {
      return Error(StatusBadRequest, SyntaxErrorText);
    }
    if count.None? {
      return Error(StatusBadRequest, BindErrorText);
    }
    var updated := repo.UpdateMM(rid.value, cid.value, count.value);
    if updated.Fail? {
      return Error(StatusBadRequest, RequestStore.Message(updated.error));
    }
    resp := Response(StatusNoContent, MessageBody);
  }
}
