# Cooling request service — a Dafny model

The service is a Go web backend for planning server-room cooling. Users fill a
single *draft* request (their cart) with catalog components, set the room area
and height, and *form* the request. A moderator then *completes* or *rejects*
it. Every request can be soft-deleted. Accounts are stored with bcrypt
hashes. A login issues a signed token; a logout blacklists the token in a
key-value store. Every route outside the public ones passes an authentication
gate, and catalog edits and request resolution also pass a moderator gate.

The model covers four parts of the program:

- the repository behind the request lifecycle and the component catalog
  (`RequestStore`, with the image-bucket names in `ObjectNames`);
- the credential store (`Users`);
- the authentication gate: the blacklist client (`Blacklist`), the context
  helpers (`Helper`), the two middlewares (`Middleware`), registration, login
  and logout (`UserHandlers`), and the route table (`Routes`);
- the request handlers (`RequestHandlers`).

`GoStrings` models the Go library functions these parts rely on: 
`strings.HasPrefix`/`TrimPrefix`, `strconv.Atoi`, the `uint` conversion and
`filepath.Base`. `Ids` models ordering by primary key.

Tables are maps keyed by id. The link table is a map from (request id,
component id) to a count. Objects that the program updates in place are
classes: the repository, the user store, the blacklist client, a request
context and a router group. Every mutating method states its whole new state.
Pure logic consists of functions with lemmas about them.

Outside effects are parameters:

- bcrypt is a `hash` oracle that may fail, plus a `verify` oracle;
- token signing (`sign`) and token parsing with its signature check (`parse`)
  are oracles;
- date parsing (`parseDate`) and the database's `ILIKE` (`ilike`) are oracles;
- the clock is a `now: Time` argument;
- the failures the model distinguishes are boolean flags: a query or insert
  that fails, a key-value server that does not answer, an object removal, a
  file open or an upload that fails.

`url.Parse` is written out as far as the stored image path needs it: the cut
at '#' and at '?', the refusal of control bytes and of bad `%` escapes, the
host of an `http://` URL, and the percent-decoding of the path.

## Model

| member | source | states |
|---|---|---|
| Domain.StatusCode | internal/app/ds/Cooling.go:8 | each status is stored as an integer from 1 to 5 |
| Domain.StatusCodeInjective | internal/app/ds/Cooling.go:8 | distinct statuses have distinct codes, so a status filter selects exactly one status |
| Ids.SetMin | internal/app/repository/users.go:69 | `First` returns the matching row with the least id: that id is in the set and no id in it is smaller |
| Ids.AscendingIds | internal/app/repository/Components.go:34 | `ORDER BY id` lists every matching id exactly once, strictly increasing |
| GoStrings.TrimPrefix | internal/app/handler/middleware.go:34 | trimming a present prefix leaves the rest, so that prefix plus the result is the input; an absent prefix leaves the input unchanged |
| GoStrings.TrimPrefixOfConcat | internal/app/redis/redis.go:43 | adding a prefix and then trimming it gives back the original string |
| GoStrings.Atoi | internal/app/handler/CoolRequest.go:103 | a parsed value lies within the 64-bit `int` range and comes from a non-empty string |
| GoStrings.Decimal | internal/app/handler/CoolRequest.go:103 | an id written in a path is a non-empty string of digits with no sign |
| GoStrings.DecimalValueOfDecimal | internal/app/handler/CoolRequest.go:103 | the digits of `n` have the value `n` |
| GoStrings.AtoiOfDecimal | internal/app/handler/CoolRequest.go:103 | `strconv.Atoi` on the decimal form of any id up to the largest `int` returns that id |
| GoStrings.ToUint | internal/app/handler/CoolRequest.go:114 | `uint(i)` is below 2^64; it keeps a non-negative value and wraps a negative one by 2^64 |
| GoStrings.StripTrailingSlashes | internal/app/repository/Components.go:192 | the result is a prefix of the path that does not end in '/', and every character removed was '/' |
| GoStrings.AfterLastSlash | internal/app/repository/Components.go:192 | the result is the suffix after the last '/', contains no '/', and is preceded by '/' when shorter than the path |
| GoStrings.FilepathBaseShape | internal/app/repository/Components.go:192 | `filepath.Base` is never empty, and contains no '/' unless it is the root |
| GoStrings.AfterLastSlashNoSlash | internal/app/repository/Components.go:192 | a string without '/' is its own last element |
| GoStrings.FilepathBaseIdempotent | internal/app/repository/Components.go:192-193 | taking the base of a base changes nothing, so an uploaded file keeps one stable object name |
| GoStrings.FilepathBase | internal/app/repository/Components.go:192 | `filepath.Base`: "." for an empty path, "/" for a path of slashes only, and otherwise the last element after trailing slashes are stripped, never longer than the path |
| GoStrings.BaseOfPlainName | internal/app/repository/Components.go:192 | a non-empty file name without '/' is its own base name |
| ObjectNames.ObjectName | internal/app/repository/Components.go:192-193 | an uploaded file is stored under `Components/`, followed by exactly the file's base name |
| ObjectNames.ObjectNameOfBase | internal/app/repository/Components.go:192-193 | uploading a file, or a file named by its base name, stores the same object |
| ObjectNames.ImageUrl | internal/app/repository/Components.go:209 | the stored URL is `http://<endpoint>/<bucket>/` followed by the object name as it is, so trimming that prefix gives the name back |
| ObjectNames.FirstIndex | internal/app/repository/Components.go:113 | the position where `url.Parse` cuts (at '#', at '?', and at the end of the host): no earlier character is the separator, and the character there is the separator when the string has one |
| ObjectNames.Unescape | internal/app/repository/Components.go:113 | the path decoding of `url.Parse`: `%XY` with two hex digits becomes one character, any other '%' is an error, and the result is never longer than the input and equals it when no escape was decoded |
| ObjectNames.PathOfRest | internal/app/repository/Components.go:113 | the host split of `url.Parse`: a URL without `http://` is all path, and an `http://` URL with no '/' after the host has an empty path |
| ObjectNames.UnescapePlain | internal/app/repository/Components.go:113 | text without '%' is kept unchanged by the path decoding, in front of whatever follows it |
| ObjectNames.ParsedPath | internal/app/repository/Components.go:113 | `url.Parse` succeeds only when the fragment decodes, and then the path is taken from the text before the fragment and the query |
| ObjectNames.ObjectNameFromUrl | internal/app/repository/Components.go:113-119 | the name is read back exactly when the URL parses; it is the parsed path with the `/<bucket>/` prefix removed, or the whole path when that prefix is absent |
| ObjectNames.ParsedPathNoFragment | internal/app/repository/Components.go:113 | a URL without '#' or control byte parses as its text before the first '?' |
| ObjectNames.ParsedPathOfHttp | internal/app/repository/Components.go:113 | an `http://<host><path>` URL whose host and path hold no '?', '#' or control byte parses to the decoded path |
| ObjectNames.ParsedPathWithQuery | internal/app/repository/Components.go:113 | everything after the first '?' is the query, which the path does not include |
| ObjectNames.ObjectNameRoundTrip | internal/app/repository/Components.go:209 | the object name read back from the URL that `UploadComponentImage` stores (read at lines 119 and 187) is the name it uploaded, when the endpoint, bucket and name hold no '?', '#', '%' or control byte |
| ObjectNames.UploadedImageRoundTrip | internal/app/repository/Components.go:187-209 | for a file whose base name holds no '?', '#', '%' or control byte, the name read back from the stored URL is the uploaded object |
| ObjectNames.QueryCutsName | internal/app/repository/Components.go:113-119 | a '?' in the stored object name ends the name that is read back |
| ObjectNames.QueryInFileNameCutsName | internal/app/repository/Components.go:192-209 | an uploaded file named `<stem>?<rest>` is stored under that whole name, yet the name read back from its URL is `Components/<stem>` |
| ObjectNames.HexDigit | internal/app/repository/Components.go:209 | each value below 16 has a hex digit that decodes to it |
| ObjectNames.Escape | internal/app/repository/Components.go:209 | an escaped name holds no '?', '#' or control byte |
| ObjectNames.EscapedImageUrl | internal/app/repository/Components.go:209 | the corrected URL is the stored URL of the escaped name |
| ObjectNames.EscapePlain | internal/app/repository/Components.go:209 | a name with no '%', '?', '#' or control byte is written unescaped |
| ObjectNames.EscapedUrlOfPlainName | internal/app/repository/Components.go:209 | for such a name the corrected URL is exactly the URL the program stores |
| ObjectNames.BucketPathShape | internal/app/repository/Components.go:209 | the path `/<bucket>/<name>` of an escaped name holds no '?', '#' or control byte, and its prefix no '%' |
| ObjectNames.UnescapeEscape | internal/app/repository/Components.go:209 | decoding an escaped name gives back the name |
| ObjectNames.EscapedImageRoundTrip | internal/app/repository/Components.go:187-209 | with the object name escaped in the URL, the name read back is the uploaded object for every file name |
| RequestStore.StatusFilter | internal/app/repository/CoolRequest.go:96-100 | a `status` parameter filters only when it is non-empty and parses as an integer, and then keeps the requests stored with that code |
| RequestStore.DateFilter | internal/app/repository/CoolRequest.go:102-112 | `from` and `to` are inclusive bounds on the forming date when they parse; a request without a forming date fails any active bound |
| RequestStore.Listed | internal/app/repository/CoolRequest.go:90-112 | the listing query: not deleted, not a draft, the caller's own unless the caller moderates, and passing the status and date filters |
| RequestStore.StatusFilterSelects | internal/app/repository/CoolRequest.go:96-100 | a status parameter that parses as a status code keeps exactly the requests in that status, since distinct statuses have distinct codes |
| RequestStore.NewDraft | internal/app/repository/Components.go:137-141 | the draft created for a user: status draft, that creator, created now, with no moderator, dates, room fields or cooling power |
| RequestStore.TitleMatches | internal/app/repository/Components.go:27-28 | an empty title filters nothing; otherwise the title must match `%<title>%` under `ILIKE` |
| RequestStore.StoredObject | internal/app/repository/Components.go:113-119 | a component names a stored object exactly when its URL is set, non-empty and accepted by `url.Parse` |
| RequestStore.UploadedObjectIsStored | internal/app/repository/Components.go:113-119 | a component whose URL an upload wrote names the uploaded object, so a later delete or re-upload removes that object, when the file's base name holds no '?', '#', '%' or control byte |
| RequestStore.Drafts | internal/app/repository/CoolRequest.go:17-19 | an id is a draft of the user exactly when the row exists, the user created it, and its status is draft |
| RequestStore.DraftsAtMostOne | internal/app/repository/Components.go:134-149 | under the one-draft invariant a user's drafts are a singleton once one is known |
| RequestStore.LinkedComponents | internal/app/repository/CoolRequest.go:238-240 | a component is linked to the request exactly when its link row exists |
| RequestStore.Deactivate | internal/app/repository/CoolRequest.go:244-246 | the bulk update sets only the listed components inactive; all other rows and all other fields stay the same |
| RequestStore.SetActive | internal/app/repository/Components.go:166 | the single-row update sets one component's active flag and leaves every other row unchanged |
| RequestStore.WithRoom | internal/app/repository/CoolRequest.go:146-156 | only the supplied room fields are written, and nothing else in the request changes |
| RequestStore.WithComponentUpdate | internal/app/repository/Components.go:64-75 | only the supplied title, description and TDP are written; the active flag and image URL are kept |
| RequestStore.ListedShape | internal/app/repository/CoolRequest.go:91-95 | a listed request is neither a draft nor deleted, and is the caller's own unless the caller is a moderator |
| RequestStore.SummaryDTO | internal/app/repository/CoolRequest.go:121-136 | a listing entry carries the request's id, status code, creator and moderator, and no components |
| RequestStore.Repository.constructor | internal/app/repository/repository.go:84-122 | an empty request store with the given catalog and bucket satisfies the invariant |
| RequestStore.Repository.GetDraftRequest | internal/app/repository/CoolRequest.go:15-31 | a failing query is an error; otherwise the result is none exactly when the user has no draft, and when present it is one of that user's drafts |
| RequestStore.Repository.LinkViews | internal/app/repository/CoolRequest.go:36-39 | the preloaded links of a request: one per linked component, in ascending id order, each with its own count and catalog row (none when the row is gone) |
| RequestStore.Repository.GetRequestWithComponents | internal/app/repository/CoolRequest.go:34-56 | succeeds exactly for an existing, non-deleted request that the caller created or that a moderator asks for; a missing or foreign request is "record not found" and a deleted one its own error |
| RequestStore.Repository.RequestsListFiltered | internal/app/repository/CoolRequest.go:80-140 | every entry is a listed request rendered as its summary, every listed request appears, and entries are in id order; hence no draft or deleted request, and only the caller's own for a non-moderator |
| RequestStore.Repository.UpdateRequestUserFields | internal/app/repository/CoolRequest.go:143-158 | only the supplied room fields of the request are written; with neither supplied nothing changes |
| RequestStore.Repository.FormRequest | internal/app/repository/CoolRequest.go:161-188 | the guards run in order (exists, caller is creator, draft, both room fields set); on success the request becomes formed with forming date now, and on failure nothing changes |
| RequestStore.Repository.UpdateCoolingResult | internal/app/repository/CoolRequest.go:191-196 | stores the cooling power of an existing request and changes nothing else |
| RequestStore.Repository.CollectLinkedIds | internal/app/repository/CoolRequest.go:237-240 | the collected ids are exactly the request's linked components |
| RequestStore.Repository.ResolveRequest | internal/app/repository/CoolRequest.go:199-256 | only a formed request with action complete or reject is resolved: its status, moderator and completion date are set, and every linked component becomes inactive; every refusal leaves both tables unchanged |
| RequestStore.Repository.LogicallyDeleteRequest | internal/app/repository/CoolRequest.go:259-289 | any existing request becomes deleted, with the deletion time written as its forming date; its links stay and their components become inactive |
| RequestStore.Repository.RemoveComponentFromRequest | internal/app/repository/CoolRequest.go:292-326 | deletes exactly that link and deactivates its component; a request left with no links is soft-deleted; a missing link changes nothing |
| RequestStore.Repository.UpdateMM | internal/app/repository/CoolRequest.go:329-346 | an existing link gets the new count; a zero count writes nothing; a missing link is "record not found" |
| RequestStore.Repository.AddComponentToDraft | internal/app/repository/Components.go:131-171 | links the component to the user's lowest-id draft, or to a new draft created now; a duplicate link is refused and nothing changes; on success the component is active and the user has exactly one draft |
| RequestStore.Repository.UpdateComponent | internal/app/repository/Components.go:58-88 | a missing component is an error; otherwise only the supplied fields change and the saved row is returned |
| RequestStore.Repository.ComponentsList | internal/app/repository/Components.go:22-40 | the catalog rows matching the title filter, each exactly once in ascending id order, with their count as the total |
| RequestStore.Repository.DeleteComponent | internal/app/repository/Components.go:91-128 | an existing row is removed; when its URL is set and `url.Parse` accepts it, the object named by the parsed path minus `/<bucket>/` is removed if the removal works; the call succeeds in every one of those cases |
| RequestStore.Repository.UploadComponentImage | internal/app/repository/Components.go:174-222 | the old image, named by the parsed URL, is removed first (best effort, not restored on failure); the file is stored as `Components/<base name>` and the row's URL is `http://<endpoint>/<bucket>/<object>`; a failed open or upload leaves the row unchanged |
| Users.IdsNamed | internal/app/repository/users.go:14-17 | the ids of exactly the users with that username |
| Users.ApplyUserUpdate | internal/app/repository/users.go:48-57 | only the supplied username and the hashed password change; the full name and moderator flag are kept |
| Users.UpdateCanBreakUniqueness | internal/app/repository/users.go:45-64 | an update that renames a user onto another user's username is accepted, so usernames can stop being unique |
| Users.UserStore.constructor | internal/app/repository/repository.go:84-122 | an empty user store satisfies the invariant |
| Users.UserStore.CreateUser | internal/app/repository/users.go:11-33 | a failing count is a database error, a taken username is refused, and a failing insert is a database error; it succeeds exactly otherwise, storing the user under a fresh id; failures change nothing; unique usernames stay unique |
| Users.UserStore.GetUserByID | internal/app/repository/users.go:36-42 | succeeds exactly for a stored id and returns that row |
| Users.UserStore.UpdateUser | internal/app/repository/users.go:45-64 | fails exactly when a supplied password does not hash, and then changes nothing; otherwise only that user changes, by the supplied fields; the ids and moderator flags stay the same |
| Users.UserStore.GetUserByUsername | internal/app/repository/users.go:67-73 | succeeds exactly when some user has the name, and returns the one with the least id |
| Blacklist.JwtKey | internal/app/redis/redis.go:42-44 | the key is the service and jwt prefixes followed by the token, and trimming the prefixes gives back the token |
| Blacklist.JwtKeyInjective | internal/app/redis/redis.go:42-44 | distinct tokens have distinct keys |
| Blacklist.Alive | internal/app/redis/redis.go:46-52 | a stored key is visible while it has no expiry or its expiry has not passed |
| Blacklist.Listed | internal/app/redis/redis.go:50-52 | a token is blacklisted exactly when its key is stored and still visible |
| Blacklist.SetEntry | internal/app/redis/redis.go:46-48 | `SET` stores the value; a positive TTL expires at now plus TTL, `KEEPTTL` keeps a live key's expiry, and any other TTL stores without expiry; no other key changes |
| Blacklist.WriteThenListed | internal/app/redis/redis.go:46-52 | after a write with a positive TTL, the token is found by a later lookup exactly while the TTL has not elapsed |
| Blacklist.NeverWrittenNotListed | internal/app/redis/redis.go:50-52 | a token whose key was never written is not found |
| Blacklist.WriteIsolated | internal/app/redis/redis.go:46-48 | blacklisting one token leaves every other token's status unchanged |
| Blacklist.RedisClient.constructor | internal/app/redis/redis.go:21-34 | the client starts with the given store contents |
| Blacklist.RedisClient.WriteJWTToBlacklist | internal/app/redis/redis.go:46-48 | succeeds exactly when the server answers, and then the store is the `SET` result; otherwise the store is unchanged |
| Blacklist.RedisClient.CheckJWTInBlacklist | internal/app/redis/redis.go:50-52 | an unreachable server is an error; otherwise the lookup finds the token exactly when it is listed |
| Helper.GetUserIdFromContext | internal/app/handler/helper.go:10-22 | a missing key and a non-`uint` value are the two distinct errors; it succeeds exactly for a `uint` value, which it returns |
| Helper.IsUserModerator | internal/app/handler/helper.go:25-37 | true exactly when the flag is present and is the boolean true; an absent or mistyped flag counts as false |
| Middleware.BearerToken | internal/app/handler/middleware.go:34 | the token is what follows the `Bearer ` prefix of the header |
| Middleware.TokenAccepted | internal/app/handler/middleware.go:49-58 | the parser accepts a token when its signature checks out and the current time is before its expiry |
| Middleware.AuthDecision | internal/app/handler/middleware.go:20-65 | the checks run in order (empty header, prefix, store unreachable, blacklisted token); a principal is admitted exactly when the prefix is present, the store answers, the token is not listed, it parses and it has not expired; the principal is the token's user id and moderator flag; a rejection is 401, or 500 when the store is down |
| Middleware.ModeratorDecision | internal/app/handler/middleware.go:67-75 | the chain continues exactly when the flag is the boolean true; a missing or false flag is 403, and a flag of another type panics and becomes 500 |
| Middleware.PrincipalReadBack | internal/app/handler/middleware.go:62-63 | the handlers read back the stored user id and moderator flag, and the moderator gate opens exactly for moderators |
| Middleware.GinContext.constructor | internal/app/handler/middleware.go:20 | a fresh context has no keys and no response, and is not aborted |
| Middleware.AuthMiddleware | internal/app/handler/middleware.go:20-65 | an admitted request gets the principal stored in its context and continues; otherwise it is aborted with the rejection as the response and its keys are unchanged |
| Middleware.ModeratorMiddleware | internal/app/handler/middleware.go:67-75 | aborts with the moderator gate's response exactly when the gate refuses; otherwise nothing changes |
| UserHandlers.RegisterBodyValid | internal/app/ds/dto.go:81-84 | a registration body binds when it is valid JSON with a non-empty username and password |
| UserHandlers.LoginBodyValid | internal/app/ds/dto.go:86-89 | a login body binds when it is valid JSON with a non-empty username and password |
| UserHandlers.LoginClaims | internal/app/handler/users.go:169-176 | the claims carry the user's id and moderator flag, the login time, and an expiry one token lifetime later |
| UserHandlers.Register | internal/app/handler/users.go:29-62 | an invalid body is 400 and a failed hash is 500; it is 201 exactly when the store accepts the user, and then a non-moderator with the password's hash is stored under the next id; every store refusal, a taken username included, is 500; otherwise the users are unchanged |
| UserHandlers.Login | internal/app/handler/users.go:151-196 | an invalid body is 400 and an unknown username is 401; otherwise the user checked is the one of that name with the least id: a wrong password for it is 401, a failed signing is 500, and otherwise 200 with its signed token and its DTO; 200 happens exactly in that last case |
| UserHandlers.Logout | internal/app/handler/users.go:208-225 | a header without `Bearer ` is 400 and changes nothing; otherwise the token is blacklisted for the full token lifetime from now (200), or 500 when the store is down |
| UserHandlers.BearerHeader | internal/app/handler/users.go:214 | the header built from a token carries the prefix, and the middleware reads the same token back from it |
| UserHandlers.IssuedTokenAdmitted | internal/app/handler/middleware.go:37-63 | a token that parses to its claims is admitted as their principal while it is unexpired and not blacklisted |
| UserHandlers.LogoutRevokes | internal/app/handler/users.go:216-220 | after a logout, the token is rejected at every later time: while the blacklist entry lives it is listed, and after that it has expired |
| UserHandlers.LoginLogoutRevokes | internal/app/handler/users.go:169-179 | a token issued at login and revoked at a later logout is rejected from then on |
| RequestHandlers.PathId | internal/app/handler/CoolRequest.go:103-114 | a path id parses exactly when `Atoi` does; it is below 2^64, and a non-negative value is kept as it is |
| RequestHandlers.PathIdOfDecimal | internal/app/handler/CoolRequest.go:103-114 | every id up to the largest `int`, written in decimal, is read back as itself |
| RequestHandlers.ComponentEntry | internal/app/handler/CoolRequest.go:121-130 | each entry carries the link's count and the component's id, title, description, TDP and image URL, or zero values when the catalog row is gone |
| RequestHandlers.DetailDTO | internal/app/handler/CoolRequest.go:133-149 | the detailed DTO has the request's id, status, creator and moderator, and one entry per link in link order |
| RequestHandlers.ComponentEntries | internal/app/handler/CoolRequest.go:120-131 | the loop builds exactly one entry per link, in order |
| RequestHandlers.GetCartBadge | internal/app/handler/CoolRequest.go:24-53 | no user id is 401 and a failing query is an empty badge; with a draft it is 200 with the draft's id and its link count; with no draft it panics, and the result is 500 |
| RequestHandlers.GetCartBadgeIntended | internal/app/handler/CoolRequest.go:24-53 | every authenticated caller gets 200: the draft's id and its link count, or an empty badge when there is no draft |
| RequestHandlers.ListRequests | internal/app/handler/CoolRequest.go:69-87 | no user id is 401; otherwise 200 with the listing for the caller and their moderator flag from the context: every listed request appears once as its summary, in ascending id order, and nothing else appears |
| RequestHandlers.GetRequest | internal/app/handler/CoolRequest.go:102-152 | a bad id is 400 and a missing user id is 400; a visible request is 200 with its detailed DTO, and any failed lookup is 404 |
| RequestHandlers.UpdateRequest | internal/app/handler/CoolRequest.go:167-206 | a missing or foreign request is 403 and a deleted one 404, both checked before the body; an invalid body is 400; 204 writes the room fields; nothing changes unless the result is 204 |
| RequestHandlers.FormRequest | internal/app/handler/CoolRequest.go:220-241 | a bad id is 400 and no user id is 401; it is 204 exactly when the request exists, is the caller's draft and has both room fields, and then it becomes formed now; with a parsed id and a user, every other outcome is 400 with nothing changed |
| RequestHandlers.ResolveRequest | internal/app/handler/CoolRequest.go:257-285 | a bad id or a missing action is 400, and no user id is 401; it is 204 exactly when the action is complete or reject and the request exists and is formed, and then the caller is recorded as the moderator, the status and completion date are set and the linked components become inactive; with a parsed id, an action and a user, every other outcome is 400 with the store unchanged |
| RequestHandlers.DeleteRequest | internal/app/handler/CoolRequest.go:298-313 | any existing request is soft-deleted by id (204), whoever the caller is; a bad id is 400 and an unknown id is 500, and neither changes anything |
| RequestHandlers.RemoveComponentFromRequest | internal/app/handler/CoolRequest.go:327-348 | removes the link by ids (204), whoever the caller is; bad ids or a missing link are 400 and change nothing |
| RequestHandlers.UpdateComponentInRequest | internal/app/handler/CoolRequest.go:364-395 | 204 exactly when both ids parse, the body has a count and the link exists, and then the repository's count edit is applied; anything else is 400 with the links unchanged |
| Routes.PublicRoutes | internal/app/handler/handler.go:29-32 | the four public routes, registered with no guard |
| Routes.AuthRoutes | internal/app/handler/handler.go:35-52 | the twelve routes of the authenticated group, each behind authentication only |
| Routes.ModeratorRoutes | internal/app/handler/handler.go:56-66 | the five routes of the moderator group, each behind authentication and then the moderator gate |
| Routes.ApiRoutes | internal/app/handler/handler.go:26-67 | the route table holds the public, authenticated and moderator routes in registration order, and nothing else |
| Routes.RunChain | internal/app/handler/handler.go:35-57 | running an empty chain reaches the handler with the context unchanged, and a chain with authentication reaches it only when the token is admitted |
| Routes.RouteIndex | internal/app/handler/handler.go:26-67 | every endpoint has a route registered for it |
| Routes.RouteGuards | internal/app/handler/handler.go:29-67 | every route runs exactly the guards its endpoint requires: none for the four public routes, authentication for the user routes, and authentication then the moderator gate for catalog edits and resolution |
| Routes.AuthChain | internal/app/handler/handler.go:35-36 | an authenticated route reaches its handler exactly when the token is admitted, and then with the principal stored |
| Routes.ModeratorChain | internal/app/handler/handler.go:56-57 | a moderator route reaches its handler exactly when the token is admitted and carries the moderator flag |
| Routes.GuardedAccess | internal/app/handler/handler.go:26-67 | a handler of a route is reached only as its guards allow: public routes always, other routes only with an admitted token, and moderator routes only for moderators |
| Routes.RouteTable.constructor | internal/app/handler/handler.go:26 | the engine starts with no routes |
| Routes.RouterGroup.constructor | internal/app/handler/handler.go:26 | a group registers on its engine with the given middleware |
| Routes.RouterGroup.Group | internal/app/handler/handler.go:35 | a sub-group registers on the same engine and starts with the parent's middleware |
| Routes.RouterGroup.Use | internal/app/handler/handler.go:36 | `Use` appends the middleware to the group's chain |
| Routes.RouterGroup.Handle | internal/app/handler/handler.go:39 | a registration appends one route that runs the group's chain |
| Routes.RegisterAPI | internal/app/handler/handler.go:26-74 | the engine's routes become the table above, in registration order |
| Routes.RegisterAuthGroup | internal/app/handler/handler.go:37-53 | the authenticated block registers its twelve routes behind the authentication middleware |
| Routes.RegisterModeratorGroup | internal/app/handler/handler.go:58-67 | the moderator block registers its five routes behind both middlewares |

## Left out

- Database faults: only the failures named above are modelled (the draft lookup's query and the user store's count and insert). Every other call is all-or-nothing, and a failing statement inside a transaction rolls it back, so a failure leaves the tables as they were.
- Id sequence values consumed by a rolled-back insert are not modelled; a failed creation leaves the next id unchanged.
- Foreign keys and the link rows' own surrogate id are not modelled. A link is identified by its (request id, component id) pair, which is what every query uses.
- `AddComponentToDraft` counts duplicates by `coolrequest_id` and names a `ComponentToRequest` model, while the link model is `ComponentToCooling` with a `cooling_id` column. The model reads both names as the one link table. The ignored error of that count is not modelled.
- New link count: the repository inserts the count's zero value, 0, and the model follows that code.
- Preloading of the creator and moderator users is not modelled; a request holds their ids.
- Floating-point fields (room area and height, cooling power, TDP) are opaque values. Only their presence matters to the model.
- Time is an abstract integer clock passed in by the caller. Date parsing in the listing is the `parseDate` oracle.
- The listing and the catalog come back in id order. The store returns the listing in no fixed order, and preloads return links in no set order; the model fixes ascending id for both.
- `ILIKE` is the `ilike` oracle, and the title pattern is `%<title>%`.
- `url.Parse` host validation (ports, IPv6 literals, bad host characters) is not modelled: the host of a stored URL is taken as valid.
- `url.Parse` schemes other than `http://` are not modelled: such a URL is read as all path, and the error for a colon in a first path segment is not modelled. Upper-case schemes are not recognised.
- Characters stand for bytes: a `%XY` escape decodes to the character with code 0xXY, and there is no UTF-8 encoding or decoding.
- bcrypt, token signing and token parsing with its signature check are oracles. Only the expiry check is written out.
- The text of errors raised by foreign code (the binder, `strconv.Atoi`, bcrypt, the database, the key-value store) is a placeholder string. `strconv.Atoi` quotes its input and reports an overflow as out of range; the model uses one fixed text for every id that does not parse.
- Concurrency and row locks are not modelled: every call runs alone.
- The key-value store's connection setup and close, the database and bucket setup in `repository.New` (its environment variables, bucket creation) and the data seeding, are not modelled; the model starts from given tables.
- The handlers `GetUserData` and `UpdateUserData`, and everything in `internal/app/handler/Components.go` (including the `AddComponentToDraft` handler and `CreateComponent`), are not part of this model. The repository operations those handlers call are modelled.
- Registration and the user DTO carry the full name, as `internal/app/handler/users.go` uses it, although `internal/app/ds/dto.go` declares neither field.
- Blacklist.SetEntry: `KEEPTTL` keeps the expiry only of a live key; the store's handling of other negative durations is simplified to "no expiry".
- UserHandlers.LogoutRevokes: proved only for a positive token lifetime and for tokens whose expiry is at most one lifetime after the logout, which is the case for every token the login issues.
- Users.UpdateCanBreakUniqueness: the update does not re-check usernames, so the model states uniqueness as preserved only by `CreateUser`.

## Findings

| source | as written | input that shows it | evidently intended | confidence | as-written member | corrected member |
|---|---|---|---|---|---|---|
| internal/app/handler/CoolRequest.go:31-40 | when the user has no draft, the lookup returns a nil draft with no error, and `draft.ID` dereferences it; the handler panics and the recovery middleware answers 500 | an authenticated user who has no draft asks for the cart badge | 200 with an empty badge (no request id, count 0), as the error branch answers | not executed | RequestHandlers.GetCartBadge | RequestHandlers.GetCartBadgeIntended |
| internal/app/repository/Components.go:192-193, 209 with 113-119 and 185-187 | the object name goes into the image URL unescaped, and `url.Parse` cuts the path read back at '?' or '#' and percent-decodes it, so the delete and the re-upload remove an object other than the stored one | an upload of a file named `a?b.png`: it is stored as `Components/a?b.png`, and the name read back is `Components/a` | the name read back from the stored URL is the stored object, as with the path escaped in the URL | not executed | ObjectNames.QueryInFileNameCutsName | ObjectNames.EscapedImageRoundTrip |
