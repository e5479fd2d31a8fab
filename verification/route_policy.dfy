/**
 * The access policy the controllers declare with `@Public()` and `@Roles(...)`,
 * and how a handler's own declaration overrides its controller's.
 */
module RoutePolicy {
  import opened Wrappers
  import opened Entities

  /** The metadata the two decorators attach to one handler or one controller class. */
  datatype Metadata = Metadata(isPublic: Option<bool>, roles: Option<seq<Role>>)

  /** No decorator at all. */
  const Bare := Metadata(None, None)

  /** `@Public()`: sets the `isPublic` key to `true`. */
  const PublicOnly := Metadata(Some(true), None)

  /** `@Roles(...)`: sets the `roles` key to the given list. */
  function RolesOnly(roles: seq<Role>): Metadata {
    Metadata(None, Some(roles))
  }

  /** `Reflector.getAllAndOverride(key, [handler, class])`: the first target that defines the key. */
  function Override<T>(handler: Option<T>, cls: Option<T>): (r: Option<T>)
    ensures r.Some? <==> handler.Some? || cls.Some?
    ensures handler.Some? ==> r == handler
    ensures handler.None? ==> r == cls
  {
    if handler.Some? then handler else cls
  }

  /** The resolved policy of one route: its public flag and its required roles, if any. */
  datatype Policy = Policy(isPublic: bool, requiredRoles: Option<seq<Role>>)

  function Resolve(handler: Metadata, cls: Metadata): (p: Policy)
    ensures p.isPublic <==> handler.isPublic == Some(true) || (handler.isPublic.None? && cls.isPublic == Some(true))
    ensures handler.roles.Some? ==> p.requiredRoles == handler.roles
    ensures handler.roles.None? ==> p.requiredRoles == cls.roles
  {
    Policy(Override(handler.isPublic, cls.isPublic).GetOr(false), Override(handler.roles, cls.roles))
  }

  datatype Verb = Get | Post | Patch | Delete

  /** A handler: its verb, its path below the controller prefix, its decorators, and its `@HttpCode`. */
  datatype Route = Route(verb: Verb, path: string, meta: Metadata, httpCode: Option<int>)

  datatype Controller = Controller(prefix: string, meta: Metadata, routes: seq<Route>)

  /** The status of a successful call: the declared `@HttpCode`, else 201 for POST and 200 otherwise. */
  function SuccessStatus(r: Route): (code: int)
    ensures r.httpCode.None? ==> (code == 201 <==> r.verb == Post)
    ensures r.httpCode.None? ==> code == 200 || code == 201
    ensures r.httpCode.Some? ==> code == r.httpCode.value
  {
    match r.httpCode
    case Some(c) => c
    case None => if r.verb == Post then 201 else 200
  }

  function PolicyOf(c: Controller, r: Route): Policy {
    Resolve(r.meta, c.meta)
  }

  /** Reads (`GET ""`, `GET ":id"`) are public; every other route needs the ADMIN role. */
  predicate PublicReadsAdminWrites(c: Controller) {
    forall r <- c.routes ::
      if r.verb == Get && (r.path == "" || r.path == ":id") then
        PolicyOf(c, r) == Policy(true, None)
      else
        PolicyOf(c, r) == Policy(false, Some([Admin]))
  }

  /** No route is both public and role-restricted. */
  predicate NoPublicRoleClash(c: Controller) {
    forall r <- c.routes :: !(PolicyOf(c, r).isPublic && PolicyOf(c, r).requiredRoles.Some?)
  }

  function Signature(r: Route): (Verb, string) {
    (r.verb, r.path)
  }

  function Signatures(c: Controller): (s: seq<(Verb, string)>)
    ensures |s| == |c.routes|
    ensures forall i :: 0 <= i < |s| ==> s[i] == Signature(c.routes[i])
  {
    seq(|c.routes|, i requires 0 <= i < |c.routes| => Signature(c.routes[i]))
  }

  // ---------------------------------------------------------------------
  // The six controllers
  // ---------------------------------------------------------------------

  const AdminOnly := RolesOnly([Admin])

  function R(verb: Verb, path: string, meta: Metadata): Route {
    Route(verb, path, meta, None)
  }

  /** `auth`: public at class level, no roles anywhere, and only login answers 200. */
  function AuthController(): (c: Controller)
    ensures c.prefix == "auth"
    ensures Signatures(c) ==
      [(Post, "register"), (Post, "login"), (Post, "request-password-reset"), (Patch, "reset-password")]
    ensures forall r <- c.routes :: PolicyOf(c, r) == Policy(true, None)
    ensures forall r <- c.routes :: (r.httpCode.Some? <==> r.path == "login")
    ensures forall r <- c.routes :: SuccessStatus(r) == (if r.verb == Post && r.path != "login" then 201 else 200)
  {
    Controller("auth", PublicOnly, [
      R(Post, "register", Bare),
      Route(Post, "login", Bare, Some(200)),
      R(Post, "request-password-reset", Bare),
      R(Patch, "reset-password", Bare)
    ])
  }

  /** `users`: nothing is public; only the list needs ADMIN; "profile" precedes ":id". */
  function UsersController(): (c: Controller)
    ensures c.prefix == "users"
    ensures Signatures(c) ==
      [(Get, "profile"), (Get, ""), (Get, ":id"), (Patch, ":id"), (Delete, ":id")]
    ensures forall r <- c.routes :: !PolicyOf(c, r).isPublic
    ensures forall r <- c.routes ::
              PolicyOf(c, r).requiredRoles == (if r.verb == Get && r.path == "" then Some([Admin]) else None)
  {
    Controller("users", Bare, [
      R(Get, "profile", Bare),
      R(Get, "", AdminOnly),
      R(Get, ":id", Bare),
      R(Patch, ":id", Bare),
      R(Delete, ":id", Bare)
    ])
  }

  function ClubsController(): (c: Controller)
    ensures c.prefix == "clubs" && c.meta == Bare
    ensures Signatures(c) ==
      [(Post, ""), (Get, ""), (Get, ":id"), (Patch, ":id"), (Delete, ":id"), (Post, "create-bulk"),
       (Post, ":clubId/players/:playerId"), (Delete, ":clubId/players/:playerId")]
    ensures PublicReadsAdminWrites(c) && NoPublicRoleClash(c)
  {
    Controller("clubs", Bare, [
      R(Post, "", AdminOnly),
      R(Get, "", PublicOnly),
      R(Get, ":id", PublicOnly),
      R(Patch, ":id", AdminOnly),
      R(Delete, ":id", AdminOnly),
      R(Post, "create-bulk", AdminOnly),
      R(Post, ":clubId/players/:playerId", AdminOnly),
      R(Delete, ":clubId/players/:playerId", AdminOnly)
    ])
  }

  function CompetitionsController(): (c: Controller)
    ensures c.prefix == "competitions" && c.meta == Bare
    ensures Signatures(c) ==
      [(Post, ""), (Get, ""), (Get, ":id"), (Patch, ":id"), (Delete, ":id"), (Post, "create-bulk"),
       (Post, ":competitionId/clubs/:clubId"), (Delete, ":competitionId/clubs/:clubId")]
    ensures PublicReadsAdminWrites(c) && NoPublicRoleClash(c)
  {
    Controller("competitions", Bare, [
      R(Post, "", AdminOnly),
      R(Get, "", PublicOnly),
      R(Get, ":id", PublicOnly),
      R(Patch, ":id", AdminOnly),
      R(Delete, ":id", AdminOnly),
      R(Post, "create-bulk", AdminOnly),
      R(Post, ":competitionId/clubs/:clubId", AdminOnly),
      R(Delete, ":competitionId/clubs/:clubId", AdminOnly)
    ])
  }

  function PlayersController(): (c: Controller)
    ensures c.prefix == "players" && c.meta == Bare
    ensures Signatures(c) ==
      [(Post, ""), (Get, ""), (Get, ":id"), (Patch, ":id"), (Delete, ":id"), (Post, "create-bulk")]
    ensures PublicReadsAdminWrites(c) && NoPublicRoleClash(c)
  {
    Controller("players", Bare, [
      R(Post, "", AdminOnly),
      R(Get, "", PublicOnly),
      R(Get, ":id", PublicOnly),
      R(Patch, ":id", AdminOnly),
      R(Delete, ":id", AdminOnly),
      R(Post, "create-bulk", AdminOnly)
    ])
  }

  function CountriesController(): (c: Controller)
    ensures c.prefix == "countries" && c.meta == Bare
    ensures Signatures(c) ==
      [(Post, ""), (Get, ""), (Get, ":id"), (Patch, ":id"), (Delete, ":id"), (Post, "create-many")]
    ensures PublicReadsAdminWrites(c) && NoPublicRoleClash(c)
  {
    Controller("countries", Bare, [
      R(Post, "", AdminOnly),
      R(Get, "", PublicOnly),
      R(Get, ":id", PublicOnly),
      R(Patch, ":id", AdminOnly),
      R(Delete, ":id", AdminOnly),
      R(Post, "create-many", AdminOnly)
    ])
  }

  /** A handler-level declaration always wins over the class-level one, for both keys. */
  lemma HandlerOverridesClass(handler: Metadata, cls: Metadata)
    requires handler.isPublic.Some? && handler.roles.Some?
    ensures Resolve(handler, cls) == Policy(handler.isPublic.value, handler.roles)
  {
  }
}
