/** `authorize(roles)` (src/middlewares/authorize.ts; src/middlewares/Authorize.middleware.ts
    is a second copy with the same decision): reads the caller's role from
    the User collection on every request and lets the request through only
    for an allowed role. */
module Authorize {
  import opened Types
  import opened UserTable

  /** The outcome of `User.findById(userId).select("role")`. */
  datatype Lookup = Found(role: Role) | Absent | Threw(err: Failure)

  /** The lookup against the current table; `fault` is the exception the
      query throws, if any. An unset `req.userId` finds nobody. */
  function LookupRole(users: seq<User>, userId: Option<UserId>, fault: Option<Failure>): (l: Lookup)
    ensures fault.Some? ==> l == Threw(fault.value)
    ensures fault.None? && userId.None? ==> l.Absent?
    ensures fault.None? && userId.Some? ==>
              (l.Absent? <==> RoleOf(users, userId.value).None?)
              && (l.Found? ==> Some(l.role) == RoleOf(users, userId.value))
  {
    if fault.Some? then Threw(fault.value)
    else if userId.None? then Absent
    else match RoleOf(users, userId.value)
      case Some(role) => Found(role)
      case None => Absent
  }

  /** `next()` or a reply. */
  datatype Gate = Pass | Deny(reply: Reply)

  const UserMissing := ErrorReply(NOT_FOUND, "NotFound", "User not found!")
  const InsufficientPermissions :=
    ErrorReply(FORBIDDEN, "AuthorizationError", "Access denied, insufficient permissions!")

  function Decide(lookup: Lookup, roles: seq<Role>): (g: Gate)
    ensures g.Pass? <==> lookup.Found? && lookup.role in roles
    ensures lookup.Absent? ==> g == Deny(UserMissing)
    ensures lookup.Found? && lookup.role !in roles ==> g == Deny(InsufficientPermissions)
    ensures lookup.Threw? ==> g == Deny(ServerErrorReply("Internal server error!", lookup.err))
  {
    match lookup
    case Absent => Deny(UserMissing)
    case Found(role) => if role in roles then Pass else Deny(InsufficientPermissions)
    case Threw(e) => Deny(ServerErrorReply("Internal server error!", e))
  }

  function Authorize(users: seq<User>, userId: Option<UserId>, fault: Option<Failure>, roles: seq<Role>): Gate {
    Decide(LookupRole(users, userId, fault), roles)
  }

  /** A request passes exactly when its user is present now and holds an
      allowed role now; nothing else about the request is consulted. */
  lemma PassIffCurrentRoleAllowed(users: seq<User>, id: UserId, roles: seq<Role>)
    ensures Authorize(users, Some(id), None, roles).Pass? <==>
              FindById(users, id).Some? && FindById(users, id).value.role in roles
  {
  }

  /** A user missing from the table is answered 404, whatever roles are
      allowed: a deleted account's access token no longer passes. */
  lemma DeletedUserNotFound(users: seq<User>, id: UserId, roles: seq<Role>)
    ensures Authorize(RemoveById(users, id), Some(id), None, roles) == Deny(UserMissing)
  {
  }

  /** A role change is seen by the very next request: after an admin is saved
      back as a plain user, an admin-only route refuses them with 403. */
  lemma DowngradeTakesEffect(users: seq<User>, u: User)
    requires u in users && u.role == Admin
    ensures FindById(users, u.id) == Some(u) ==> Authorize(users, Some(u.id), None, [Admin]) == Pass
    ensures Authorize(ReplaceById(users, u.(role := Role.User)), Some(u.id), None, [Admin]) == Deny(InsufficientPermissions)
  {
    FindByIdReplace(users, u.(role := Role.User));
  }
}
