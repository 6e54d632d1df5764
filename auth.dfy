/** The admin predicates of the blog app's auth helper (`isAdmin`, `isAdminFromUser`). */
module Auth {
  import opened Wrappers
  import opened Claims

  /** `user?.[ROLES] || []`: an absent or empty-string claim becomes an empty array. */
  function RolesOrEmpty(c: RolesClaim): (r: RolesClaim)
    ensures r != NoRoles && r != RolesStr("")
    ensures r.RolesArr? <==> c.RolesArr? || c == NoRoles || c == RolesStr("")
  {
    match c
    case NoRoles => RolesArr([])
    case RolesStr(s) => if s == "" then RolesArr([]) else c
    case RolesArr(_) => c
  }

  /**
   * `isAdminFromUser(user)`: the `role` claim is `'ADMIN'`, or the roles
   * claim is an array that includes `'ADMIN'`. A missing user is no admin,
   * and a roles claim that is a string is ignored.
   */
  function IsAdminFromUser(user: Option<Identity>): (r: bool)
    ensures r <==> user.Some? && (user.value.role == Some("ADMIN") || ArrayHas(user.value.roles, "ADMIN"))
  {
    match user
    case None => false
    case Some(u) =>
      var rolesFromMetadata := RolesOrEmpty(u.roles);
      u.role == Some("ADMIN") || (rolesFromMetadata.RolesArr? && "ADMIN" in rolesFromMetadata.items)
  }

  /** `isAdmin()`: the same test applied to the session's user; false without a session. */
  function IsAdmin(session: Session): (r: bool)
    ensures r == IsAdminFromUser(session)
    ensures session.None? ==> !r
  {
    match session
    case None => false
    case Some(u) =>
      var rolesFromMetadata := RolesOrEmpty(u.roles);
      u.role == Some("ADMIN") || (rolesFromMetadata.RolesArr? && "ADMIN" in rolesFromMetadata.items)
  }

  /** A string roles claim, even `'ADMIN'`, has the same effect as no roles claim. */
  lemma StringRolesIgnored(u: Identity, s: string)
    ensures IsAdminFromUser(Some(u.(roles := RolesStr(s)))) == IsAdminFromUser(Some(u.(roles := NoRoles)))
  {
  }
}
