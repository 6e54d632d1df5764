/**
 * The blog app's request middleware: on every matched request it rewrites
 * the session user's `role` claim from the namespaced roles claim.
 */
module Middleware {
  import opened Wrappers
  import opened Claims

  /** `Array.isArray(roles) ? roles.includes('ADMIN') : roles === 'ADMIN'`. */
  predicate MiddlewareIsAdmin(roles: RolesClaim): (r: bool)
    ensures r <==> ArrayHas(roles, "ADMIN") || roles == RolesStr("ADMIN")
  {
    match roles
    case RolesArr(items) => "ADMIN" in items
    case RolesStr(s) => s == "ADMIN"
    case NoRoles => false
  }

  /** The session user after the middleware: `role` is overwritten by the decision. */
  function Normalize(u: Identity): (r: Identity)
    ensures r.role == Some("ADMIN") || r.role == Some("USER")
    ensures r.role == Some("ADMIN") <==> ArrayHas(u.roles, "ADMIN") || u.roles == RolesStr("ADMIN")
    ensures r.(role := u.role) == u
  {
    u.(role := Some(if MiddlewareIsAdmin(u.roles) then "ADMIN" else "USER"))
  }

  /** The session user object whose `role` entry the middleware assigns in place. */
  class SessionUser {
    const sub: string
    const email: string
    const name: string
    const roles: RolesClaim
    var role: Option<string>

    constructor(u: Identity)
      ensures Value() == u
    {
      sub, email, name, roles, role := u.sub, u.email, u.name, u.roles, u.role;
    }

    /** The claims the object holds now. */
    function Value(): Identity
      reads this
    {
      Identity(sub, email, name, role, roles)
    }
  }

  /** The middleware body: with a session user, set `role`; without one, change nothing. */
  method RunMiddleware(user: SessionUser?)
    modifies user
    ensures user != null ==> user.Value() == Normalize(old(user.Value()))
  {
    if user != null {
      var isAdmin := match user.roles
        case RolesArr(items) => "ADMIN" in items
        case RolesStr(s) => s == "ADMIN"
        case NoRoles => false;
      user.role := Some(if isAdmin then "ADMIN" else "USER");
    }
  }

  /** Any previous role is overwritten: a claimed `'ADMIN'` without the roles claim becomes `'USER'`. */
  lemma NormalizeIgnoresOldRole(u: Identity, old_role: Option<string>)
    ensures Normalize(u.(role := old_role)) == Normalize(u)
    ensures u.roles == NoRoles ==> Normalize(u).role == Some("USER")
  {
  }

  /** Running the middleware twice is running it once. */
  lemma NormalizeIdempotent(u: Identity)
    ensures Normalize(Normalize(u)) == Normalize(u)
  {
  }
}
