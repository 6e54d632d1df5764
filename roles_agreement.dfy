/**
 * How the blog app's admin tests relate. From strictest to most lenient:
 * the `/api/blogs` test (role claim only), the auth helper (role claim or an
 * array roles claim), the `/api/admin/users` test (also a string roles
 * claim equal to 'ADMIN') and the `/api/admin/blogs` test (also any string
 * roles claim containing 'ADMIN'). Once the middleware has rewritten `role`,
 * the first three give the middleware's own decision.
 */
module RoleAgreement {
  import opened Wrappers
  import opened Strings
  import opened Claims
  import Auth
  import Middleware
  import ApiBlogsRoute
  import AdminUsersRoute
  import AdminBlogsRoute

  /** Each test lets through everyone the stricter ones let through. */
  lemma AdminTestsNested(u: Identity)
    ensures ApiBlogsRoute.IsAdminHere(u) ==> Auth.IsAdminFromUser(Some(u))
    ensures Auth.IsAdminFromUser(Some(u)) ==> AdminUsersRoute.IsAdminHere(u)
    ensures AdminUsersRoute.IsAdminHere(u) ==> AdminBlogsRoute.IsAdminHere(u)
  {
    if u.roles == RolesStr("ADMIN") {
      OccursContains("ADMIN", "ADMIN", 0);
    }
  }

  /** The users route admits exactly one kind of caller the auth helper refuses. */
  lemma UsersRouteBeyondAuth(u: Identity)
    ensures AdminUsersRoute.IsAdminHere(u) && !Auth.IsAdminFromUser(Some(u))
            <==> u.roles == RolesStr("ADMIN") && u.role != Some("ADMIN")
  {
  }

  /** A caller with no role claim and roles claim 'NOT_ADMIN' passes the admin blog gate and no other test. */
  lemma SubstringRolesPassBlogGate()
    ensures var u := Identity("auth0|1", "a@b.c", "", None, RolesStr("NOT_ADMIN"));
      && AdminBlogsRoute.IsAdminHere(u)
      && !AdminUsersRoute.IsAdminHere(u)
      && !Auth.IsAdminFromUser(Some(u))
      && !ApiBlogsRoute.IsAdminHere(u)
      && !Middleware.MiddlewareIsAdmin(u.roles)
  {
    OccursContains("NOT_ADMIN", "ADMIN", 4);
  }

  /**
   * After the middleware, the auth helper, the users route and `/api/blogs`
   * all return the middleware's decision; the admin blog gate still also
   * admits a string roles claim that merely contains 'ADMIN'.
   */
  lemma AgreeAfterMiddleware(u: Identity)
    ensures var n := Middleware.Normalize(u);
      && Auth.IsAdminFromUser(Some(n)) == Middleware.MiddlewareIsAdmin(u.roles)
      && AdminUsersRoute.IsAdminHere(n) == Middleware.MiddlewareIsAdmin(u.roles)
      && ApiBlogsRoute.IsAdminHere(n) == Middleware.MiddlewareIsAdmin(u.roles)
      && AdminBlogsRoute.IsAdminHere(n) ==
           (Middleware.MiddlewareIsAdmin(u.roles) || (u.roles.RolesStr? && Contains(u.roles.s, "ADMIN")))
  {
    if u.roles == RolesStr("ADMIN") {
      OccursContains("ADMIN", "ADMIN", 0);
    }
  }
}
