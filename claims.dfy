/**
 * The caller as the identity provider's session presents it: the subject,
 * e-mail and name claims, a `role` claim and the namespaced roles claim
 * (`https://my-app.example.com/roles`), which may be absent, a string or an
 * array. An absent or empty name or e-mail is the empty string (the handlers
 * only test them for truthiness).
 */
module Claims {
  import opened Wrappers

  /** The namespaced roles claim. */
  datatype RolesClaim = NoRoles | RolesStr(s: string) | RolesArr(items: seq<string>)

  datatype Identity = Identity(
    sub: string,
    email: string,
    name: string,
    role: Option<string>,
    roles: RolesClaim)

  /** `Array.isArray(roles) && roles.includes(x)`. */
  predicate ArrayHas(c: RolesClaim, x: string) {
    c.RolesArr? && x in c.items
  }

  /** `session?.user`: `None` when there is no session or it carries no user. */
  type Session = Option<Identity>
}
