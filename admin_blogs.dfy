/**
 * The blog app's `/api/admin/blogs` handlers: the admin listing (`GET`) and
 * single or bulk deletion (`DELETE`), both behind the same admin gate.
 */
module AdminBlogsRoute {
  import opened Wrappers
  import opened Strings
  import opened Claims
  import opened Entities
  import opened Sorting

  datatype Body =
    | Failure(error: string)
    | Listed(blogs: seq<Blog>)
    | DeletedAll(message: string, count: nat)
    | Deleted(message: string, blogId: string)

  datatype Response = Response(code: int, body: Body)

  /**
   * `user['role'] === 'ADMIN' || user[ROLES]?.includes('ADMIN')`. On an
   * array `includes` is membership; on a string it is a substring test.
   */
  predicate IsAdminHere(u: Identity): (r: bool)
    ensures r <==> u.role == Some("ADMIN") || ArrayHas(u.roles, "ADMIN") || (u.roles.RolesStr? && Contains(u.roles.s, "ADMIN"))
  {
    || u.role == Some("ADMIN")
    || match u.roles
       case NoRoles => false
       case RolesStr(s) => Contains(s, "ADMIN")
       case RolesArr(items) => "ADMIN" in items
  }

  /** The gate both handlers share: 401 without a session, 403 for a non-admin. */
  function Gate(session: Session, denied: string): (r: Option<Response>)
    ensures r.None? <==> session.Some? && IsAdminHere(session.value)
    ensures session.None? ==> r == Some(Response(401, Failure("Unauthorized")))
    ensures session.Some? && !IsAdminHere(session.value) ==> r == Some(Response(403, Failure(denied)))
  {
    if session.None? then Some(Response(401, Failure("Unauthorized")))
    else if !IsAdminHere(session.value) then Some(Response(403, Failure(denied)))
    else None
  }

  /** `GET /api/admin/blogs?status=…`: by status ascending, then newest first. */
  function Get(blogs: seq<Blog>, session: Session, statusParam: Option<string>): (r: Response)
    ensures session.None? ==> r.code == 401
    ensures session.Some? && !IsAdminHere(session.value) ==> r.code == 403
    ensures r.code == 200 <==> session.Some? && IsAdminHere(session.value) && StatusFilter(statusParam).Some?
    ensures session.Some? && IsAdminHere(session.value) && StatusFilter(statusParam).None? ==>
              r == Response(500, Failure("Internal Server Error"))
    ensures r.code == 200 ==>
      var filter := StatusFilter(statusParam).value;
      && r.body.Listed?
      && SortedBy(BeforeRel(StatusAscCreatedDesc), r.body.blogs)
      && (forall b :: b in r.body.blogs <==> b in blogs && (filter.None? || b.status == filter.value))
      && (forall b :: multiset(r.body.blogs)[b] ==
                       if filter.None? || b.status == filter.value then multiset(blogs)[b] else 0)
  {
    var gate := Gate(session, "Only admins can access this page");
    if gate.Some? then gate.value
    else
      var filter := StatusFilter(statusParam);
      if filter.None? then Response(500, Failure("Internal Server Error"))
      else
        var f := filter.value;
        Response(200, Listed(FindMany(blogs, (b: Blog) => f.None? || b.status == f.value, StatusAscCreatedDesc)))
  }

  /**
   * `DELETE /api/admin/blogs?deleteAll=…&blogId=…`: `deleteAll=true` empties
   * the table (checked first); otherwise the blog id is required, must exist,
   * and exactly that post is removed.
   */
  method Delete(db: BlogDb, session: Session, blogId: Option<string>, deleteAll: Option<string>)
    returns (resp: Response)
    requires db.Valid()
    modifies db
    ensures db.Valid() && db.users == old(db.users)
    ensures Gate(session, "Only admins can delete blogs").Some? ==>
              resp == Gate(session, "Only admins can delete blogs").value && db.blogs == old(db.blogs)
    ensures Gate(session, "Only admins can delete blogs").None? ==>
      if deleteAll == Some("true") then
        resp == Response(200, DeletedAll("All blogs deleted successfully", |old(db.blogs)|)) && db.blogs == []
      else if blogId.None? || blogId.value == "" then
        resp == Response(400, Failure("Blog ID is required")) && db.blogs == old(db.blogs)
      else if blogId.value !in BlogIds(old(db.blogs)) then
        resp == Response(404, Failure("Blog not found")) && db.blogs == old(db.blogs)
      else
        resp == Response(200, Deleted("Blog deleted successfully", blogId.value))
        && db.blogs == RemoveById(old(db.blogs), blogId.value)
        && |db.blogs| == |old(db.blogs)| - 1
  {
    var gate := Gate(session, "Only admins can delete blogs");
    if gate.Some? {
      return gate.value;
    }
    if deleteAll == Some("true") {
      var count := |db.blogs|;
      db.blogs := [];
      return Response(200, DeletedAll("All blogs deleted successfully", count));
    }
    if blogId.None? || blogId.value == "" {
      return Response(400, Failure("Blog ID is required"));
    }
    var id := blogId.value;
    var k := FindBlog(db.blogs, id);
    if k.None? {
      return Response(404, Failure("Blog not found"));
    }
    RemovePresent(db.blogs, k.value);
    RemoveUnique(db.blogs, id);
    db.blogs := RemoveById(db.blogs, id);
    resp := Response(200, Deleted("Blog deleted successfully", id));
  }
}
