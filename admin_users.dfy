/**
 * The blog app's `/api/admin/users` handlers: the admin user listing with
 * per-user post statistics (`GET`) and the role change (`PATCH`).
 */
module AdminUsersRoute {
  import opened Wrappers
  import opened Strings
  import opened Claims
  import opened Entities
  import opened Sorting

  /** The `status` and `createdAt` columns of a post listed under its author. */
  datatype BlogPreview = BlogPreview(status: Status, createdAt: int)

  datatype Stats = Stats(approvedBlogs: nat, rejectedBlogs: nat, pendingBlogs: nat, totalBlogs: nat)

  /** A user row with `_count.blogs`, its five newest posts, `lastActive` and `stats`. */
  datatype UserWithStats = UserWithStats(
    user: User,
    blogCount: nat,
    recentBlogs: seq<BlogPreview>,
    lastActive: int,
    stats: Stats)

  datatype Body =
    | Failure(error: string)
    | UsersListed(users: seq<UserWithStats>)
    | Updated(user: User, blogCount: nat)

  datatype Response = Response(code: int, body: Body)

  /** How many posts the listing previews per user (`take: 5`). */
  const PreviewCount: nat := 5

  /**
   * `userRole === 'ADMIN' || (Array.isArray(roles) && roles.includes('ADMIN'))
   * || roles === 'ADMIN'`.
   */
  predicate IsAdminHere(u: Identity): (r: bool)
    ensures r <==> u.role == Some("ADMIN") || ArrayHas(u.roles, "ADMIN") || u.roles == RolesStr("ADMIN")
  {
    u.role == Some("ADMIN") || ArrayHas(u.roles, "ADMIN") || u.roles == RolesStr("ADMIN")
  }

  /** The `where: { authorId }` of a user's posts. */
  function AuthoredBy(id: string): Blog -> bool {
    (b: Blog) => b.authorId == id
  }

  function Preview(b: Blog): BlogPreview {
    BlogPreview(b.status, b.createdAt)
  }

  function Previews(bs: seq<Blog>): (r: seq<BlogPreview>)
    ensures |r| == |bs| && forall i :: 0 <= i < |bs| ==> r[i] == Preview(bs[i])
  {
    seq(|bs|, i requires 0 <= i < |bs| => Preview(bs[i]))
  }

  /**
   * One entry of the listing. The preview holds the user's newest posts;
   * `lastActive` is the first preview's date or, for a user without posts,
   * the user's own creation date; the total is the sum of the three status
   * counts, which is also the user's number of posts.
   */
  function WithStats(blogs: seq<Blog>, u: User): (r: UserWithStats)
    ensures r.user == u
    ensures r.blogCount == CountWhere(blogs, AuthoredBy(u.id))
    ensures r.stats.totalBlogs == r.stats.approvedBlogs + r.stats.rejectedBlogs + r.stats.pendingBlogs
    ensures r.stats.totalBlogs == r.blogCount
    ensures r.recentBlogs == Previews(NewestPosts(blogs, u.id))
    ensures |r.recentBlogs| == if r.blogCount < PreviewCount then r.blogCount else PreviewCount
    ensures forall i, j :: 0 <= i < j < |r.recentBlogs| ==> r.recentBlogs[i].createdAt >= r.recentBlogs[j].createdAt
    ensures forall p :: p in r.recentBlogs ==> exists b :: b in blogs && b.authorId == u.id && p == Preview(b)
    ensures r.blogCount == 0 ==> r.lastActive == u.createdAt
    ensures r.blogCount > 0 ==>
              && (exists b :: b in blogs && b.authorId == u.id && b.createdAt == r.lastActive)
              && (forall b :: b in blogs && b.authorId == u.id ==> b.createdAt <= r.lastActive)
  {
    var mine := AuthoredBy(u.id);
    var approved := CountWhere(blogs, WithStatus(mine, APPROVED));
    var rejected := CountWhere(blogs, WithStatus(mine, REJECTED));
    var pending := CountWhere(blogs, WithStatus(mine, PENDING));
    StatusPartition(blogs, mine);
    UserWithStats(u, CountWhere(blogs, mine), Recent(blogs, u.id), LastActive(blogs, u),
                  Stats(approved, rejected, pending, approved + rejected + pending))
  }

  /** The `blogs` preview of user `id`: its five newest posts, newest first. */
  function Recent(blogs: seq<Blog>, id: string): (r: seq<BlogPreview>)
    ensures r == Previews(NewestPosts(blogs, id))
    ensures var n := CountWhere(blogs, AuthoredBy(id)); |r| == if n < PreviewCount then n else PreviewCount
    ensures forall i, j :: 0 <= i < j < |r| ==> r[i].createdAt >= r[j].createdAt
    ensures forall p :: p in r ==> exists b :: b in blogs && b.authorId == id && p == Preview(b)
  {
    RecentPreviews(FindMany(blogs, AuthoredBy(id), CreatedDesc), blogs, id);
    Previews(NewestPosts(blogs, id))
  }

  /** The posts behind the preview: `blogs` of the user, `orderBy: { createdAt: 'desc' }, take: 5`. */
  function NewestPosts(blogs: seq<Blog>, id: string): seq<Blog> {
    Prefix(FindMany(blogs, AuthoredBy(id), CreatedDesc), PreviewCount)
  }

  /**
   * The preview shows the user's newest posts: every one is the user's, none
   * is shown more often than it is stored, and every post of the user that
   * is left out (a copy not shown) is no newer than any post shown.
   */
  lemma NewestChosen(blogs: seq<Blog>, id: string)
    ensures var front := NewestPosts(blogs, id);
      && |front| == (if CountWhere(blogs, AuthoredBy(id)) < PreviewCount then CountWhere(blogs, AuthoredBy(id)) else PreviewCount)
      && (forall b :: b in front ==> b.authorId == id)
      && (forall b :: multiset(front)[b] <= multiset(blogs)[b])
      && (forall b: Blog, i: int :: b.authorId == id && multiset(front)[b] < multiset(blogs)[b] && 0 <= i < |front| ==>
                           b.createdAt <= front[i].createdAt)
  {
    var newest := FindMany(blogs, AuthoredBy(id), CreatedDesc);
    var front := NewestPosts(blogs, id);
    assert front == newest[..|front|];
    TakeNewest(blogs, id, newest, |front|);
  }

  /** `TakeSorted` for a newest-first list of `id`'s posts. */
  lemma TakeNewest(blogs: seq<Blog>, id: string, newest: seq<Blog>, k: nat)
    requires SortedBy(BeforeRel(CreatedDesc), newest) && k <= |newest|
    requires forall b :: multiset(newest)[b] == if AuthoredBy(id)(b) then multiset(blogs)[b] else 0
    ensures forall b :: b in newest[..k] ==> b.authorId == id
    ensures forall b :: multiset(newest[..k])[b] <= multiset(blogs)[b]
    ensures forall b: Blog, i: int :: b.authorId == id && multiset(newest[..k])[b] < multiset(blogs)[b] && 0 <= i < k ==>
                                      b.createdAt <= newest[i].createdAt
  {
    TakeSorted(BeforeRel(CreatedDesc), AuthoredBy(id), blogs, newest, k);
  }

  /** `lastActive`: the date of the user's newest post, or the user's own creation date. */
  function LastActive(blogs: seq<Blog>, u: User): (t: int)
    ensures CountWhere(blogs, AuthoredBy(u.id)) == 0 ==> t == u.createdAt
    ensures CountWhere(blogs, AuthoredBy(u.id)) > 0 ==>
              && (exists b :: b in blogs && b.authorId == u.id && b.createdAt == t)
              && (forall b :: b in blogs && b.authorId == u.id ==> b.createdAt <= t)
  {
    var newest := FindMany(blogs, AuthoredBy(u.id), CreatedDesc);
    if newest == [] then u.createdAt
    else
      SortedHeadNewest(newest);
      assert newest[0] in newest;
      newest[0].createdAt
  }

  /** The previews of the first posts of a newest-first list of `id`'s posts are newest first and are `id`'s posts. */
  lemma RecentPreviews(newest: seq<Blog>, blogs: seq<Blog>, id: string)
    requires SortedBy(BeforeRel(CreatedDesc), newest)
    requires forall b :: b in newest ==> b in blogs && b.authorId == id
    ensures var recent := Previews(Prefix(newest, PreviewCount));
      && (forall i, j :: 0 <= i < j < |recent| ==> recent[i].createdAt >= recent[j].createdAt)
      && (forall p :: p in recent ==> exists b :: b in blogs && b.authorId == id && p == Preview(b))
  {
    var front := Prefix(newest, PreviewCount);
    var recent := Previews(front);
    assert forall i, j :: 0 <= i < j < |recent| ==> Before(CreatedDesc, newest[i], newest[j]);
    forall p | p in recent ensures exists b :: b in blogs && b.authorId == id && p == Preview(b) {
      var k :| 0 <= k < |recent| && recent[k] == p;
      assert front[k] in newest;
    }
  }

  /** The user rows of a listing, in its order. */
  function UsersOf(list: seq<UserWithStats>): (r: seq<User>)
    ensures |r| == |list| && forall i :: 0 <= i < |list| ==> r[i] == list[i].user
  {
    seq(|list|, i requires 0 <= i < |list| => list[i].user)
  }

  /**
   * `GET /api/admin/users`: 401 without a session and 401 (not 403) for a
   * non-admin; otherwise every user, newest first, with statistics.
   */
  function Get(blogs: seq<Blog>, users: seq<User>, session: Session): (r: Response)
    ensures session.None? ==> r == Response(401, Failure("Unauthorized - No session"))
    ensures session.Some? && !IsAdminHere(session.value) ==>
              r == Response(401, Failure("Unauthorized - Admin access required"))
    ensures r.code == 200 <==> session.Some? && IsAdminHere(session.value)
    ensures r.code == 200 ==> r.body.UsersListed?
    ensures r.code == 200 && r.body.UsersListed? ==>
      var list := r.body.users;
      && multiset(UsersOf(list)) == multiset(users)
      && (forall i, j :: 0 <= i < j < |list| ==> list[i].user.createdAt >= list[j].user.createdAt)
      && (forall i :: 0 <= i < |list| ==> list[i] == WithStats(blogs, list[i].user))
  {
    if session.None? then Response(401, Failure("Unauthorized - No session"))
    else if !IsAdminHere(session.value) then Response(401, Failure("Unauthorized - Admin access required"))
    else
      UserNewerPreorder();
      var sorted := Sort(UserNewerRel(), users);
      var list := seq(|sorted|, i requires 0 <= i < |sorted| => WithStats(blogs, sorted[i]));
      assert UsersOf(list) == sorted;
      Response(200, UsersListed(list))
  }

  /** The JSON body of a `PATCH`; an absent or empty field is the empty string. */
  datatype PatchBody = PatchBody(userId: string, role: string)

  /**
   * `PATCH /api/admin/users`: any signed-in caller may set a user's role.
   * The store rejects an unknown id (500, nothing changes). The identity
   * provider is updated alongside; `auth0Fails` says whether that fails,
   * which turns the answer into 500 although the row has been updated.
   */
  method Patch(db: BlogDb, session: Session, body: Option<PatchBody>, auth0Fails: bool)
    returns (resp: Response)
    requires db.Valid()
    modifies db
    ensures db.Valid() && db.blogs == old(db.blogs)
    ensures session.None? ==> resp == Response(401, Failure("Unauthorized"))
    ensures session.Some? && body.None? ==> resp == Response(400, Failure("Invalid JSON payload"))
    ensures session.Some? && body.Some? && (body.value.userId == "" || body.value.role == "") ==>
              resp == Response(400, Failure("Missing required fields"))
    ensures session.Some? && body.Some? && body.value.userId != "" && body.value.role != ""
            && ParseRole(body.value.role).None? ==>
              resp == Response(400, Failure("Invalid role"))
    ensures resp.code != 200 && resp.code != 500 ==> db.users == old(db.users)
    ensures session.Some? && body.Some? && body.value.userId != "" && ParseRole(body.value.role).Some? ==>
      var k := FindUser(old(db.users), body.value.userId);
      if k.None? then
        resp == Response(500, Failure("Internal Server Error")) && db.users == old(db.users)
      else
        var updated := old(db.users)[k.value].(role := ParseRole(body.value.role).value);
        && db.users == old(db.users)[k.value := updated]
        && resp == if auth0Fails then Response(500, Failure("Internal Server Error"))
                   else Response(200, Updated(updated, CountWhere(db.blogs, AuthoredBy(updated.id))))
  {
    if session.None? {
      return Response(401, Failure("Unauthorized"));
    }
    if body.None? {
      return Response(400, Failure("Invalid JSON payload"));
    }
    var data := body.value;
    if data.userId == "" || data.role == "" {
      return Response(400, Failure("Missing required fields"));
    }
    var role := ParseRole(data.role);
    if role.None? {
      return Response(400, Failure("Invalid role"));
    }
    var k := FindUser(db.users, data.userId);
    if k.None? {
      // `update` of a missing row throws.
      return Response(500, Failure("Internal Server Error"));
    }
    var updated := db.users[k.value].(role := role.value);
    db.users := db.users[k.value := updated];
    if auth0Fails {
      return Response(500, Failure("Internal Server Error"));
    }
    resp := Response(200, Updated(updated, CountWhere(db.blogs, AuthoredBy(updated.id))));
  }
}
