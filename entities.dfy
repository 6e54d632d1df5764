/**
 * The records of the blog app's relational store (the Prisma `Blog` and
 * `User` models as the handlers use them), the store itself, and the
 * query building blocks the handlers share: lookup by key, filtering,
 * deletion by id and the orderings of `orderBy`.
 */
module Entities {
  import opened Wrappers
  import opened Sorting

  // ------------------------------------------------------------- enums

  datatype Status = PENDING | APPROVED | REJECTED

  function StatusName(s: Status): string {
    match s
    case PENDING => "PENDING"
    case APPROVED => "APPROVED"
    case REJECTED => "REJECTED"
  }

  /** The enum value a string names; anything else is refused by the store. */
  function ParseStatus(s: string): (r: Option<Status>)
    ensures r.Some? <==> s in {"PENDING", "APPROVED", "REJECTED"}
    ensures r.Some? ==> StatusName(r.value) == s
  {
    if s == "PENDING" then Some(PENDING)
    else if s == "APPROVED" then Some(APPROVED)
    else if s == "REJECTED" then Some(REJECTED)
    else None
  }

  lemma ParseStatusName(s: Status)
    ensures ParseStatus(StatusName(s)) == Some(s)
  {
  }

  datatype Role = USER | ADMIN

  function RoleName(r: Role): string {
    match r
    case USER => "USER"
    case ADMIN => "ADMIN"
  }

  /** The role a string names, if any. */
  function ParseRole(s: string): (r: Option<Role>)
    ensures r.Some? <==> s in {"USER", "ADMIN"}
    ensures r.Some? ==> RoleName(r.value) == s
  {
    if s == "USER" then Some(USER)
    else if s == "ADMIN" then Some(ADMIN)
    else None
  }

  // ----------------------------------------------------------- records

  /** A row of the `Blog` table; timestamps are abstract instants. */
  datatype Blog = Blog(
    id: string,
    title: string,
    content: string,
    excerpt: Option<string>,
    slug: string,
    imageUrl: Option<string>,
    authorId: string,
    status: Status,
    rejectionReason: Option<string>,
    createdAt: int,
    updatedAt: int,
    publishedAt: Option<int>)

  /** A row of the `User` table. */
  datatype User = User(id: string, email: string, name: Option<string>, role: Role, createdAt: int)

  predicate UniqueBlogIds(blogs: seq<Blog>) {
    forall i, j :: 0 <= i < j < |blogs| ==> blogs[i].id != blogs[j].id
  }

  predicate UniqueUsers(users: seq<User>) {
    forall i, j :: 0 <= i < j < |users| ==> users[i].id != users[j].id && users[i].email != users[j].email
  }

  function BlogIds(blogs: seq<Blog>): set<string> {
    set b | b in blogs :: b.id
  }

  function UserIds(users: seq<User>): set<string> {
    set u | u in users :: u.id
  }

  /**
   * The relational store: the `Blog` and `User` tables, in insertion order.
   * Ids are primary keys and user e-mails are unique.
   */
  class BlogDb {
    var blogs: seq<Blog>
    var users: seq<User>

    ghost predicate Valid()
      reads this
    {
      UniqueBlogIds(blogs) && UniqueUsers(users)
    }

    constructor(blogs0: seq<Blog>, users0: seq<User>)
      requires UniqueBlogIds(blogs0) && UniqueUsers(users0)
      ensures Valid() && blogs == blogs0 && users == users0
    {
      blogs, users := blogs0, users0;
    }

    /** `blog.create`: the row is appended under an id no row has. */
    method CreateBlog(b: Blog)
      requires Valid() && b.id !in BlogIds(blogs)
      modifies this
      ensures Valid() && blogs == old(blogs) + [b] && users == old(users)
    {
      assert forall k :: 0 <= k < |blogs| ==> blogs[k] in blogs;
      blogs := blogs + [b];
    }

    /** `user.create`: the row is appended under an id and an e-mail no row has. */
    method CreateUser(u: User)
      requires Valid() && u.id !in UserIds(users)
      requires forall k :: 0 <= k < |users| ==> users[k].email != u.email
      modifies this
      ensures Valid() && users == old(users) + [u] && blogs == old(blogs)
    {
      assert forall k :: 0 <= k < |users| ==> users[k] in users;
      users := users + [u];
    }
  }

  // ------------------------------------------------------------ lookups

  /** `findUnique({ where: { id } })` on the blog table: the index of the row, if any. */
  function FindBlog(blogs: seq<Blog>, id: string): (r: Option<nat>)
    ensures r.Some? ==> r.value < |blogs| && blogs[r.value].id == id
    ensures r.None? <==> id !in BlogIds(blogs)
  {
    if blogs == [] then None
    else if blogs[0].id == id then Some(0)
    else
      var r := FindBlog(blogs[1..], id);
      assert BlogIds(blogs) == {blogs[0].id} + BlogIds(blogs[1..]) by {
        assert blogs == [blogs[0]] + blogs[1..];
      }
      if r.Some? then Some(r.value + 1) else None
  }

  /** `findUnique({ where: { email } })` on the user table. */
  function FindUserByEmail(users: seq<User>, email: string): (r: Option<nat>)
    ensures r.Some? ==> r.value < |users| && users[r.value].email == email
    ensures r.None? ==> forall i :: 0 <= i < |users| ==> users[i].email != email
  {
    if users == [] then None
    else if users[0].email == email then Some(0)
    else
      var r := FindUserByEmail(users[1..], email);
      if r.Some? then Some(r.value + 1) else None
  }

  /** `findUnique({ where: { id } })` on the user table. */
  function FindUser(users: seq<User>, id: string): (r: Option<nat>)
    ensures r.Some? ==> r.value < |users| && users[r.value].id == id
    ensures r.None? <==> id !in UserIds(users)
  {
    if users == [] then None
    else if users[0].id == id then Some(0)
    else
      var r := FindUser(users[1..], id);
      assert UserIds(users) == {users[0].id} + UserIds(users[1..]) by {
        assert users == [users[0]] + users[1..];
      }
      if r.Some? then Some(r.value + 1) else None
  }

  // ------------------------------------------------------------ filters

  /** The elements of `xs` that satisfy `p`, in order (a `where` clause). */
  function Filter<T(!new)>(xs: seq<T>, p: T -> bool): (r: seq<T>)
    ensures |r| <= |xs|
    ensures forall x :: x in r <==> x in xs && p(x)
  {
    if xs == [] then [] else (if p(xs[0]) then [xs[0]] else []) + Filter(xs[1..], p)
  }

  /** Filtering distributes over concatenation, so it keeps the relative order. */
  lemma {:induction false} FilterAppend<T(!new)>(xs: seq<T>, ys: seq<T>, p: T -> bool)
    ensures Filter(xs + ys, p) == Filter(xs, p) + Filter(ys, p)
  {
    if xs == [] {
      assert xs + ys == ys;
    } else {
      assert (xs + ys)[1..] == xs[1..] + ys;
      FilterAppend(xs[1..], ys, p);
    }
  }

  /** A filter that every element passes changes nothing. */
  lemma {:induction false} FilterAll<T(!new)>(xs: seq<T>, p: T -> bool)
    requires forall x :: x in xs ==> p(x)
    ensures Filter(xs, p) == xs
  {
    if xs != [] {
      FilterAll(xs[1..], p);
    }
  }

  /** The multiset of a filter is the multiset restricted to `p`. */
  lemma {:induction false} FilterMultiset<T(!new)>(xs: seq<T>, p: T -> bool, x: T)
    ensures multiset(Filter(xs, p))[x] == if p(x) then multiset(xs)[x] else 0
  {
    if xs != [] {
      FilterMultiset(xs[1..], p, x);
      assert xs == [xs[0]] + xs[1..];
    }
  }

  /** A filter keeps the whole sequence exactly when every element passes. */
  lemma {:induction false} FilterLength<T(!new)>(xs: seq<T>, p: T -> bool)
    ensures |Filter(xs, p)| == |xs| <==> forall x :: x in xs ==> p(x)
  {
    if xs != [] {
      FilterLength(xs[1..], p);
      assert xs == [xs[0]] + xs[1..];
      if !p(xs[0]) {
        assert |Filter(xs, p)| <= |xs[1..]|;
      }
    }
  }

  /** Number of elements of `xs` that satisfy `p` (a `count({ where })` query). */
  function CountWhere<T(!new)>(xs: seq<T>, p: T -> bool): nat {
    |Filter(xs, p)|
  }

  /** `p` narrowed to one status (`where: { ..., status: s }`). */
  function WithStatus(p: Blog -> bool, s: Status): Blog -> bool {
    (b: Blog) => p(b) && b.status == s
  }

  /** Every row has one of the three statuses, so the three status counts add up to the whole count. */
  lemma {:induction false} StatusPartition(blogs: seq<Blog>, p: Blog -> bool)
    ensures CountWhere(blogs, p) ==
            CountWhere(blogs, WithStatus(p, PENDING)) + CountWhere(blogs, WithStatus(p, APPROVED))
            + CountWhere(blogs, WithStatus(p, REJECTED))
  {
    if blogs != [] {
      StatusPartition(blogs[1..], p);
    }
  }

  /** The rows `delete({ where: { id } })` leaves alone. */
  function OtherId(id: string): Blog -> bool {
    (b: Blog) => b.id != id
  }

  /** The rows whose id differs from `id`, in order (what `delete` leaves behind). */
  function RemoveById(blogs: seq<Blog>, id: string): (r: seq<Blog>)
    ensures forall b :: b in r <==> b in blogs && b.id != id
    ensures id !in BlogIds(r)
  {
    Filter(blogs, OtherId(id))
  }

  /** Removing an id that is absent changes nothing. */
  lemma RemoveAbsent(blogs: seq<Blog>, id: string)
    requires id !in BlogIds(blogs)
    ensures RemoveById(blogs, id) == blogs
  {
    FilterAll(blogs, OtherId(id));
  }

  /** With unique ids, no other row has the id of row `i`. */
  lemma OthersDiffer(blogs: seq<Blog>, i: nat)
    requires UniqueBlogIds(blogs) && i < |blogs|
    ensures forall x :: x in blogs[..i] ==> OtherId(blogs[i].id)(x)
    ensures forall x :: x in blogs[i + 1..] ==> OtherId(blogs[i].id)(x)
  {
    forall x | x in blogs[..i]
      ensures x.id != blogs[i].id
    {
      var j :| 0 <= j < i && blogs[..i][j] == x;
      assert blogs[j] == x;
    }
    forall x | x in blogs[i + 1..]
      ensures x.id != blogs[i].id
    {
      var j :| 0 <= j < |blogs| - i - 1 && blogs[i + 1..][j] == x;
      assert blogs[i + 1 + j] == x;
    }
  }

  /** With unique ids, removing an id that is present removes exactly the row at its index. */
  lemma RemovePresent(blogs: seq<Blog>, i: nat)
    requires UniqueBlogIds(blogs) && i < |blogs|
    ensures RemoveById(blogs, blogs[i].id) == blogs[..i] + blogs[i + 1..]
  {
    OthersDiffer(blogs, i);
    assert blogs == blogs[..i] + [blogs[i]] + blogs[i + 1..];
    FilterDropsOne(blogs[..i], blogs[i], blogs[i + 1..], OtherId(blogs[i].id));
  }

  /** A filter that keeps everything around one element it rejects drops just that element. */
  lemma FilterDropsOne<T(!new)>(pre: seq<T>, x: T, post: seq<T>, p: T -> bool)
    requires forall y :: y in pre ==> p(y)
    requires forall y :: y in post ==> p(y)
    requires !p(x)
    ensures Filter(pre + [x] + post, p) == pre + post
  {
    FilterAll(pre, p);
    FilterAll(post, p);
    assert [x][1..] == [];
    assert Filter([x], p) == [];
    FilterAppend(pre + [x], post, p);
    FilterAppend(pre, [x], p);
    assert pre + [] == pre;
  }

  /** Any filter of rows with unique ids has unique ids. */
  lemma {:induction false} FilterUnique(blogs: seq<Blog>, p: Blog -> bool)
    requires UniqueBlogIds(blogs)
    ensures UniqueBlogIds(Filter(blogs, p))
  {
    if blogs != [] {
      var tail := Filter(blogs[1..], p);
      FilterUnique(blogs[1..], p);
      if p(blogs[0]) {
        var r := [blogs[0]] + tail;
        forall j | 0 < j < |r| ensures r[0].id != r[j].id {
          assert r[j] in blogs[1..];
        }
        assert forall i, j :: 0 < i < j < |r| ==> r[i] == tail[i - 1] && r[j] == tail[j - 1];
      }
    }
  }

  /** Removal keeps ids unique. */
  lemma RemoveUnique(blogs: seq<Blog>, id: string)
    requires UniqueBlogIds(blogs)
    ensures UniqueBlogIds(RemoveById(blogs, id))
  {
    FilterUnique(blogs, OtherId(id));
  }

  /**
   * The status filter of a `status` query parameter: absent, empty or 'ALL'
   * means no filter (`Some(None)`); an enum value filters on it; any other
   * string makes the store reject the query (`None`).
   */
  function StatusFilter(param: Option<string>): (r: Option<Option<Status>>)
    ensures param.None? || param == Some("") || param == Some("ALL") ==> r == Some(None)
    ensures r.Some? && r.value.Some? ==> param == Some(StatusName(r.value.value))
    ensures param.Some? && param.value != "" && param.value != "ALL" ==>
              (r.Some? <==> ParseStatus(param.value).Some?) && (r.Some? ==> r.value == ParseStatus(param.value))
  {
    if param.None? || param.value == "" || param.value == "ALL" then Some(None)
    else
      var s := ParseStatus(param.value);
      if s.Some? then Some(s) else None
  }

  // ------------------------------------------------------------ ordering

  /** The position of a status in the enum's declaration order (its `asc` order). */
  function StatusRank(s: Status): nat {
    match s
    case PENDING => 0
    case APPROVED => 1
    case REJECTED => 2
  }

  /** The two `orderBy` clauses the blog handlers use. */
  datatype BlogOrder =
    | CreatedDesc            // orderBy: { createdAt: 'desc' }
    | StatusAscCreatedDesc   // orderBy: [{ status: 'asc' }, { createdAt: 'desc' }]

  /** `a` may come before `b` in order `o`. */
  predicate Before(o: BlogOrder, a: Blog, b: Blog) {
    match o
    case CreatedDesc => a.createdAt >= b.createdAt
    case StatusAscCreatedDesc =>
      StatusRank(a.status) < StatusRank(b.status) ||
      (a.status == b.status && a.createdAt >= b.createdAt)
  }

  function BeforeRel(o: BlogOrder): (Blog, Blog) -> bool {
    (a: Blog, b: Blog) => Before(o, a, b)
  }

  /** Both orders are total preorders, so sorting by them is defined. */
  lemma BeforePreorder(o: BlogOrder)
    ensures Total(BeforeRel(o)) && Transitive(BeforeRel(o))
  {
  }

  /** `orderBy: { createdAt: 'desc' }` on users. */
  function UserNewerRel(): (User, User) -> bool {
    (a: User, b: User) => a.createdAt >= b.createdAt
  }

  lemma UserNewerPreorder()
    ensures Total(UserNewerRel()) && Transitive(UserNewerRel())
  {
  }

  /** The head of a list sorted newest first is at least as new as every element. */
  lemma SortedHeadNewest(s: seq<Blog>)
    requires SortedBy(BeforeRel(CreatedDesc), s) && s != []
    ensures forall b :: b in s ==> b.createdAt <= s[0].createdAt
  {
    forall b | b in s ensures b.createdAt <= s[0].createdAt {
      var k :| 0 <= k < |s| && s[k] == b;
      assert k == 0 || Before(CreatedDesc, s[0], s[k]);
    }
  }

  /**
   * `findMany({ where: p, orderBy: o })`: the rows satisfying `p`, each as
   * often as it is stored, in order `o`.
   */
  function FindMany(blogs: seq<Blog>, p: Blog -> bool, o: BlogOrder): (r: seq<Blog>)
    ensures SortedBy(BeforeRel(o), r)
    ensures |r| == CountWhere(blogs, p)
    ensures forall b :: b in r <==> b in blogs && p(b)
    ensures forall b :: multiset(r)[b] == if p(b) then multiset(blogs)[b] else 0
  {
    var selected := Filter(blogs, p);
    assert forall b :: multiset(selected)[b] == if p(b) then multiset(blogs)[b] else 0 by {
      forall b { FilterMultiset(blogs, p, b); }
    }
    BeforePreorder(o);
    var sorted := Sort(BeforeRel(o), selected);
    assert forall b :: b in sorted <==> b in selected by {
      forall b ensures b in sorted <==> b in selected {
        assert b in sorted <==> b in multiset(sorted);
      }
    }
    assert |multiset(sorted)| == |multiset(selected)|;
    sorted
  }
}
