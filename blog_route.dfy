/**
 * The blog app's `/blog` handlers: `POST` creates a post for the signed-in
 * user honouring the client's slug and status, `GET` lists posts page by
 * page, newest first.
 */
module BlogRoute {
  import opened Wrappers
  import opened Strings
  import opened Slug
  import opened Claims
  import opened Entities
  import opened Sorting
  import opened Numbers

  /** The JSON body of a `POST`; an absent or empty field is the empty string. */
  datatype CreateBody = CreateBody(
    title: string, content: string, excerpt: string, slug: string, imageUrl: string, status: string)

  datatype Pagination = Pagination(total: nat, page: int, limit: int, totalPages: nat)

  datatype Body =
    | Failure(error: string)
    | Created(blog: Blog)
    | Paged(blogs: seq<Blog>, pagination: Pagination)

  datatype Response = Response(code: int, body: Body)

  /** The length `substring(0, 150)` keeps for a default excerpt. */
  const ExcerptLength: nat := 150

  // --------------------------------------------------------------- POST

  /** `session.user.name || session.user.email.split('@')[0]` (no further fallback). */
  function AuthorName(u: Identity): (r: string)
    ensures u.name != "" ==> r == u.name
    ensures u.name == "" ==> r == LocalPart(u.email)
  {
    if u.name != "" then u.name else LocalPart(u.email)
  }

  /**
   * The post `POST` asks the store for: the client's slug and status win
   * over the defaults (the '-' slug of the title, PENDING); a status that
   * is no enum value makes the store refuse (`None`). An empty image is
   * stored as null.
   */
  function ClientBlog(b: CreateBody, id: string, authorId: string, now: int): (r: Option<Blog>)
    ensures r.None? <==> b.status != "" && ParseStatus(b.status).None?
    ensures r.Some? ==>
      var blog := r.value;
      && blog.id == id && blog.title == b.title && blog.content == b.content && blog.authorId == authorId
      && blog.status == (if b.status == "" then PENDING else ParseStatus(b.status).value)
      && StatusName(blog.status) == (if b.status == "" then "PENDING" else b.status)
      && blog.excerpt == Some(if b.excerpt != "" then b.excerpt else Prefix(b.title, ExcerptLength))
      && (b.slug != "" ==> blog.slug == b.slug)
      && (b.slug == "" ==> blog.slug == Slugify(b.title, '-', false)
                           && OnlySlugAndSep(blog.slug, '-') && NoDoubleSep(blog.slug, '-')
                           && Keep(blog.slug) == Keep(Lower(b.title))
                           && UntrimmedEnds(Lower(b.title), blog.slug, '-'))
      && (blog.imageUrl.None? <==> b.imageUrl == "")
      && (blog.imageUrl.Some? ==> blog.imageUrl.value == b.imageUrl)
      && blog.publishedAt.None? && blog.rejectionReason.None?
  {
    SlugifySpec(b.title, '-', false);
    var status := ParseStatus(if b.status != "" then b.status else "PENDING");
    if status.None? then None
    else
      Some(Blog(id, b.title, b.content,
                Some(if b.excerpt != "" then b.excerpt else Prefix(b.title, ExcerptLength)),
                if b.slug != "" then b.slug else Slugify(b.title, '-', false),
                if b.imageUrl != "" then Some(b.imageUrl) else None,
                authorId, status.value, None, now, now, None))
  }

  /**
   * `POST /blog`. `newId` is the id the store generates for the post. The
   * author row is created before the post, so a refused status leaves a
   * new author behind.
   */
  method Post(db: BlogDb, session: Session, body: Option<CreateBody>, newId: string, now: int)
    returns (resp: Response)
    requires db.Valid() && newId !in BlogIds(db.blogs)
    modifies db
    ensures db.Valid()
    ensures session.None? ==> resp == Response(401, Failure("Unauthorized"))
    ensures session.Some? && body.None? ==> resp == Response(500, Failure("Error creating blog"))
    ensures session.Some? && body.Some? && (body.value.title == "" || body.value.content == "") ==>
              resp == Response(400, Failure("Title and content are required"))
    ensures session.None? || body.None? || body.value.title == "" || body.value.content == "" ==>
              db.blogs == old(db.blogs) && db.users == old(db.users)
    ensures session.Some? && body.Some? && body.value.title != "" && body.value.content != "" ==>
      var u := session.value;
      var k := FindUserByEmail(old(db.users), u.email);
      if k.None? && u.sub in UserIds(old(db.users)) then
        resp == Response(500, Failure("Error creating blog")) && db.blogs == old(db.blogs) && db.users == old(db.users)
      else
        var author := if k.Some? then old(db.users)[k.value] else User(u.sub, u.email, Some(AuthorName(u)), USER, now);
        var blog := ClientBlog(body.value, newId, author.id, now);
        && db.users == (if k.Some? then old(db.users) else old(db.users) + [author])
        && (blog.None? ==> resp == Response(500, Failure("Error creating blog")) && db.blogs == old(db.blogs))
        && (blog.Some? ==> resp == Response(200, Created(blog.value)) && db.blogs == old(db.blogs) + [blog.value])
  {
    if session.None? {
      return Response(401, Failure("Unauthorized"));
    }
    var u := session.value;
    if body.None? {
      return Response(500, Failure("Error creating blog"));
    }
    var data := body.value;
    if data.title == "" || data.content == "" {
      return Response(400, Failure("Title and content are required"));
    }
    var k := FindUserByEmail(db.users, u.email);
    var user: User;
    if k.Some? {
      user := db.users[k.value];
    } else {
      if FindUser(db.users, u.sub).Some? {
        return Response(500, Failure("Error creating blog"));
      }
      user := User(u.sub, u.email, Some(AuthorName(u)), USER, now);
      db.CreateUser(user);
    }
    var blog := ClientBlog(data, newId, user.id, now);
    if blog.None? {
      return Response(500, Failure("Error creating blog"));
    }
    db.CreateBlog(blog.value);
    resp := Response(200, Created(blog.value));
  }

  // ---------------------------------------------------------------- GET

  /** The rows `skip = (page - 1) * limit` up to `skip + limit` (exclusive) of `xs`. */
  function PageOf<T>(xs: seq<T>, page: int, limit: int): (r: seq<T>)
    requires page >= 1 && limit >= 1
    ensures |r| <= limit
    ensures var skip := (page - 1) * limit;
      if skip >= |xs| then r == []
      else r == xs[skip..if skip + limit <= |xs| then skip + limit else |xs|]
  {
    var skip := (page - 1) * limit;
    if skip >= |xs| then [] else xs[skip..if skip + limit <= |xs| then skip + limit else |xs|]
  }

  /** Pages 1 to `n`, one after the other. */
  function Pages<T>(xs: seq<T>, limit: int, n: nat): seq<T>
    requires limit >= 1
  {
    if n == 0 then [] else Pages(xs, limit, n - 1) + PageOf(xs, n, limit)
  }

  /** The first `n` pages are the first `n * limit` rows. */
  lemma {:induction false} PagesPrefix<T>(xs: seq<T>, limit: int, n: nat)
    requires limit >= 1
    ensures Pages(xs, limit, n) == xs[..if n * limit <= |xs| then n * limit else |xs|]
  {
    if n > 0 {
      PagesPrefix(xs, limit, n - 1);
      var skip := (n - 1) * limit;
      assert n * limit == skip + limit;
      if skip >= |xs| {
        assert n * limit >= |xs|;
      }
    }
  }

  /** Reading pages 1 to `totalPages` gives every row exactly once, in order. */
  lemma PagesCover<T>(xs: seq<T>, limit: int)
    requires limit >= 1
    ensures Pages(xs, limit, CeilDiv(|xs|, limit)) == xs
  {
    PagesPrefix(xs, limit, CeilDiv(|xs|, limit));
  }

  /** The `where` of a listing: no filter, or one status. */
  function BlogWhere(filter: Option<Status>): Blog -> bool {
    (b: Blog) => filter.None? || b.status == filter.value
  }

  /** `if (status) where = { status }`: an empty or absent parameter means no filter; no 'ALL' case. */
  function ListFilter(param: Option<string>): (r: Option<Option<Status>>)
    ensures param.None? || param == Some("") ==> r == Some(None)
    ensures param.Some? && param.value != "" ==>
              (r.Some? <==> ParseStatus(param.value).Some?) && (r.Some? ==> r.value == ParseStatus(param.value))
  {
    if param.None? || param.value == "" then Some(None)
    else
      var s := ParseStatus(param.value);
      if s.Some? then Some(s) else None
  }

  /** `parseInt(searchParams.get(name) || fallback)`. */
  function IntParam(param: Option<string>, fallback: string): (r: Option<int>)
    ensures param.None? || param.value == "" ==> r == ParseInt(fallback)
    ensures param.Some? && param.value != "" ==> r == ParseInt(param.value)
  {
    ParseInt(if param.None? || param.value == "" then fallback else param.value)
  }

  /** A page or limit written out in decimal is read back as that number. */
  lemma IntParamRoundTrip(n: int, fallback: string)
    ensures IntParam(Some(IntString(n)), fallback) == Some(n)
  {
    ParseIntDecimal(n);
  }

  /** The page and limit can be used: both are numbers and at least 1. */
  predicate PagingOk(page: Option<int>, limit: Option<int>): (r: bool)
    ensures r ==> page.Some? && limit.Some? && (page.value - 1) * limit.value >= 0 && limit.value > 0
  {
    page.Some? && limit.Some? && page.value >= 1 && limit.value >= 1
  }

  /**
   * `GET /blog?status=…&page=…&limit=…`: the requested page of the matching
   * posts, newest first, with the match count and the number of pages.
   */
  function Get(blogs: seq<Blog>, statusParam: Option<string>, pageParam: Option<string>, limitParam: Option<string>)
    : (r: Response)
    ensures var page := IntParam(pageParam, "1");
            var limit := IntParam(limitParam, "10");
      r.code == 200 <==> ListFilter(statusParam).Some? && PagingOk(page, limit)
    ensures r.code != 200 ==> r == Response(500, Failure("Failed to fetch blogs"))
    ensures r.code == 200 ==>
      var page := IntParam(pageParam, "1").value;
      var limit := IntParam(limitParam, "10").value;
      var matching := FindMany(blogs, BlogWhere(ListFilter(statusParam).value), CreatedDesc);
      && r.body == Paged(PageOf(matching, page, limit),
                         Pagination(|matching|, page, limit, CeilDiv(|matching|, limit)))
      && |matching| == CountWhere(blogs, BlogWhere(ListFilter(statusParam).value))
  {
    var filter := ListFilter(statusParam);
    var page := IntParam(pageParam, "1");
    var limit := IntParam(limitParam, "10");
    if filter.None? || !PagingOk(page, limit) then Response(500, Failure("Failed to fetch blogs"))
    else
      var matching := FindMany(blogs, BlogWhere(filter.value), CreatedDesc);
      Response(200, Paged(PageOf(matching, page.value, limit.value),
                          Pagination(|matching|, page.value, limit.value, CeilDiv(|matching|, limit.value))))
  }

  /** An absent page parameter defaults to `parseInt('1')`. */
  lemma DefaultPage()
    ensures IntParam(None, "1") == Some(1)
  {
    assert IntParam(None, "1") == ParseInt("1");
    ParseIntOne();
  }

  /** An absent limit parameter defaults to `parseInt('10')`. */
  lemma DefaultLimit()
    ensures IntParam(None, "10") == Some(10)
  {
    assert IntParam(None, "10") == ParseInt("10");
    ParseIntTen();
  }

  /** Without parameters the answer is the ten newest posts, page 1 of `ceil(n / 10)`. */
  lemma GetDefaults(blogs: seq<Blog>)
    ensures Get(blogs, None, None, None).code == 200
    ensures Get(blogs, None, None, None).body.pagination == Pagination(|blogs|, 1, 10, CeilDiv(|blogs|, 10))
    ensures Get(blogs, None, None, None).body.blogs == Prefix(FindMany(blogs, BlogWhere(None), CreatedDesc), 10)
  {
    DefaultPage();
    DefaultLimit();
    assert ListFilter(None) == Some(None);
    var matching := FindMany(blogs, BlogWhere(None), CreatedDesc);
    FilterAll(blogs, BlogWhere(None));
    assert |matching| == |blogs|;
    PageOneIsPrefix(matching, 10);
  }

  lemma PageOneIsPrefix<T>(xs: seq<T>, limit: int)
    requires limit >= 1
    ensures PageOf(xs, 1, limit) == Prefix(xs, limit)
  {
  }
}
