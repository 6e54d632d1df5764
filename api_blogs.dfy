/**
 * The blog app's `/api/blogs` handlers: `POST` creates a post for the
 * signed-in user (always PENDING), `GET` lists the posts the caller may see,
 * newest first.
 */
module ApiBlogsRoute {
  import opened Wrappers
  import opened Strings
  import opened Slug
  import opened Claims
  import opened Entities
  import opened Sorting
  import HistoryLog

  /** The JSON body of a `POST`; an absent or empty field is the empty string. */
  datatype CreateBody = CreateBody(title: string, content: string, excerpt: string, imageUrl: string, status: string)

  datatype Body = Failure(error: string) | Created(blog: Blog) | Listed(blogs: seq<Blog>)

  datatype Response = Response(code: int, body: Body)

  /** The length `substring(0, 150)` keeps for a default excerpt. */
  const ExcerptLength: nat := 150

  // --------------------------------------------------------------- POST

  /** The title and content are both present and non-empty. */
  predicate Complete(b: CreateBody) {
    b.title != "" && b.content != ""
  }

  /**
   * `session.user.name || session.user.email?.split('@')[0] || 'Anonymous'`:
   * the name, else the part of the e-mail before its first '@', else 'Anonymous'.
   */
  function AuthorName(u: Identity): (r: string)
    ensures r != ""
    ensures u.name != "" ==> r == u.name
    ensures u.name == "" && u.email != [] && u.email[0] != '@' ==> r == LocalPart(u.email)
    ensures u.name == "" && (u.email == [] || u.email[0] == '@') ==> r == "Anonymous"
  {
    if u.name != "" then u.name
    else if LocalPart(u.email) != "" then LocalPart(u.email)
    else "Anonymous"
  }

  /** The user row created for a first-time author. */
  function NewAuthor(u: Identity, now: int): (r: User)
    ensures r.id == u.sub && r.email == u.email && r.role == USER && r.createdAt == now
    ensures r.name == Some(AuthorName(u)) && r.name.value != ""
  {
    User(u.sub, u.email, Some(AuthorName(u)), USER, now)
  }

  /**
   * The post `POST` stores: status PENDING and no publication date whatever
   * the client sent, the excerpt defaulting to the first 150 characters of
   * the title, the image defaulting to '', and the untrimmed '-' slug.
   */
  function NewBlog(b: CreateBody, id: string, authorId: string, now: int): (r: Blog)
    ensures r.status == PENDING && r.publishedAt.None? && r.rejectionReason.None?
    ensures r.title == b.title && r.content == b.content && r.id == id && r.authorId == authorId
    ensures r.excerpt == Some(if b.excerpt != "" then b.excerpt else Prefix(b.title, ExcerptLength))
    ensures r.imageUrl == Some(b.imageUrl)
    ensures r.slug == Slugify(b.title, '-', false)
    ensures OnlySlugAndSep(r.slug, '-') && NoDoubleSep(r.slug, '-') && Keep(r.slug) == Keep(Lower(b.title))
    ensures UntrimmedEnds(Lower(b.title), r.slug, '-')
  {
    SlugifySpec(b.title, '-', false);
    Blog(id, b.title, b.content,
         Some(if b.excerpt != "" then b.excerpt else Prefix(b.title, ExcerptLength)),
         Slugify(b.title, '-', false),
         Some(if b.imageUrl != "" then b.imageUrl else ""),
         authorId, PENDING, None, now, now, None)
  }

  /** The history message written after a creation: the post's id and status, the author's e-mail. */
  function HistoryMessage(blog: Blog, user: User, createdIso: string, updatedIso: string): (m: HistoryLog.Message)
    ensures m.payload.application == HistoryLog.HistoryApp && m.payload.historyId == blog.id
    ensures m.payload.createdAt == createdIso && m.payload.updatedAt == updatedIso
    ensures m.payload.userEmail == user.email && m.contextUser == user.email
    ensures ParseStatus(m.payload.status) == Some(blog.status)
  {
    ParseStatusName(blog.status);
    HistoryLog.Message(
      HistoryLog.Payload(HistoryLog.HistoryApp, blog.id, createdIso, updatedIso, user.email, StatusName(blog.status)),
      user.email)
  }

  /**
   * `POST /api/blogs`. `newId` is the id the store generates for the post,
   * `now` the creation instant and `nowIso` its ISO form; `historyFails`
   * says whether the history write fails, which never changes the answer.
   */
  method Post(db: BlogDb, history: HistoryLog.HistoryTable, session: Session, body: Option<CreateBody>,
              newId: string, now: int, nowIso: string, historyFails: bool)
    returns (resp: Response)
    requires db.Valid() && history.Valid()
    requires newId !in BlogIds(db.blogs)
    modifies db, history
    ensures db.Valid() && history.Valid()
    ensures session.None? ==> resp == Response(401, Failure("Unauthorized"))
    ensures session.Some? && body.None? ==> resp == Response(400, Failure("Invalid request data"))
    ensures session.Some? && body.Some? && !Complete(body.value) ==>
              resp == Response(400, Failure("Title and content are required"))
    ensures resp.code != 201 ==> db.blogs == old(db.blogs) && db.users == old(db.users)
                                 && history.items == old(history.items)
    ensures resp.code == 201 || resp.code == 400 || resp.code == 401 || resp.code == 500
    ensures session.Some? && body.Some? && Complete(body.value) ==>
      var u := session.value;
      var k := FindUserByEmail(old(db.users), u.email);
      if k.None? && u.sub in UserIds(old(db.users)) then
        resp == Response(500, Failure("Internal Server Error"))
      else
        var author := if k.Some? then old(db.users)[k.value] else NewAuthor(u, now);
        var blog := NewBlog(body.value, newId, author.id, now);
        && resp == Response(201, Created(blog))
        && db.users == (if k.Some? then old(db.users) else old(db.users) + [author])
        && db.blogs == old(db.blogs) + [blog]
        && history.items == if historyFails then old(history.items)
                            else old(history.items)[HistoryLog.KeyOf(HistoryLog.ItemOf(HistoryMessage(blog, author, nowIso, nowIso).payload))
                                                    := HistoryLog.ItemOf(HistoryMessage(blog, author, nowIso, nowIso).payload)]
  {
    if session.None? {
      return Response(401, Failure("Unauthorized"));
    }
    var u := session.value;
    if body.None? {
      return Response(400, Failure("Invalid request data"));
    }
    var data := body.value;
    if data.title == "" || data.content == "" {
      return Response(400, Failure("Title and content are required"));
    }
    // Get or create the author.
    var k := FindUserByEmail(db.users, u.email);
    var user: User;
    if k.Some? {
      user := db.users[k.value];
    } else {
      if FindUser(db.users, u.sub).Some? {
        // The primary key is taken: the store rejects the insert.
        return Response(500, Failure("Internal Server Error"));
      }
      user := NewAuthor(u, now);
      db.CreateUser(user);
    }
    var blog := NewBlog(data, newId, user.id, now);
    db.CreateBlog(blog);
    // The history side-write; its failure is logged and ignored.
    var _ := history.CreateItem(HistoryMessage(blog, user, nowIso, nowIso), historyFails);
    resp := Response(201, Created(blog));
  }

  // ---------------------------------------------------------------- GET

  /** A caller is an admin here only through the `role` claim. */
  predicate IsAdminHere(u: Identity): (r: bool)
    ensures r <==> u.role == Some("ADMIN")
  {
    u.role == Some("ADMIN")
  }

  /** The `where` clause: an admin sees every post passing the filter. */
  predicate AdminWhere(filter: Option<Status>, b: Blog) {
    filter.None? || b.status == filter.value
  }

  /** The `where` clause for others: their own posts passing the filter, or any approved post. */
  predicate UserWhere(u: Identity, filter: Option<Status>, b: Blog) {
    (b.authorId == u.sub && (filter.None? || b.status == filter.value)) || b.status == APPROVED
  }

  predicate Where(u: Identity, filter: Option<Status>, b: Blog) {
    if IsAdminHere(u) then AdminWhere(filter, b) else UserWhere(u, filter, b)
  }

  /** `GET /api/blogs?status=…`. */
  function Get(blogs: seq<Blog>, session: Session, statusParam: Option<string>): (r: Response)
    ensures r.code == 401 <==> session.None?
    ensures r.code == 500 <==> session.Some? && StatusFilter(statusParam).None?
    ensures r.code == 200 <==> session.Some? && StatusFilter(statusParam).Some?
    ensures r.code == 200 ==>
      var u := session.value;
      var filter := StatusFilter(statusParam).value;
      && r.body.Listed?
      && SortedBy(BeforeRel(CreatedDesc), r.body.blogs)
      && (forall b :: b in r.body.blogs <==> b in blogs && Where(u, filter, b))
      && (forall b :: multiset(r.body.blogs)[b] == if Where(u, filter, b) then multiset(blogs)[b] else 0)
    ensures r.code == 200 && !IsAdminHere(session.value) ==>
      forall b :: b in r.body.blogs ==> b.authorId == session.value.sub || b.status == APPROVED
  {
    if session.None? then Response(401, Failure("Unauthorized"))
    else
      var u := session.value;
      var filter := StatusFilter(statusParam);
      if filter.None? then Response(500, Failure("Internal Server Error"))
      else
        Response(200, Listed(FindMany(blogs, (b: Blog) => Where(u, filter.value, b), CreatedDesc)))
  }
}
