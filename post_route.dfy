/**
 * The blog app's `/api/post` handlers: an unauthenticated CRUD interface to
 * the post table. Each request body is JSON; a body that does not parse
 * makes the handler fail with 500.
 */
module PostRoute {
  import opened Wrappers
  import opened Slug
  import opened Entities

  datatype Body =
    | Failure(error: string)
    | Listed(blogs: seq<Blog>)
    | Saved(message: string, blog: Blog)
    | Done(message: string)

  datatype Response = Response(code: int, body: Body)

  /** The fields the handlers read from a body; an absent or empty field is the empty string. */
  datatype PostBody = PostBody(title: string, content: string, authorId: string)
  datatype PutBody = PutBody(id: string, title: string, content: string)

  /** `GET /api/post`: every post, as stored. */
  function Get(blogs: seq<Blog>): (r: Response)
    ensures r.code == 200 && r.body.Listed?
    ensures r.body.blogs == blogs
  {
    Response(200, Listed(blogs))
  }

  /** The hyphen slug with leading and trailing hyphens stripped. */
  function PostSlug(title: string): (r: string)
    ensures r == Slugify(title, '-', true)
    ensures OnlySlugAndSep(r, '-') && NoDoubleSep(r, '-')
    ensures r == [] || (r[0] != '-' && r[|r| - 1] != '-')
    ensures Keep(r) == Keep(Strings.Lower(title))
  {
    SlugifySpec(title, '-', true);
    Slugify(title, '-', true)
  }

  /**
   * The row `create` stores: only title, content, slug and author are
   * given; excerpt and image are empty, the status is the table default
   * PENDING, and there is no publication date.
   */
  function NewPost(b: PostBody, id: string, now: int): (r: Blog)
    ensures r.id == id && r.title == b.title && r.content == b.content && r.authorId == b.authorId
    ensures r.slug == PostSlug(b.title)
    ensures r.excerpt.None? && r.imageUrl.None? && r.rejectionReason.None? && r.publishedAt.None?
    ensures r.status == PENDING
  {
    Blog(id, b.title, b.content, None, PostSlug(b.title), None, b.authorId, PENDING, None, now, now, None)
  }

  /**
   * `POST /api/post`. `newId` is the id the store generates. An author id
   * naming no user violates the foreign key, which the handler reports as 500.
   */
  method Post(db: BlogDb, body: Option<PostBody>, newId: string, now: int) returns (resp: Response)
    requires db.Valid() && newId !in BlogIds(db.blogs)
    modifies db
    ensures db.Valid() && db.users == old(db.users)
    ensures body.None? ==> resp == Response(500, Failure("Failed to save blog"))
    ensures body.Some? && (body.value.title == "" || body.value.content == "" || body.value.authorId == "") ==>
              resp == Response(400, Failure("Title, Content, and Author ID are required"))
    ensures body.Some? && body.value.title != "" && body.value.content != "" && body.value.authorId != ""
            && body.value.authorId !in UserIds(old(db.users)) ==>
              resp == Response(500, Failure("Failed to save blog"))
    ensures resp.code != 201 ==> db.blogs == old(db.blogs)
    ensures resp.code == 201 <==>
              body.Some? && body.value.title != "" && body.value.content != "" && body.value.authorId != ""
              && body.value.authorId in UserIds(old(db.users))
    ensures resp.code == 201 ==>
              var blog := NewPost(body.value, newId, now);
              resp == Response(201, Saved("Blog saved successfully", blog)) && db.blogs == old(db.blogs) + [blog]
  {
    if body.None? {
      return Response(500, Failure("Failed to save blog"));
    }
    var data := body.value;
    if data.title == "" || data.content == "" || data.authorId == "" {
      return Response(400, Failure("Title, Content, and Author ID are required"));
    }
    if FindUser(db.users, data.authorId).None? {
      return Response(500, Failure("Failed to save blog"));
    }
    var blog := NewPost(data, newId, now);
    db.CreateBlog(blog);
    resp := Response(201, Saved("Blog saved successfully", blog));
  }

  /** The row after a `PUT`: title and content replaced when the new value is non-empty. */
  function Edited(b: Blog, title: string, content: string): (r: Blog)
    ensures r.title == (if title != "" then title else b.title)
    ensures r.content == (if content != "" then content else b.content)
    ensures r.(title := b.title, content := b.content) == b
  {
    b.(title := if title != "" then title else b.title,
       content := if content != "" then content else b.content)
  }

  /** Repeating a `PUT` changes nothing more. */
  lemma EditedIdempotent(b: Blog, title: string, content: string)
    ensures Edited(Edited(b, title, content), title, content) == Edited(b, title, content)
  {
  }

  /** An edit with neither field given leaves the row as it was. */
  lemma EditedEmpty(b: Blog)
    ensures Edited(b, "", "") == b
  {
  }

  /** `PUT /api/post`: a partial update of title and content; every other field and row is kept. */
  method Put(db: BlogDb, body: Option<PutBody>) returns (resp: Response)
    requires db.Valid()
    modifies db
    ensures db.Valid() && db.users == old(db.users)
    ensures body.None? ==> resp == Response(500, Failure("Failed to update blog"))
    ensures body.Some? && body.value.id == "" ==> resp == Response(400, Failure("Blog ID is required"))
    ensures body.Some? && body.value.id != "" && body.value.id !in BlogIds(old(db.blogs)) ==>
              resp == Response(404, Failure("Blog not found"))
    ensures resp.code != 200 ==> db.blogs == old(db.blogs)
    ensures resp.code == 200 <==> body.Some? && body.value.id != "" && body.value.id in BlogIds(old(db.blogs))
    ensures resp.code == 200 ==>
              var k := FindBlog(old(db.blogs), body.value.id).value;
              var updated := Edited(old(db.blogs)[k], body.value.title, body.value.content);
              && db.blogs == old(db.blogs)[k := updated]
              && resp == Response(200, Saved("Blog updated successfully", updated))
  {
    if body.None? {
      return Response(500, Failure("Failed to update blog"));
    }
    var data := body.value;
    if data.id == "" {
      return Response(400, Failure("Blog ID is required"));
    }
    var k := FindBlog(db.blogs, data.id);
    if k.None? {
      return Response(404, Failure("Blog not found"));
    }
    var updated := Edited(db.blogs[k.value], data.title, data.content);
    db.blogs := db.blogs[k.value := updated];
    assert forall j :: 0 <= j < |db.blogs| ==> db.blogs[j].id == old(db.blogs)[j].id;
    resp := Response(200, Saved("Blog updated successfully", updated));
  }

  /** `DELETE /api/post` with the id in the body: exactly that row is removed. */
  method Delete(db: BlogDb, body: Option<string>) returns (resp: Response)
    requires db.Valid()
    modifies db
    ensures db.Valid() && db.users == old(db.users)
    ensures body.None? ==> resp == Response(500, Failure("Failed to delete blog"))
    ensures body == Some("") ==> resp == Response(400, Failure("Id is required"))
    ensures body.Some? && body.value != "" && body.value !in BlogIds(old(db.blogs)) ==>
              resp == Response(404, Failure("Blog not found"))
    ensures resp.code != 200 ==> db.blogs == old(db.blogs)
    ensures resp.code == 200 <==> body.Some? && body.value != "" && body.value in BlogIds(old(db.blogs))
    ensures resp.code == 200 ==>
              && resp == Response(200, Done("Blog deleted successfully"))
              && db.blogs == RemoveById(old(db.blogs), body.value)
              && |db.blogs| == |old(db.blogs)| - 1
  {
    if body.None? {
      return Response(500, Failure("Failed to delete blog"));
    }
    var id := body.value;
    if id == "" {
      return Response(400, Failure("Id is required"));
    }
    var k := FindBlog(db.blogs, id);
    if k.None? {
      return Response(404, Failure("Blog not found"));
    }
    RemovePresent(db.blogs, k.value);
    RemoveUnique(db.blogs, id);
    db.blogs := RemoveById(db.blogs, id);
    resp := Response(200, Done("Blog deleted successfully"));
  }
}
