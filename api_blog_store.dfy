/**
 * The api-blog example's `/api/blog` handlers over a module-level array of
 * posts: listing, creation (`push`), deletion (`filter`) and update in
 * place (index assignment). Post ids are numbers; the creation id is the
 * clock reading, a parameter here.
 */
module ApiBlogStore {
  import opened Wrappers
  import opened Strings
  import opened Entities

  datatype PostData = PostData(slugId: string, title: string, content: string)

  datatype Post = Post(id: int, data: PostData)

  datatype Body =
    | Failure(error: string)
    | PostsListed(posts: seq<Post>)
    | One(post: Post)
    | Message(message: string)
    | UpdatedPost(message: string, post: Post)

  datatype Response = Response(code: int, body: Body)

  const WelcomePost := PostData("welcome-post", "Welcome to Our Blog",
    "This is our first blog post. We're excited to share our thoughts and ideas with you!")
  const GettingStartedPost := PostData("getting-started", "Getting Started with Next.js",
    "Next.js is a powerful framework for building React applications. Let's explore its features together.")
  const WebDevelopmentPost := PostData("web-development", "Modern Web Development",
    "Learn about the latest trends in web development, from responsive design to progressive web apps.")

  /** The three posts the store starts with. */
  function MockPosts(): (r: seq<Post>)
    ensures |r| == 3 && r[0].id == 1 && r[1].id == 2 && r[2].id == 3
  {
    [Post(1, WelcomePost), Post(2, GettingStartedPost), Post(3, WebDevelopmentPost)]
  }

  /** All three fields are present and non-empty. */
  predicate CompleteData(d: PostData) {
    d.slugId != "" && d.title != "" && d.content != ""
  }

  function Ids(posts: seq<Post>): set<int> {
    set p | p in posts :: p.id
  }

  /** `posts.filter(post => post.id !== id)`. */
  function Without(posts: seq<Post>, id: int): (r: seq<Post>)
    ensures forall p :: p in r <==> p in posts && p.id != id
    ensures |r| == |posts| <==> id !in Ids(posts)
  {
    FilterLength(posts, (p: Post) => p.id != id);
    Filter(posts, (p: Post) => p.id != id)
  }

  /** The index of the first post with that id (`findIndex`), if any. */
  function FindPost(posts: seq<Post>, id: int): (r: Option<nat>)
    ensures r.None? <==> id !in Ids(posts)
    ensures r.Some? ==> r.value < |posts| && posts[r.value].id == id
    ensures r.Some? ==> forall j :: 0 <= j < r.value ==> posts[j].id != id
  {
    if posts == [] then None
    else if posts[0].id == id then Some(0)
    else
      var r := FindPost(posts[1..], id);
      assert Ids(posts) == {posts[0].id} + Ids(posts[1..]) by {
        assert posts == [posts[0]] + posts[1..];
      }
      if r.Some? then Some(r.value + 1) else None
  }

  /** The fields after an update: each given (non-empty) field replaces the old one. */
  function Merged(old_data: PostData, updates: PostData): (r: PostData)
    ensures r.slugId == if updates.slugId != "" then updates.slugId else old_data.slugId
    ensures r.title == if updates.title != "" then updates.title else old_data.title
    ensures r.content == if updates.content != "" then updates.content else old_data.content
  {
    PostData(if updates.slugId != "" then updates.slugId else old_data.slugId,
             if updates.title != "" then updates.title else old_data.title,
             if updates.content != "" then updates.content else old_data.content)
  }

  /** `parseInt(searchParams.get('id'))`: an absent parameter reads as the text "null", which is NaN. */
  function IdParam(param: Option<string>): Option<int> {
    ParseInt(if param.Some? then param.value else "null")
  }

  /** `!id`: NaN and 0 count as missing. */
  predicate UsableId(id: Option<int>) {
    id.Some? && id.value != 0
  }

  class PostStore {
    var posts: seq<Post>

    /** `let posts = [...mockPosts]`. */
    constructor()
      ensures posts == MockPosts()
    {
      posts := MockPosts();
    }

    /** `GET /api/blog`: the current posts. */
    function Get(): (r: Response)
      reads this
      ensures r.code == 200 && r.body.PostsListed? && r.body.posts == posts
    {
      Response(200, PostsListed(posts))
    }

    /** `POST /api/blog`: with all three fields, one post is appended and returned. */
    method Create(body: Option<PostData>, now: int) returns (resp: Response)
      modifies this
      ensures body.None? ==> resp == Response(500, Failure("Failed to create post")) && posts == old(posts)
      ensures body.Some? && !CompleteData(body.value) ==>
                resp == Response(400, Failure("Slug ID, title and content are required")) && posts == old(posts)
      ensures body.Some? && CompleteData(body.value) ==>
                && posts == old(posts) + [Post(now, body.value)]
                && resp == Response(201, One(Post(now, body.value)))
    {
      if body.None? {
        return Response(500, Failure("Failed to create post"));
      }
      var data := body.value;
      if data.slugId == "" || data.title == "" || data.content == "" {
        return Response(400, Failure("Slug ID, title and content are required"));
      }
      var newPost := Post(now, PostData(data.slugId, data.title, data.content));
      posts := posts + [newPost];
      resp := Response(201, One(newPost));
    }

    /**
     * `DELETE /api/blog?id=…`: every post with that id is removed, the
     * others keep their order; 404 when nothing was removed.
     */
    method Delete(idParam: Option<string>) returns (resp: Response)
      modifies this
      ensures !UsableId(IdParam(idParam)) ==>
                resp == Response(400, Failure("Post ID is required")) && posts == old(posts)
      ensures UsableId(IdParam(idParam)) ==>
        var id := IdParam(idParam).value;
        && posts == Without(old(posts), id)
        && (id !in Ids(old(posts)) ==> resp == Response(404, Failure("Post not found")) && posts == old(posts))
        && (id in Ids(old(posts)) ==>
              resp == Response(200, Message("Post " + IntString(id) + " deleted successfully")))
    {
      var id := IdParam(idParam);
      if !UsableId(id) {
        return Response(400, Failure("Post ID is required"));
      }
      var initialLength := |posts|;
      var before := posts;
      posts := Without(posts, id.value);
      if |posts| == initialLength {
        FilterAll(before, (p: Post) => p.id != id.value);
        return Response(404, Failure("Post not found"));
      }
      resp := Response(200, Message("Post " + IntString(id.value) + " deleted successfully"));
    }

    /**
     * `PUT /api/blog?id=…`: the body is read first (a bad body is 500 even
     * without an id); the first post with that id keeps its id and position
     * and takes the given fields.
     */
    method Update(idParam: Option<string>, updates: Option<PostData>) returns (resp: Response)
      modifies this
      ensures updates.None? ==> resp == Response(500, Failure("Failed to update post")) && posts == old(posts)
      ensures updates.Some? && !UsableId(IdParam(idParam)) ==>
                resp == Response(400, Failure("Post ID is required")) && posts == old(posts)
      ensures updates.Some? && UsableId(IdParam(idParam)) ==>
        var id := IdParam(idParam).value;
        var k := FindPost(old(posts), id);
        && (k.None? ==> resp == Response(404, Failure("Post not found")) && posts == old(posts))
        && (k.Some? ==>
              var post := Post(id, Merged(old(posts)[k.value].data, updates.value));
              && posts == old(posts)[k.value := post]
              && resp == Response(200, UpdatedPost("Post " + IntString(id) + " updated successfully", post)))
    {
      if updates.None? {
        return Response(500, Failure("Failed to update post"));
      }
      var id := IdParam(idParam);
      if !UsableId(id) {
        return Response(400, Failure("Post ID is required"));
      }
      var k := FindPost(posts, id.value);
      if k.None? {
        return Response(404, Failure("Post not found"));
      }
      var post := Post(posts[k.value].id, Merged(posts[k.value].data, updates.value));
      posts := posts[k.value := post];
      resp := Response(200, UpdatedPost("Post " + IntString(id.value) + " updated successfully", post));
    }
  }

  /** Deleting the id of a post just created, when no other post has it, restores the list. */
  lemma DeleteUndoesCreate(posts: seq<Post>, now: int, d: PostData)
    requires now !in Ids(posts)
    ensures Without(posts + [Post(now, d)], now) == posts
  {
    var keep := (p: Post) => p.id != now;
    FilterAppend(posts, [Post(now, d)], keep);
    FilterAll(posts, keep);
    assert Filter([Post(now, d)], keep) == [];
  }

  /** An id written out in decimal is read back by the id parameter. */
  lemma IdParamRoundTrip(id: int)
    ensures IdParam(Some(IntString(id))) == Some(id)
  {
    ParseIntDecimal(id);
  }

  lemma MockIds()
    ensures Ids(MockPosts()) == {1, 2, 3}
  {
    var m := MockPosts();
    assert forall p :: p in m ==> p == m[0] || p == m[1] || p == m[2];
    assert m[0] in m && m[1] in m && m[2] in m;
  }

  lemma IdsAppend(xs: seq<Post>, ys: seq<Post>)
    ensures Ids(xs + ys) == Ids(xs) + Ids(ys)
  {
    assert forall p :: p in xs + ys <==> p in xs || p in ys;
  }

  lemma IdsWithout(posts: seq<Post>, id: int)
    ensures Ids(Without(posts, id)) == Ids(posts) - {id}
  {
    var r := Without(posts, id);
    forall x | x in Ids(posts) - {id} ensures x in Ids(r) {
      var p :| p in posts && p.id == x;
      assert p in r;
    }
  }

  lemma IdsUpdate(posts: seq<Post>, k: nat, p: Post)
    requires k < |posts| && p.id == posts[k].id
    ensures Ids(posts[k := p]) == Ids(posts)
  {
    var q := posts[k := p];
    forall x | x in Ids(posts) ensures x in Ids(q) {
      var r :| r in posts && r.id == x;
      var i :| 0 <= i < |posts| && posts[i] == r;
      assert q[i].id == x;
    }
    forall x | x in Ids(q) ensures x in Ids(posts) {
      var r :| r in q && r.id == x;
      var i :| 0 <= i < |q| && q[i] == r;
      assert posts[i].id == x;
    }
  }

  /** `999` in decimal. */
  lemma Decimal999()
    ensures Decimal(999) == "999"
  {
    assert Decimal(9) == "9";
    assert Decimal(99) == Decimal(9) + "9";
  }

  /** The id parameters the Jest suite uses. */
  lemma SuiteIds()
    ensures IdParam(Some("1")) == Some(1) && IdParam(Some("999")) == Some(999)
  {
    assert Decimal(1) == "1";
    ParseIntDecimal(1);
    Decimal999();
    ParseIntDecimal(999);
  }

  /** Tests 1 to 3 on a fresh store: listing, a complete and an incomplete creation. */
  method SuiteCreate(store: PostStore, now: int, newPost: PostData, invalidPost: PostData)
    returns (codes: seq<int>, listed: seq<Post>, createdData: PostData)
    requires store.posts == MockPosts()
    requires CompleteData(newPost) && !CompleteData(invalidPost)
    modifies store
    ensures codes == [200, 201, 400] && createdData == newPost
    ensures |listed| > 0
    ensures Ids(store.posts) == {1, 2, 3, now}
  {
    var list := store.Get();
    listed := list.body.posts;
    var created := store.Create(Some(newPost), now);
    createdData := created.body.post.data;
    var invalid := store.Create(Some(invalidPost), now);
    MockIds();
    IdsAppend(MockPosts(), [Post(now, newPost)]);
    codes := [list.code, created.code, invalid.code];
  }

  /** Test 4: updating post 1 succeeds and keeps the ids. */
  method SuiteUpdate(store: PostStore, now: int, updates: PostData, one: string) returns (code: int)
    requires Ids(store.posts) == {1, 2, 3, now} && IdParam(Some(one)) == Some(1)
    modifies store
    ensures code == 200 && Ids(store.posts) == {1, 2, 3, now}
  {
    ghost var start := store.posts;
    var updated := store.Update(Some(one), Some(updates));
    var k := FindPost(start, 1).value;
    IdsUpdate(start, k, Post(1, Merged(start[k].data, updates)));
    code := updated.code;
  }

  /** Test 5: deleting post 1 succeeds. */
  method SuiteDelete(store: PostStore, now: int, one: string) returns (code: int)
    requires Ids(store.posts) == {1, 2, 3, now} && IdParam(Some(one)) == Some(1)
    modifies store
    ensures code == 200 && Ids(store.posts) == {1, 2, 3, now} - {1}
  {
    ghost var start := store.posts;
    var deleted := store.Delete(Some(one));
    IdsWithout(start, 1);
    code := deleted.code;
  }

  /** Test 6: deleting the absent post 999 is a 404. */
  method SuiteDeleteMissing(store: PostStore, now: int, nines: string) returns (code: int)
    requires now > 999 && Ids(store.posts) == {1, 2, 3, now} - {1} && IdParam(Some(nines)) == Some(999)
    modifies store
    ensures code == 404
  {
    var missing := store.Delete(Some(nines));
    code := missing.code;
  }

  /**
   * The Jest suite, in its order, on a fresh store: the list (`listed`) is non-empty,
   * a complete post is created with the given fields, an incomplete one is
   * refused, post 1 is updated and then deleted, and deleting post 999 is a
   * 404. `now` is the clock reading that becomes the created post's id; the
   * suite's bodies are any bodies of the same shape.
   */
  method JestSuite(now: int, newPost: PostData, invalidPost: PostData, updates: PostData)
    returns (codes: seq<int>, listed: seq<Post>, createdData: PostData)
    requires now > 999
    requires CompleteData(newPost) && !CompleteData(invalidPost)
    ensures codes == [200, 201, 400, 200, 200, 404]
    ensures |listed| > 0
    ensures createdData == newPost
  {
    var store := new PostStore();
    var first;
    first, listed, createdData := SuiteCreate(store, now, newPost, invalidPost);
    SuiteIds();
    var updated := SuiteUpdate(store, now, updates, "1");
    var deleted := SuiteDelete(store, now, "1");
    var missing := SuiteDeleteMissing(store, now, "999");
    codes := [first[0], first[1], first[2], updated, deleted, missing];
  }
}
