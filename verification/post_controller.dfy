/** Blog posts (`postController`): the paginated listing, lookup by slug,
    and the admin create, update and delete handlers, which keep post slugs
    unique. */
module PostController {
  import opened Common
  import opened Pagination

  const PostsPerPage: nat := 10
  const MsgRequired := "Title, slug, and content are required."
  const MsgSlugExists := "A post with this slug already exists."
  const MsgNotFound := "Post not found."

  datatype Post = Post(id: Id, title: string, slug: string, content: string, imageUrl: Option<string>)

  datatype PostBody = PostBody(title: Field<string>, slug: Field<string>, content: Field<string>, imageUrl: Field<string>)

  ghost predicate ValidPosts(posts: map<Id, Post>) {
    && (forall k :: k in posts ==> posts[k].id == k)
    && (forall j, k :: j in posts && k in posts && posts[j].slug == posts[k].slug ==> j == k)
  }

  predicate PostSlugTaken(posts: map<Id, Post>, slug: string) {
    exists k :: k in posts && posts[k].slug == slug
  }

  /** `prisma.post.findUnique({ where: { slug } })`. */
  function PostBySlug(posts: map<Id, Post>, slug: string): (r: Option<Post>)
    requires ValidPosts(posts)
    ensures r.Some? <==> PostSlugTaken(posts, slug)
    ensures r.Some? ==> r.value.id in posts && posts[r.value.id] == r.value && r.value.slug == slug
  {
    if PostSlugTaken(posts, slug) then
      var k :| k in posts && posts[k].slug == slug;
      Some(posts[k])
    else
      None
  }

  // ---------------------------------------------------------------------
  // getAllPosts / getPostBySlug

  /** `order` is the database's listing of the post ids, newest first
      (creation time is not modelled). */
  function GetAllPosts(posts: map<Id, Post>, order: seq<Id>, q: Query): (r: Reply<Paged<Post>>)
    requires ValidPosts(posts)
    requires Enumerates(order, posts.Keys)
    ensures r.Fault? <==> OrElse(q.page, DefaultPage) == 0 && OrElse(q.limit, PostsPerPage) > 0
    ensures !r.Err?
    ensures r.Ok? ==>
      var page := OrElse(q.page, DefaultPage);
      var limit := OrElse(q.limit, PostsPerPage);
      var skip := Skip(page, limit);
      && r.status == 200
      && r.body.info == PageInfo(page, limit, |posts|, Pages(|posts|, limit))
      // the page is the window of the listing's posts from (page - 1) * limit on
      && skip >= 0
      && r.body.data == Window(Resolve(order, posts), skip, limit)
      && (forall i :: 0 <= i < |r.body.data| ==>
            skip + i < |order| && order[skip + i] in posts && r.body.data[i] == posts[order[skip + i]])
  {
    ResolvedPage(order, posts, q, PostsPerPage);
    PageOf(Resolve(order, posts), q, PostsPerPage)
  }

  function GetPostBySlug(posts: map<Id, Post>, slug: string): (r: Reply<Post>)
    requires ValidPosts(posts)
    ensures r.Ok? <==> PostSlugTaken(posts, slug)
    ensures !r.Ok? ==> r == Err(404, MsgNotFound)
    ensures r.Ok? ==> r.status == 200 && r.body.slug == slug && r.body.id in posts && posts[r.body.id] == r.body
  {
    match PostBySlug(posts, slug)
    case None => Err(404, MsgNotFound)
    case Some(p) => Ok(200, p)
  }

  // ---------------------------------------------------------------------
  // createPost

  /** `newId` is the id the database generates; `uploadedFile` is the
      stored file name of an uploaded image, if any. */
  function CreatePost(posts: map<Id, Post>, body: PostBody, uploadedFile: Option<string>, newId: Id): (h: Handled<map<Id, Post>, Post>)
    requires ValidPosts(posts) && newId !in posts
    ensures !Truthy(body.title) || !Truthy(body.slug) || !Truthy(body.content) ==>
      h == Handled(Err(400, MsgRequired), posts)
    ensures Truthy(body.title) && Truthy(body.slug) && Truthy(body.content) && PostSlugTaken(posts, body.slug.value) ==>
      h == Handled(Err(400, MsgSlugExists), posts)
    ensures !h.reply.Ok? ==> h.store == posts
    ensures h.reply.Ok? <==>
      Truthy(body.title) && Truthy(body.slug) && Truthy(body.content) && !PostSlugTaken(posts, body.slug.value)
    ensures h.reply.Ok? ==>
      && h.reply.status == 201
      && h.reply.body == Post(newId, body.title.value, body.slug.value, body.content.value,
                              ToColumn(ImageField(body.imageUrl, uploadedFile)))
      && h.store == posts[newId := h.reply.body]
    ensures ValidPosts(h.store)
  {
    if !Truthy(body.title) || !Truthy(body.slug) || !Truthy(body.content) then
      Handled(Err(400, MsgRequired), posts)
    else if PostBySlug(posts, body.slug.value).Some? then
      Handled(Err(400, MsgSlugExists), posts)
    else
      var p := Post(newId, body.title.value, body.slug.value, body.content.value,
                    ToColumn(ImageField(body.imageUrl, uploadedFile)));
      Handled(Ok(201, p), posts[newId := p])
  }

  /** A created post is what a lookup by its slug then answers. */
  lemma CreatedPostFoundBySlug(posts: map<Id, Post>, body: PostBody, uploadedFile: Option<string>, newId: Id)
    requires ValidPosts(posts) && newId !in posts
    requires CreatePost(posts, body, uploadedFile, newId).reply.Ok?
    ensures var h := CreatePost(posts, body, uploadedFile, newId);
      GetPostBySlug(h.store, body.slug.value) == Ok(200, h.reply.body)
  {
    var h := CreatePost(posts, body, uploadedFile, newId);
    assert h.store[newId].slug == body.slug.value;
  }

  // ---------------------------------------------------------------------
  // updatePost

  /** The record after an update: every truthy field, the image included,
      replaces the stored one. */
  function UpdatedPost(current: Post, body: PostBody, uploadedFile: Option<string>): (p: Post)
    ensures p.id == current.id
    ensures Truthy(body.title) ==> p.title == body.title.value
    ensures !Truthy(body.title) ==> p.title == current.title
    ensures Truthy(body.slug) ==> p.slug == body.slug.value
    ensures !Truthy(body.slug) ==> p.slug == current.slug
    ensures Truthy(body.content) ==> p.content == body.content.value
    ensures !Truthy(body.content) ==> p.content == current.content
    ensures uploadedFile.Some? ==> p.imageUrl == Some("/upload/" + uploadedFile.value)
    ensures uploadedFile.None? && Truthy(body.imageUrl) ==> p.imageUrl == Some(body.imageUrl.value)
    ensures uploadedFile.None? && !Truthy(body.imageUrl) ==> p.imageUrl == current.imageUrl
  {
    Post(current.id, IfTruthy(body.title, current.title), IfTruthy(body.slug, current.slug),
         IfTruthy(body.content, current.content),
         IfTruthyColumn(ImageField(body.imageUrl, uploadedFile), current.imageUrl))
  }

  function UpdatePost(posts: map<Id, Post>, id: Id, body: PostBody, uploadedFile: Option<string>): (h: Handled<map<Id, Post>, Post>)
    requires ValidPosts(posts)
    ensures id !in posts ==> h == Handled(Err(404, MsgNotFound), posts)
    // the slug is checked only when it changes
    ensures id in posts && Truthy(body.slug) && body.slug.value != posts[id].slug
            && PostSlugTaken(posts, body.slug.value) ==>
      h == Handled(Err(400, MsgSlugExists), posts)
    ensures !h.reply.Ok? ==> h.store == posts
    ensures h.reply.Ok? <==>
      id in posts
      && !(Truthy(body.slug) && body.slug.value != posts[id].slug && PostSlugTaken(posts, body.slug.value))
    ensures h.reply.Ok? ==>
      && h.reply.status == 200
      && h.reply.body == UpdatedPost(posts[id], body, uploadedFile)
      && h.store == posts[id := h.reply.body]
    ensures ValidPosts(h.store)
  {
    if id !in posts then Handled(Err(404, MsgNotFound), posts)
    else
      var current := posts[id];
      if Truthy(body.slug) && body.slug.value != current.slug && PostBySlug(posts, body.slug.value).Some? then
        Handled(Err(400, MsgSlugExists), posts)
      else
        var p := UpdatedPost(current, body, uploadedFile);
        Handled(Ok(200, p), posts[id := p])
  }

  /** Sending the same update twice leaves what the first one left. */
  lemma UpdatePostIdempotent(posts: map<Id, Post>, id: Id, body: PostBody, uploadedFile: Option<string>)
    requires ValidPosts(posts)
    requires UpdatePost(posts, id, body, uploadedFile).reply.Ok?
    ensures var h1 := UpdatePost(posts, id, body, uploadedFile);
      var h2 := UpdatePost(h1.store, id, body, uploadedFile);
      h2.reply == h1.reply && h2.store == h1.store
  {
    var h1 := UpdatePost(posts, id, body, uploadedFile);
    var p := h1.reply.body;
    assert UpdatedPost(p, body, uploadedFile) == p;
    assert h1.store[id := p] == h1.store;
  }

  // ---------------------------------------------------------------------
  // deletePost

  function DeletePost(posts: map<Id, Post>, id: Id): (h: Handled<map<Id, Post>, Unit>)
    ensures id !in posts ==> h == Handled(Err(404, MsgNotFound), posts)
    ensures id in posts ==> h.reply == Ok(200, Unit) && h.store == posts - {id}
    ensures forall k :: k in h.store ==> k in posts && h.store[k] == posts[k]
    ensures ValidPosts(posts) ==> ValidPosts(h.store)
  {
    if id !in posts then Handled(Err(404, MsgNotFound), posts)
    else Handled(Ok(200, Unit), posts - {id})
  }

  /** Deleting a post just created gives back the original posts, and its
      slug is free again. */
  lemma CreateThenDeletePost(posts: map<Id, Post>, body: PostBody, uploadedFile: Option<string>, newId: Id)
    requires ValidPosts(posts) && newId !in posts
    requires CreatePost(posts, body, uploadedFile, newId).reply.Ok?
    ensures var h := DeletePost(CreatePost(posts, body, uploadedFile, newId).store, newId);
      && h.reply == Ok(200, Unit)
      && h.store == posts
      && GetPostBySlug(h.store, body.slug.value) == Err(404, MsgNotFound)
  {
    var created := CreatePost(posts, body, uploadedFile, newId).store;
    assert created - {newId} == posts;
  }
}
