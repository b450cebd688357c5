/**
 The records of the blog: users, categories, posts and comments, the store
 that holds them (one sequence per database table), and lookups by primary
 or natural key. A lookup that finds nothing is `None`, which the request
 handlers turn into the 404 page.
 */
module BlogModels {
  import opened Seqs

  type UserId = nat
  type PostId = nat
  type CommentId = nat

  datatype User = User(id: UserId, username: string)

  /** A category is identified by its slug, which is unique. */
  datatype Category = Category(slug: string, isPublished: bool)

  /** `categoryOpt` holds the slug of the post's category, if it has one. */
  datatype Post = Post(
    id: PostId,
    authorId: UserId,
    categoryOpt: Option<string>,
    isPublished: bool,
    pubDate: int
  )

  datatype Comment = Comment(id: CommentId, postId: PostId, authorId: UserId, text: string)

  /** One sequence per table. `nextPostId` and `nextCommentId` are the
      tables' auto-increment counters: the key the next insert receives. The
      database never hands a key out twice, even after the row is deleted. */
  datatype Store = Store(
    users: seq<User>,
    categories: seq<Category>,
    posts: seq<Post>,
    comments: seq<Comment>,
    nextPostId: PostId,
    nextCommentId: CommentId
  )

  /** The user making the request; `None` is the anonymous user. */
  type Requester = Option<User>

  /** Identity comparison of the request's user with an author field. The
      anonymous user equals no author. */
  predicate IsAuthor(requester: Requester, author: UserId) {
    requester.Some? && requester.value.id == author
  }

  // Primary keys and unique natural keys, as the database enforces them.

  predicate UniquePostIds(posts: seq<Post>) {
    forall i, j :: 0 <= i < |posts| && 0 <= j < |posts| && i != j ==> posts[i].id != posts[j].id
  }

  predicate UniqueCommentIds(comments: seq<Comment>) {
    forall i, j :: 0 <= i < |comments| && 0 <= j < |comments| && i != j ==> comments[i].id != comments[j].id
  }

  predicate UniqueSlugs(categories: seq<Category>) {
    forall i, j :: 0 <= i < |categories| && 0 <= j < |categories| && i != j ==>
      categories[i].slug != categories[j].slug
  }

  predicate UniqueUsers(users: seq<User>) {
    forall i, j :: 0 <= i < |users| && 0 <= j < |users| && i != j ==>
      users[i].id != users[j].id && users[i].username != users[j].username
  }

  /** The counters lie above every key handed out so far, including the
      post key of every comment (comments are only ever created on an
      existing post). */
  predicate CountersAhead(store: Store) {
    && (forall p :: p in store.posts ==> p.id < store.nextPostId)
    && (forall c :: c in store.comments ==> c.id < store.nextCommentId && c.postId < store.nextPostId)
  }

  predicate Valid(store: Store) {
    && UniqueUsers(store.users)
    && UniqueSlugs(store.categories)
    && UniquePostIds(store.posts)
    && UniqueCommentIds(store.comments)
    && CountersAhead(store)
  }

  /** `get_object_or_404(Post, pk=id)` on the posts table. */
  function FindPost(posts: seq<Post>, id: PostId): (r: Option<Post>)
    ensures r.Some? ==> r.value in posts && r.value.id == id
    ensures r.None? <==> forall p :: p in posts ==> p.id != id
  {
    First(posts, (p: Post) => p.id == id)
  }

  /** `get_object_or_404(Comment, pk=id)`. */
  function FindComment(comments: seq<Comment>, id: CommentId): (r: Option<Comment>)
    ensures r.Some? ==> r.value in comments && r.value.id == id
    ensures r.None? <==> forall c :: c in comments ==> c.id != id
  {
    First(comments, (c: Comment) => c.id == id)
  }

  /** The category with the slug. */
  function FindCategory(categories: seq<Category>, slug: string): (r: Option<Category>)
    ensures r.Some? ==> r.value in categories && r.value.slug == slug
    ensures r.None? <==> forall c :: c in categories ==> c.slug != slug
  {
    First(categories, (c: Category) => c.slug == slug)
  }

  /** `get_object_or_404(User, username=username)`. */
  function FindUserByName(users: seq<User>, username: string): (r: Option<User>)
    ensures r.Some? ==> r.value in users && r.value.username == username
    ensures r.None? <==> forall u :: u in users ==> u.username != username
  {
    First(users, (u: User) => u.username == username)
  }

  /** Under a primary key, the lookup finds exactly the row with that key. */
  lemma {:induction false} FindPostUnique(posts: seq<Post>, p: Post)
    requires UniquePostIds(posts)
    requires p in posts
    ensures FindPost(posts, p.id) == Some(p)
  {
  }
}
