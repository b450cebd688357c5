/**
 The request handlers of blog/views.py, as pure functions of the store, the
 requesting user, the URL parameters and (for reads) the current time.

 A read handler returns its page content, or `None` for the 404 page. A
 mutating handler returns an `Outcome`: the response and the store after the
 request. Only the submission of a valid form is modelled; the response is
 the view's success URL when the action went through.
 */
module Views {
  import opened BlogModels
  import opened Ordering
  import opened Seqs
  import opened Managers

  datatype Response =
    | Allow
    | RedirectDetail(postId: PostId)
    | RedirectIndex
    | RedirectProfile(username: string)
    | RedirectLogin
    | NotFound

  datatype Outcome = Outcome(response: Response, store: Store)

  /** The fields of `PostForm` this model keeps; the author is not one of them. */
  datatype PostForm = PostForm(categoryOpt: Option<string>, isPublished: bool, pubDate: int)

  datatype CommentForm = CommentForm(text: string)

  // Read-only views

  /** IndexListView as written: `queryset = filtered_post(Post.objects)` is a
      class attribute, so `timezone.now()` inside `filtered_post` runs once,
      when the module is loaded, at `loadTime`. Every request re-reads the
      tables through `queryset.all()` but keeps that cutoff, so a post dated
      after `loadTime` stays off the index until the process restarts. */
  function Index(store: Store, loadTime: int): (r: seq<Annotated>)
    ensures forall p :: p in PostsOf(r) <==> p in store.posts && IsVisible(p, store.categories, loadTime)
    ensures NewestFirst(r)
    ensures forall a :: a in r ==> a.commentCount == CountComments(store.comments, a.post.id)
  {
    IndexAtRequest(store, loadTime)
  }

  /** `filtered_post(Post.objects)` evaluated at request time `now`: what
      the detail view uses, and what the index evidently means to show. */
  function IndexAtRequest(store: Store, now: int): (r: seq<Annotated>)
    ensures forall p :: p in PostsOf(r) <==> p in store.posts && IsVisible(p, store.categories, now)
    ensures NewestFirst(r)
    ensures forall a :: a in r ==> a.commentCount == CountComments(store.comments, a.post.id)
  {
    FilteredPost(store.posts, store.categories, store.comments, now)
  }

  /** PostDetailView.get_object: the post's author gets the post from the
      whole table; anyone else gets it only through `filtered_post`. */
  function PostDetail(store: Store, requester: Requester, postId: PostId, now: int): (r: Option<Post>)
    ensures (forall p :: p in store.posts ==> p.id != postId) ==> r.None?
    ensures r.Some? ==> r.value in store.posts && r.value.id == postId
    ensures r.Some? ==> IsAuthor(requester, r.value.authorId) || IsVisible(r.value, store.categories, now)
  {
    match FindPost(store.posts, postId)
    case None => None
    case Some(post) =>
      if IsAuthor(requester, post.authorId) then FindPost(store.posts, postId)
      else FindPost(PostsOf(IndexAtRequest(store, now)), postId)
  }

  /** `category.posts.all()`. */
  function InCategory(posts: seq<Post>, slug: string): (r: seq<Post>)
    ensures forall p :: multiset(r)[p] == if p.categoryOpt == Some(slug) then multiset(posts)[p] else 0
  {
    Filter(posts, (p: Post) => p.categoryOpt == Some(slug))
  }

  /** CategoryListView.get_queryset: 404 unless a published category has the
      slug; otherwise `filtered_post` over that category's posts. */
  function CategoryListing(store: Store, slug: string, now: int): (r: Option<seq<Annotated>>)
    ensures r.Some? ==> exists c :: c in store.categories && c.slug == slug && c.isPublished
    ensures (forall c :: c in store.categories ==> c.slug != slug) ==> r.None?
    ensures r.Some? ==> forall p :: p in PostsOf(r.value) <==>
      p in store.posts && p.categoryOpt == Some(slug) && IsVisible(p, store.categories, now)
    ensures r.Some? ==> NewestFirst(r.value)
    ensures r.Some? ==> forall a :: a in r.value ==> a.commentCount == CountComments(store.comments, a.post.id)
  {
    match FindCategory(store.categories, slug)
    case Some(category) =>
      if category.isPublished then
        var posts := InCategory(store.posts, category.slug);
        Some(FilteredPost(posts, store.categories, store.comments, now))
      else None
    case None => None
  }

  /** `profile.users.all()`: the posts whose author is the profile's user. */
  function AuthoredBy(posts: seq<Post>, author: UserId): (r: seq<Post>)
    ensures forall p :: multiset(r)[p] == if p.authorId == author then multiset(posts)[p] else 0
  {
    Filter(posts, (p: Post) => p.authorId == author)
  }

  /** ProfileListView.get_queryset: 404 for an unknown username; otherwise
      every post of that user, with no visibility filter, annotated and
      newest first. */
  function ProfileListing(store: Store, username: string): (r: Option<seq<Annotated>>)
    ensures r.None? <==> forall u :: u in store.users ==> u.username != username
    ensures r.Some? ==> exists u :: (
      && u in store.users && u.username == username
      && forall p :: multiset(PostsOf(r.value))[p] == if p.authorId == u.id then multiset(store.posts)[p] else 0)
    ensures r.Some? ==> NewestFirst(r.value)
    ensures r.Some? ==> forall a :: a in r.value ==> a.commentCount == CountComments(store.comments, a.post.id)
  {
    match FindUserByName(store.users, username)
    case None => None
    case Some(user) =>
      var annotated := Annotate(AuthoredBy(store.posts, user.id), store.comments);
      SortedAnnotationCounts(AuthoredBy(store.posts, user.id), store.comments);
      Some(SortNewestFirst(annotated))
  }

  // Ownership checks

  /** `handle_no_permission` of PostUpdateView and PostDeleteView: redirect to
      the detail page of the post that `get_object` finds, 404 if none. */
  function PostNoPermission(posts: seq<Post>, postId: PostId): (r: Response)
    ensures r == NotFound <==> forall p :: p in posts ==> p.id != postId
    ensures r != NotFound ==> r == RedirectDetail(postId)
  {
    match FindPost(posts, postId)
    case None => NotFound
    case Some(post) => RedirectDetail(post.id)
  }

  /** `test_func` of PostUpdateView and PostDeleteView, run by
      UserPassesTestMixin: the requester must be the post's author. */
  function PostOwnerCheck(posts: seq<Post>, requester: Requester, postId: PostId): (r: Response)
    ensures r == NotFound <==> forall p :: p in posts ==> p.id != postId
    ensures r == Allow ==> exists p :: p in posts && p.id == postId && IsAuthor(requester, p.authorId)
    ensures r != Allow && r != NotFound ==> r == RedirectDetail(postId)
    ensures requester.None? ==> r != Allow
  {
    match FindPost(posts, postId)
    case None => NotFound
    case Some(post) =>
      if IsAuthor(requester, post.authorId) then Allow else PostNoPermission(posts, postId)
  }

  /** PostDeleteView has no login mixin: the ownership test alone. */
  function PostDeleteGate(posts: seq<Post>, requester: Requester, postId: PostId): (r: Response)
    ensures r == NotFound <==> forall p :: p in posts ==> p.id != postId
    ensures requester.None? ==> r != Allow
    ensures r == Allow ==> exists p :: p in posts && p.id == postId && IsAuthor(requester, p.authorId)
    ensures r != Allow && r != NotFound ==> r == RedirectDetail(postId)
  {
    PostOwnerCheck(posts, requester, postId)
  }

  /** PostUpdateView: LoginRequiredMixin first, whose failure also calls the
      view's own `handle_no_permission`, then the ownership test. */
  function PostUpdateGate(posts: seq<Post>, requester: Requester, postId: PostId): (r: Response)
    ensures r == NotFound <==> forall p :: p in posts ==> p.id != postId
    ensures requester.None? ==> r != Allow
    ensures r == Allow ==> exists p :: p in posts && p.id == postId && IsAuthor(requester, p.authorId)
    ensures r != Allow && r != NotFound ==> r == RedirectDetail(postId)
    ensures r != RedirectLogin
  {
    if requester.None? then PostNoPermission(posts, postId)
    else PostOwnerCheck(posts, requester, postId)
  }

  /** LoginRequiredMixin with the default `handle_no_permission`: the
      anonymous user goes to the login page. */
  function LoginRequired(requester: Requester, next: Response): (r: Response)
    ensures requester.None? ==> r == RedirectLogin
    ensures requester.Some? ==> r == next
  {
    if requester.None? then RedirectLogin else next
  }

  /** The `dispatch` override of CommentUpdateView and CommentDeleteView: the
      comment must exist and belong to the requester, and only then does
      LoginRequiredMixin run. A refused requester goes to the detail page of
      the post named in the URL, not of the comment's own post. */
  function CommentOwnerCheck(comments: seq<Comment>, requester: Requester, commentId: CommentId, urlPostId: PostId)
    : (r: Response)
    ensures r == NotFound <==> forall c :: c in comments ==> c.id != commentId
    ensures r == Allow ==> exists c :: c in comments && c.id == commentId && IsAuthor(requester, c.authorId)
    ensures r != Allow && r != NotFound ==> r == RedirectDetail(urlPostId)
    ensures requester.None? ==> r != Allow
  {
    match FindComment(comments, commentId)
    case None => NotFound
    case Some(comment) =>
      if !IsAuthor(requester, comment.authorId) then RedirectDetail(urlPostId)
      else LoginRequired(requester, Allow)
  }

  // Mutating views

  /** Deleting the row with key `postId`. */
  function RemovePost(posts: seq<Post>, postId: PostId): (r: seq<Post>)
    ensures forall p :: p in r <==> p in posts && p.id != postId
  {
    Filter(posts, (p: Post) => p.id != postId)
  }

  function RemoveComment(comments: seq<Comment>, commentId: CommentId): (r: seq<Comment>)
    ensures forall c :: c in r <==> c in comments && c.id != commentId
  {
    Filter(comments, (c: Comment) => c.id != commentId)
  }

  /** PostCreateView: login required; the author is the requester whatever
      the form holds; success goes to the requester's profile. */
  function CreatePost(store: Store, requester: Requester, form: PostForm): (r: Outcome)
    ensures requester.None? ==> r == Outcome(RedirectLogin, store)
    ensures requester.Some? ==> r.response == RedirectProfile(requester.value.username)
    ensures requester.Some? ==>
      && |r.store.posts| == |store.posts| + 1
      && r.store.posts[..|store.posts|] == store.posts
      && var created := r.store.posts[|store.posts|];
      && created.authorId == requester.value.id
      && created.categoryOpt == form.categoryOpt
      && created.isPublished == form.isPublished
      && created.pubDate == form.pubDate
      && store.nextPostId <= created.id < r.store.nextPostId
      && (Valid(store) ==> (forall p :: p in store.posts ==> p.id != created.id))
      && (Valid(store) ==> CountComments(store.comments, created.id) == 0)
    ensures r.store.nextPostId >= store.nextPostId && r.store.nextCommentId == store.nextCommentId
    ensures r.store.users == store.users && r.store.categories == store.categories
    ensures r.store.comments == store.comments
  {
    match requester
    case None => Outcome(RedirectLogin, store)
    case Some(user) =>
      var created := Post(store.nextPostId, user.id, form.categoryOpt, form.isPublished, form.pubDate);
      assert (store.posts + [created])[..|store.posts|] == store.posts;
      assert Valid(store) ==> CountComments(store.comments, created.id) == 0 by {
        if Valid(store) { NoCommentsOnFreshKey(store); }
      }
      Outcome(
        RedirectProfile(user.username),
        store.(posts := store.posts + [created], nextPostId := store.nextPostId + 1))
  }

  /** No comment points at the key the posts counter hands out next. */
  lemma NoCommentsOnFreshKey(store: Store)
    requires CountersAhead(store)
    ensures CountComments(store.comments, store.nextPostId) == 0
  {
  }

  /** PostDeleteView: only the author deletes; success goes to the index,
      a refusal to the post's detail page with the store unchanged. */
  function DeletePost(store: Store, requester: Requester, postId: PostId): (r: Outcome)
    ensures r.response == RedirectIndex || r.response == RedirectDetail(postId) || r.response == NotFound
    ensures r.response == NotFound <==> forall p :: p in store.posts ==> p.id != postId
    ensures requester.None? ==> r.store == store
    ensures r.response != RedirectIndex ==> r.store == store
    ensures r.response == RedirectIndex ==>
      exists p :: p in store.posts && p.id == postId && IsAuthor(requester, p.authorId)
    ensures r.response == RedirectIndex ==> forall p :: p in r.store.posts ==> p.id != postId
    ensures forall p :: p in r.store.posts <==> p in store.posts && (r.response != RedirectIndex || p.id != postId)
    ensures r.store.nextPostId == store.nextPostId && r.store.nextCommentId == store.nextCommentId
    ensures r.store.users == store.users && r.store.categories == store.categories
    ensures r.store.comments == store.comments
  {
    var gate := PostDeleteGate(store.posts, requester, postId);
    if gate == Allow then Outcome(RedirectIndex, store.(posts := RemovePost(store.posts, postId)))
    else Outcome(gate, store)
  }

  /** Saving `PostForm` into the row with key `postId`. */
  function ApplyPostForm(posts: seq<Post>, postId: PostId, form: PostForm): (r: seq<Post>)
    ensures |r| == |posts|
    ensures forall i :: 0 <= i < |posts| ==> r[i].id == posts[i].id && r[i].authorId == posts[i].authorId
    ensures forall i :: 0 <= i < |posts| && posts[i].id != postId ==> r[i] == posts[i]
    ensures forall i :: 0 <= i < |posts| && posts[i].id == postId ==>
      r[i].categoryOpt == form.categoryOpt && r[i].isPublished == form.isPublished && r[i].pubDate == form.pubDate
  {
    seq(|posts|, i requires 0 <= i < |posts| =>
      if posts[i].id == postId
      then posts[i].(categoryOpt := form.categoryOpt, isPublished := form.isPublished, pubDate := form.pubDate)
      else posts[i])
  }

  /** PostUpdateView: only the author edits; success and refusal both go to
      the post's detail page, and a refusal leaves the store unchanged. */
  function UpdatePost(store: Store, requester: Requester, postId: PostId, form: PostForm): (r: Outcome)
    ensures r.response == RedirectDetail(postId) || r.response == NotFound
    ensures r.response == NotFound <==> forall p :: p in store.posts ==> p.id != postId
    ensures r.response == NotFound ==> r.store == store
    ensures requester.None? ==> r.store == store
    ensures r.store != store ==>
      exists p :: p in store.posts && p.id == postId && IsAuthor(requester, p.authorId)
    ensures |r.store.posts| == |store.posts|
    ensures forall i :: 0 <= i < |store.posts| ==>
      r.store.posts[i].id == store.posts[i].id && r.store.posts[i].authorId == store.posts[i].authorId
    ensures forall i :: 0 <= i < |store.posts| && store.posts[i].id != postId ==> r.store.posts[i] == store.posts[i]
    ensures r.store.nextPostId == store.nextPostId && r.store.nextCommentId == store.nextCommentId
    ensures r.store.users == store.users && r.store.categories == store.categories
    ensures r.store.comments == store.comments
  {
    var gate := PostUpdateGate(store.posts, requester, postId);
    if gate == Allow then
      Outcome(RedirectDetail(postId), store.(posts := ApplyPostForm(store.posts, postId, form)))
    else Outcome(gate, store)
  }

  /** CommentCreateView: login required; the comment goes to the post named
      in the URL (404 if there is none) and its author is the requester. */
  function CreateComment(store: Store, requester: Requester, urlPostId: PostId, form: CommentForm): (r: Outcome)
    ensures requester.None? ==> r == Outcome(RedirectLogin, store)
    ensures requester.Some? && (forall p :: p in store.posts ==> p.id != urlPostId) ==>
      r == Outcome(NotFound, store)
    ensures requester.Some? && (exists p :: p in store.posts && p.id == urlPostId) ==>
      r.response == RedirectDetail(urlPostId)
    ensures r.response != RedirectLogin && r.response != NotFound ==>
      && r.response == RedirectDetail(urlPostId)
      && requester.Some?
      && |r.store.comments| == |store.comments| + 1
      && r.store.comments[..|store.comments|] == store.comments
      && var created := r.store.comments[|store.comments|];
      && created.authorId == requester.value.id
      && created.postId == urlPostId
      && (exists p :: p in store.posts && p.id == created.postId)
      && store.nextCommentId <= created.id < r.store.nextCommentId
      && (Valid(store) ==> forall c :: c in store.comments ==> c.id != created.id)
      && created.text == form.text
    ensures r.store.nextCommentId >= store.nextCommentId && r.store.nextPostId == store.nextPostId
    ensures r.store.users == store.users && r.store.categories == store.categories
    ensures r.store.posts == store.posts
  {
    match requester
    case None => Outcome(RedirectLogin, store)
    case Some(user) =>
      match FindPost(store.posts, urlPostId)
      case None => Outcome(NotFound, store)
      case Some(post) =>
        var created := Comment(store.nextCommentId, post.id, user.id, form.text);
        assert (store.comments + [created])[..|store.comments|] == store.comments;
        Outcome(
          RedirectDetail(urlPostId),
          store.(comments := store.comments + [created], nextCommentId := store.nextCommentId + 1))
  }

  /** CommentDeleteView: only the comment's author deletes; both success and
      refusal go to the detail page of the post named in the URL. */
  function DeleteComment(store: Store, requester: Requester, commentId: CommentId, urlPostId: PostId)
    : (r: Outcome)
    ensures r.response == RedirectDetail(urlPostId) || r.response == NotFound
    ensures r.response == NotFound <==> forall c :: c in store.comments ==> c.id != commentId
    ensures requester.None? ==> r.store == store
    ensures r.store != store ==>
      exists c :: c in store.comments && c.id == commentId && IsAuthor(requester, c.authorId)
    ensures r.store == store || forall c :: c in r.store.comments ==> c.id != commentId
    ensures forall c :: c in r.store.comments ==> c in store.comments
    ensures forall c :: c in store.comments && c.id != commentId ==> c in r.store.comments
    ensures r.store.nextPostId == store.nextPostId && r.store.nextCommentId == store.nextCommentId
    ensures r.store.users == store.users && r.store.categories == store.categories
    ensures r.store.posts == store.posts
  {
    var gate := CommentOwnerCheck(store.comments, requester, commentId, urlPostId);
    if gate == Allow then
      Outcome(RedirectDetail(urlPostId), store.(comments := RemoveComment(store.comments, commentId)))
    else Outcome(gate, store)
  }

  /** Saving `CreateCommentForm` into the row with key `commentId`. */
  function ApplyCommentForm(comments: seq<Comment>, commentId: CommentId, form: CommentForm): (r: seq<Comment>)
    ensures |r| == |comments|
    ensures forall i :: 0 <= i < |comments| ==>
      r[i].id == comments[i].id && r[i].postId == comments[i].postId && r[i].authorId == comments[i].authorId
    ensures forall i :: 0 <= i < |comments| ==>
      r[i].text == if comments[i].id == commentId then form.text else comments[i].text
  {
    seq(|comments|, i requires 0 <= i < |comments| =>
      if comments[i].id == commentId then comments[i].(text := form.text) else comments[i])
  }

  /** CommentUpdateView: only the comment's author edits its text; the
      comment stays on its own post whatever post the URL names. */
  function UpdateComment(
    store: Store, requester: Requester, commentId: CommentId, urlPostId: PostId, form: CommentForm)
    : (r: Outcome)
    ensures r.response == RedirectDetail(urlPostId) || r.response == NotFound
    ensures r.response == NotFound <==> forall c :: c in store.comments ==> c.id != commentId
    ensures requester.None? ==> r.store == store
    ensures r.store != store ==>
      exists c :: c in store.comments && c.id == commentId && IsAuthor(requester, c.authorId)
    ensures |r.store.comments| == |store.comments|
    ensures r.store == store || forall i :: 0 <= i < |store.comments| ==>
      r.store.comments[i].text == if store.comments[i].id == commentId then form.text else store.comments[i].text
    ensures r.store.nextPostId == store.nextPostId && r.store.nextCommentId == store.nextCommentId
    ensures forall i :: 0 <= i < |store.comments| ==>
      && r.store.comments[i].id == store.comments[i].id
      && r.store.comments[i].postId == store.comments[i].postId
      && r.store.comments[i].authorId == store.comments[i].authorId
    ensures r.store.users == store.users && r.store.categories == store.categories
    ensures r.store.posts == store.posts
  {
    var gate := CommentOwnerCheck(store.comments, requester, commentId, urlPostId);
    if gate == Allow then
      Outcome(RedirectDetail(urlPostId), store.(comments := ApplyCommentForm(store.comments, commentId, form)))
    else Outcome(gate, store)
  }
}
