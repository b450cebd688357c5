/**
 Properties of the request handlers under the database's key constraints:
 who sees a post, who may change it and where everyone else is sent, and
 that every mutating handler keeps the keys of the store unique.
 */
module ViewsProperties {
  import opened BlogModels
  import opened Ordering
  import opened Seqs
  import opened Managers
  import opened VisibilityProperties
  import opened Views


  // Detail view

  /** The author of a post sees it whatever its publication flag, date or
      category. */
  lemma PostDetailOwnerBypass(store: Store, requester: Requester, p: Post, now: int)
    requires UniquePostIds(store.posts)
    requires p in store.posts && IsAuthor(requester, p.authorId)
    ensures PostDetail(store, requester, p.id, now) == Some(p)
  {
  }

  /** Anyone else, the anonymous user included, sees the post exactly when
      it is publicly visible, and gets the 404 page otherwise. */
  lemma PostDetailPublic(store: Store, requester: Requester, p: Post, now: int)
    requires UniquePostIds(store.posts)
    requires p in store.posts && !IsAuthor(requester, p.authorId)
    ensures IsVisible(p, store.categories, now) ==> PostDetail(store, requester, p.id, now) == Some(p)
    ensures !IsVisible(p, store.categories, now) ==> PostDetail(store, requester, p.id, now) == None
  {
  }

  // The index's frozen cutoff

  /** As written, the index keeps the cutoff of the moment the module was
      loaded. A post that became due since then is shown to everyone on its
      detail page, but is missing from the index until the process
      restarts. */
  lemma IndexLagsBehindDetail(store: Store, p: Post, loadTime: int, now: int)
    requires UniquePostIds(store.posts) && p in store.posts
    requires IsVisible(p, store.categories, now)
    requires loadTime < p.pubDate
    ensures PostDetail(store, None, p.id, now) == Some(p)
    ensures p !in PostsOf(Index(store, loadTime))
    ensures p in PostsOf(IndexAtRequest(store, now))
  {
  }

  /** A concrete instance: a published post in a published category, dated
      5, with the module loaded at 0 and the request made at 10. */
  lemma IndexLagExample()
    ensures var post := Post(1, 7, Some("news"), true, 5);
      var store := Store([], [Category("news", true)], [post], [], 2, 1);
      && PostDetail(store, None, 1, 10) == Some(post)
      && post !in PostsOf(Index(store, 0))
  {
  }

  /** Evaluated per request, the index shows a post exactly when the
      anonymous user may open its detail page. */
  lemma IndexAtRequestMatchesDetail(store: Store, p: Post, now: int)
    requires UniquePostIds(store.posts) && p in store.posts
    ensures p in PostsOf(IndexAtRequest(store, now)) <==> PostDetail(store, None, p.id, now) == Some(p)
  {
  }

  // Ownership of posts

  /** The ownership test lets exactly the author through and sends everyone
      else to the post's detail page. */
  lemma PostOwnerCheckDecides(posts: seq<Post>, requester: Requester, p: Post)
    requires UniquePostIds(posts) && p in posts
    ensures PostOwnerCheck(posts, requester, p.id) == Allow <==> IsAuthor(requester, p.authorId)
    ensures !IsAuthor(requester, p.authorId) ==> PostOwnerCheck(posts, requester, p.id) == RedirectDetail(p.id)
  {
  }

  /** PostUpdateView's login mixin cannot be observed: its failure path runs
      the same `handle_no_permission` as the ownership test, so editing is
      gated exactly like deleting, which has no login mixin at all. */
  lemma PostUpdateGateIsDeleteGate(posts: seq<Post>, requester: Requester, postId: PostId)
    ensures PostUpdateGate(posts, requester, postId) == PostDeleteGate(posts, requester, postId)
  {
  }

  /** Someone other than the author, anonymous or not, who asks to delete a
      post is sent to the post's detail page and the post stays. */
  lemma DeletePostRefused(store: Store, requester: Requester, p: Post)
    requires UniquePostIds(store.posts)
    requires p in store.posts && !IsAuthor(requester, p.authorId)
    ensures DeletePost(store, requester, p.id) == Outcome(RedirectDetail(p.id), store)
  {
  }

  /** The author's delete removes the post and goes to the index. */
  lemma DeletePostByAuthor(store: Store, requester: Requester, p: Post)
    requires UniquePostIds(store.posts)
    requires p in store.posts && IsAuthor(requester, p.authorId)
    ensures DeletePost(store, requester, p.id).response == RedirectIndex
    ensures p !in DeletePost(store, requester, p.id).store.posts
  {
  }

  /** The author's edit saves the form into the post and goes to its detail
      page; anyone else's changes nothing. */
  lemma UpdatePostDecides(store: Store, requester: Requester, p: Post, form: PostForm)
    requires UniquePostIds(store.posts) && p in store.posts
    ensures var r := UpdatePost(store, requester, p.id, form);
      && r.response == RedirectDetail(p.id)
      && (!IsAuthor(requester, p.authorId) ==> r.store == store)
      && (IsAuthor(requester, p.authorId) ==>
            Post(p.id, p.authorId, form.categoryOpt, form.isPublished, form.pubDate) in r.store.posts)
  {
  }

  // Ownership of comments

  /** The comment dispatch lets exactly the comment's author through; anyone
      else, the anonymous user included, goes to the detail page of the post
      named in the URL, whichever post the comment is on, and never to the
      login page. */
  lemma CommentOwnerCheckDecides(comments: seq<Comment>, requester: Requester, c: Comment, urlPostId: PostId)
    requires UniqueCommentIds(comments) && c in comments
    ensures CommentOwnerCheck(comments, requester, c.id, urlPostId) == Allow <==> IsAuthor(requester, c.authorId)
    ensures !IsAuthor(requester, c.authorId) ==>
      CommentOwnerCheck(comments, requester, c.id, urlPostId) == RedirectDetail(urlPostId)
  {
  }

  /** The comment's author deletes it: the comment is gone, every other
      comment stays, and the response is the URL's post. */
  lemma DeleteCommentByAuthor(store: Store, requester: Requester, c: Comment, urlPostId: PostId)
    requires UniqueCommentIds(store.comments) && c in store.comments
    requires IsAuthor(requester, c.authorId)
    ensures var r := DeleteComment(store, requester, c.id, urlPostId);
      && r.response == RedirectDetail(urlPostId)
      && c !in r.store.comments
      && forall d :: d in store.comments && d.id != c.id ==> d in r.store.comments
  {
  }

  /** The comment's author edits it: the comment now holds the form's text
      and keeps its key, post and author. */
  lemma UpdateCommentByAuthor(
    store: Store, requester: Requester, c: Comment, urlPostId: PostId, form: CommentForm)
    requires UniqueCommentIds(store.comments) && c in store.comments
    requires IsAuthor(requester, c.authorId)
    ensures var r := UpdateComment(store, requester, c.id, urlPostId, form);
      && r.response == RedirectDetail(urlPostId)
      && c.(text := form.text) in r.store.comments
  {
  }

  /** Anyone but the comment's author, anonymous or not, who deletes or edits
      it is sent to the URL's post and changes nothing. */
  lemma CommentChangeRefused(
    store: Store, requester: Requester, c: Comment, urlPostId: PostId, form: CommentForm)
    requires UniqueCommentIds(store.comments) && c in store.comments
    requires !IsAuthor(requester, c.authorId)
    ensures DeleteComment(store, requester, c.id, urlPostId) == Outcome(RedirectDetail(urlPostId), store)
    ensures UpdateComment(store, requester, c.id, urlPostId, form) == Outcome(RedirectDetail(urlPostId), store)
  {
  }

  // Listings

  /** The profile page lists every post of its user, drafts and scheduled
      posts included, whoever is looking. */
  lemma ProfileListsEveryPost(store: Store, u: User, p: Post)
    requires UniqueUsers(store.users) && u in store.users
    requires p in store.posts && p.authorId == u.id
    ensures ProfileListing(store, u.username).Some?
    ensures p in PostsOf(ProfileListing(store, u.username).value)
  {
  }


  /** The category page is a 404 exactly when no published category has the
      slug. */
  lemma CategoryListingNotFound(store: Store, slug: string, now: int)
    requires UniqueSlugs(store.categories)
    ensures CategoryListing(store, slug, now).None? <==>
      !exists c :: c in store.categories && c.slug == slug && c.isPublished
  {
  }

  // Key constraints are kept

  lemma {:induction false} UniqueCommentIdsOfFilter(comments: seq<Comment>, keep: Comment -> bool)
    requires UniqueCommentIds(comments)
    ensures UniqueCommentIds(Filter(comments, keep))
  {
    if |comments| > 0 {
      var rest := comments[1..];
      UniqueCommentsTail(comments);
      UniqueCommentIdsOfFilter(rest, keep);
      var kept := Filter(rest, keep);
      HeadKeyNotInTail(comments);
      assert forall c :: c in kept ==> c in rest;
      assert comments == [comments[0]] + rest;
      ConsUniqueComments(comments[0], kept);
    }
  }

  lemma HeadKeyNotInTail(comments: seq<Comment>)
    requires |comments| > 0 && UniqueCommentIds(comments)
    ensures forall c :: c in comments[1..] ==> c.id != comments[0].id
  {
  }

  lemma ConsUniqueComments(head: Comment, s: seq<Comment>)
    requires UniqueCommentIds(s)
    requires forall c :: c in s ==> c.id != head.id
    ensures UniqueCommentIds([head] + s)
  {
  }

  lemma CreatePostKeepsValid(store: Store, requester: Requester, form: PostForm)
    requires Valid(store)
    ensures Valid(CreatePost(store, requester, form).store)
  {
  }

  lemma DeletePostKeepsValid(store: Store, requester: Requester, postId: PostId)
    requires Valid(store)
    ensures Valid(DeletePost(store, requester, postId).store)
  {
    var after := DeletePost(store, requester, postId).store.posts;
    if after != store.posts {
      UniqueIdsOfSubMultiset(store.posts, after);
    }
  }

  /** A deleted post's key is never handed out again, so a post created
      after the delete does not inherit the deleted post's comments. */
  lemma DeletedKeyNeverReused(store: Store, requester: Requester, p: Post, author: Requester, form: PostForm)
    requires Valid(store) && p in store.posts && author.Some?
    ensures var afterDelete := DeletePost(store, requester, p.id).store;
      var afterCreate := CreatePost(afterDelete, author, form).store;
      var created := afterCreate.posts[|afterDelete.posts|];
      && created.id != p.id
      && CountComments(afterCreate.comments, created.id) == 0
  {
  }

  lemma UpdatePostKeepsValid(store: Store, requester: Requester, postId: PostId, form: PostForm)
    requires Valid(store)
    ensures Valid(UpdatePost(store, requester, postId, form).store)
  {
  }

  lemma CreateCommentKeepsValid(store: Store, requester: Requester, urlPostId: PostId, form: CommentForm)
    requires Valid(store)
    ensures Valid(CreateComment(store, requester, urlPostId, form).store)
  {
  }

  lemma DeleteCommentKeepsValid(store: Store, requester: Requester, commentId: CommentId, urlPostId: PostId)
    requires Valid(store)
    ensures Valid(DeleteComment(store, requester, commentId, urlPostId).store)
  {
    if CommentOwnerCheck(store.comments, requester, commentId, urlPostId) == Allow {
      UniqueCommentIdsOfFilter(store.comments, (c: Comment) => c.id != commentId);
    }
  }

  lemma UpdateCommentKeepsValid(
    store: Store, requester: Requester, commentId: CommentId, urlPostId: PostId, form: CommentForm)
    requires Valid(store)
    ensures Valid(UpdateComment(store, requester, commentId, urlPostId, form).store)
  {
  }
}
