/**
 The visibility filter of blog/managers.py: `filtered_post`, which keeps the
 publicly visible posts of a base collection, annotates each with its number
 of comments and orders them newest first, and the manager
 `PublishedRecordingsManager`, which applies the same three conditions with
 no annotation and no ordering. The current time is the parameter `now`.
 */
module Managers {
  import opened BlogModels
  import opened Ordering
  import opened Seqs

  /** `category__is_published=True`: the post has a category and that
      category is published. The join drops posts without a category. With
      unique slugs this is the join's meaning: some category row with the
      post's slug is published. */
  function CategoryPublished(categories: seq<Category>, categoryOpt: Option<string>): (r: bool)
    ensures UniqueSlugs(categories) ==>
      (r <==> exists c :: c in categories && categoryOpt == Some(c.slug) && c.isPublished)
  {
    match categoryOpt
    case None => false
    case Some(slug) =>
      match FindCategory(categories, slug)
      case None => false
      case Some(c) => c.isPublished
  }

  /** Publicly visible: published, not dated in the future (the comparison
      is inclusive) and in a published category. */
  function IsVisible(p: Post, categories: seq<Category>, now: int): (r: bool)
    ensures UniqueSlugs(categories) ==>
      (r <==> && p.isPublished && p.pubDate <= now
              && exists c :: c in categories && p.categoryOpt == Some(c.slug) && c.isPublished)
  {
    p.isPublished && p.pubDate <= now && CategoryPublished(categories, p.categoryOpt)
  }

  /** The `filter(...)` step of `filtered_post`, keeping the base order. */
  function SelectVisible(posts: seq<Post>, categories: seq<Category>, now: int): (r: seq<Post>)
    ensures forall p :: multiset(r)[p] == if IsVisible(p, categories, now) then multiset(posts)[p] else 0
  {
    Filter(posts, p => IsVisible(p, categories, now))
  }

  /** `Count('comments')`: the number of rows of the comments table that
      point at post `postId`, each row counted once however many rows share
      its contents. */
  function CountComments(comments: seq<Comment>, postId: PostId): (r: nat)
    ensures r == |Filter(comments, (c: Comment) => c.postId == postId)|
  {
    if |comments| == 0 then 0
    else (if comments[0].postId == postId then 1 else 0) + CountComments(comments[1..], postId)
  }

  /** `annotate(comment_count=Count('comments'))`. */
  function Annotate(posts: seq<Post>, comments: seq<Comment>): (r: seq<Annotated>)
    ensures PostsOf(r) == posts
    ensures forall a :: a in r ==> a.commentCount == CountComments(comments, a.post.id)
  {
    seq(|posts|, i requires 0 <= i < |posts| => Annotated(posts[i], CountComments(comments, posts[i].id)))
  }

  /** `filtered_post(base)` evaluated at time `now`. */
  function FilteredPost(base: seq<Post>, categories: seq<Category>, comments: seq<Comment>, now: int)
    : (r: seq<Annotated>)
    ensures forall a :: a in r ==> a.post.isPublished
    ensures forall a :: a in r ==> a.post.pubDate <= now
    ensures forall a :: a in r ==> CategoryPublished(categories, a.post.categoryOpt)
    ensures forall a :: a in r ==> a.commentCount == CountComments(comments, a.post.id)
    ensures forall p :: multiset(PostsOf(r))[p] == if IsVisible(p, categories, now) then multiset(base)[p] else 0
    ensures NewestFirst(r)
  {
    var selected := SelectVisible(base, categories, now);
    var r := SortNewestFirst(Annotate(selected, comments));
    SortedSelectionFacts(selected, categories, comments, now);
    r
  }

  /** Each annotated post that survives the sort is a selected post with its
      own comment count. */
  lemma {:induction false} SortedSelectionFacts(
    selected: seq<Post>, categories: seq<Category>, comments: seq<Comment>, now: int)
    requires forall p :: p in selected ==> IsVisible(p, categories, now)
    ensures forall a :: a in SortNewestFirst(Annotate(selected, comments)) ==>
      IsVisible(a.post, categories, now) && a.commentCount == CountComments(comments, a.post.id)
  {
    var annotated := Annotate(selected, comments);
    var r := SortNewestFirst(annotated);
    forall a | a in r
      ensures IsVisible(a.post, categories, now) && a.commentCount == CountComments(comments, a.post.id)
    {
      assert a in multiset(r);
      var i :| 0 <= i < |annotated| && annotated[i] == a;
      assert PostsOf(annotated)[i] == a.post;
    }
  }

  /** Ordering an annotated listing keeps every post's own comment count. */
  lemma {:induction false} SortedAnnotationCounts(posts: seq<Post>, comments: seq<Comment>)
    ensures forall a :: a in SortNewestFirst(Annotate(posts, comments)) ==>
      a.commentCount == CountComments(comments, a.post.id)
  {
    var annotated := Annotate(posts, comments);
    forall a | a in SortNewestFirst(annotated)
      ensures a.commentCount == CountComments(comments, a.post.id)
    {
      assert a in multiset(annotated);
    }
  }

  /** `PublishedRecordingsManager.get_queryset()` over the posts table: the
      same three conditions, written in the manager's order, with no
      annotation and no ordering. */
  function PublishedRecordings(posts: seq<Post>, categories: seq<Category>, now: int): (r: seq<Post>)
    ensures forall p :: p in r <==>
      p in posts && p.isPublished && CategoryPublished(categories, p.categoryOpt) && p.pubDate <= now
    ensures forall p :: p in r ==> multiset(r)[p] == multiset(posts)[p]
  {
    if |posts| == 0 then []
    else
      var p := posts[0];
      assert posts == [p] + posts[1..];
      var rest := PublishedRecordings(posts[1..], categories, now);
      if p.isPublished && CategoryPublished(categories, p.categoryOpt) && p.pubDate <= now then [p] + rest
      else rest
  }
}
