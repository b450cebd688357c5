/**
 Properties of the visibility filter that relate several calls or hold only
 under the database's key constraints: exact membership, no duplicates,
 comment counts as row counts, idempotence, and agreement between
 `filtered_post` and `PublishedRecordingsManager`.
 */
module VisibilityProperties {
  import opened BlogModels
  import opened Ordering
  import opened Managers
  import opened Seqs

  /** A post is listed exactly when it is in the base collection and
      publicly visible. */
  lemma FilteredPostMembership(
    base: seq<Post>, categories: seq<Category>, comments: seq<Comment>, now: int, p: Post)
    ensures p in PostsOf(FilteredPost(base, categories, comments, now)) <==>
      p in base && IsVisible(p, categories, now)
  {
  }

  /** The date comparison is inclusive: a post dated exactly `now` is listed. */
  lemma FilteredPostIncludesNow(
    base: seq<Post>, categories: seq<Category>, comments: seq<Comment>, now: int, p: Post)
    requires p in base && p.isPublished && CategoryPublished(categories, p.categoryOpt)
    requires p.pubDate == now
    ensures p in PostsOf(FilteredPost(base, categories, comments, now))
  {
  }

  /** A post dated after `now` is not listed. */
  lemma FilteredPostExcludesFuture(
    base: seq<Post>, categories: seq<Category>, comments: seq<Comment>, now: int, p: Post)
    requires p.pubDate > now
    ensures p !in PostsOf(FilteredPost(base, categories, comments, now))
  {
  }

  lemma {:induction false} UniqueIdsAtMostOnce(posts: seq<Post>)
    requires UniquePostIds(posts)
    ensures forall p :: multiset(posts)[p] <= 1
  {
    if |posts| > 0 {
      var rest := posts[1..];
      assert UniquePostIds(rest) by {
        forall i, j | 0 <= i < |rest| && 0 <= j < |rest| && i != j
          ensures rest[i].id != rest[j].id
        {
          assert rest[i] == posts[i + 1] && rest[j] == posts[j + 1];
        }
      }
      UniqueIdsAtMostOnce(rest);
      assert posts == [posts[0]] + rest;
      forall k | 0 <= k < |rest| ensures rest[k] != posts[0] {
        assert rest[k].id == posts[k + 1].id != posts[0].id;
      }
      assert posts[0] !in rest;
    }
  }

  /** An element held at most once in a sequence sits at one index only. */
  lemma CountedOnceIsDistinct(s: seq<Post>, i: int, j: int)
    requires 0 <= i < j < |s| && multiset(s)[s[i]] <= 1
    ensures s[i] != s[j]
  {
    assert s == s[..j] + s[j..];
    assert s[i] in s[..j];
    assert s[j] in s[j..];
    assert multiset(s) == multiset(s[..j]) + multiset(s[j..]);
  }

  /** Taking some of the rows of a table with a primary key, each at most as
      often as the table holds it, keeps the keys unique. */
  lemma UniqueIdsOfSubMultiset(base: seq<Post>, out: seq<Post>)
    requires UniquePostIds(base)
    requires forall p :: multiset(out)[p] <= multiset(base)[p]
    ensures UniquePostIds(out)
  {
    UniqueIdsAtMostOnce(base);
    forall i, j | 0 <= i < |out| && 0 <= j < |out| && i != j
      ensures out[i].id != out[j].id
    {
      assert multiset(out)[out[i]] <= 1 && multiset(out)[out[j]] <= 1;
      if i < j { CountedOnceIsDistinct(out, i, j); } else { CountedOnceIsDistinct(out, j, i); }
      assert out[i] in multiset(out) && out[j] in multiset(out);
      assert out[i] in multiset(base) && out[j] in multiset(base);
      var k :| 0 <= k < |base| && base[k] == out[i];
      var l :| 0 <= l < |base| && base[l] == out[j];
      assert k != l;
    }
  }

  /** Over a base with unique keys the listing is duplicate free: a
      rearrangement of exactly the visible subset. */
  lemma FilteredPostNoDuplicates(
    base: seq<Post>, categories: seq<Category>, comments: seq<Comment>, now: int)
    requires UniquePostIds(base)
    ensures UniquePostIds(PostsOf(FilteredPost(base, categories, comments, now)))
  {
    UniqueIdsOfSubMultiset(base, PostsOf(FilteredPost(base, categories, comments, now)));
  }

  /** The tail of a comments table with unique keys has unique keys and
      does not hold the head row. */
  lemma UniqueCommentsTail(comments: seq<Comment>)
    requires |comments| > 0 && UniqueCommentIds(comments)
    ensures UniqueCommentIds(comments[1..])
    ensures comments[0] !in comments[1..]
  {
  }

  function CommentsOn(comments: seq<Comment>, postId: PostId): set<Comment> {
    set c | c in comments && c.postId == postId
  }

  lemma CommentsOnCons(comments: seq<Comment>, postId: PostId)
    requires |comments| > 0
    ensures CommentsOn(comments, postId) ==
      CommentsOn(comments[1..], postId) + (if comments[0].postId == postId then {comments[0]} else {})
  {
  }

  /** Over a comments table with unique keys, the annotation counts exactly
      the comment rows that belong to the post. */
  lemma {:induction false} CountCommentsIsCardinality(comments: seq<Comment>, postId: PostId)
    requires UniqueCommentIds(comments)
    ensures CountComments(comments, postId) == |CommentsOn(comments, postId)|
  {
    if |comments| == 0 {
      assert CommentsOn(comments, postId) == {};
    } else {
      UniqueCommentsTail(comments);
      CountCommentsIsCardinality(comments[1..], postId);
      CommentsOnCons(comments, postId);
      assert comments[0] !in CommentsOn(comments[1..], postId);
    }
  }

  lemma AnnotateAnnotated(r: seq<Annotated>, comments: seq<Comment>)
    requires forall a :: a in r ==> a.commentCount == CountComments(comments, a.post.id)
    ensures Annotate(PostsOf(r), comments) == r
  {
  }

  /** Filtering an already filtered listing gives it back unchanged. */
  lemma FilteredPostIdempotent(
    base: seq<Post>, categories: seq<Category>, comments: seq<Comment>, now: int)
    ensures var once := FilteredPost(base, categories, comments, now);
      FilteredPost(PostsOf(once), categories, comments, now) == once
  {
    var once := FilteredPost(base, categories, comments, now);
    forall p | p in PostsOf(once) ensures IsVisible(p, categories, now) {
      var i :| 0 <= i < |PostsOf(once)| && PostsOf(once)[i] == p;
      assert once[i] in once;
    }
    FilterKeepsAll(PostsOf(once), p => IsVisible(p, categories, now));
    AnnotateAnnotated(once, comments);
    SortKeepsSorted(once);
  }

  /** The manager selects the same posts, as often, as `filtered_post` over
      the whole posts table. */
  lemma ManagerMatchesFilteredPost(
    posts: seq<Post>, categories: seq<Category>, comments: seq<Comment>, now: int)
    ensures multiset(PublishedRecordings(posts, categories, now))
         == multiset(PostsOf(FilteredPost(posts, categories, comments, now)))
    ensures (set p | p in PublishedRecordings(posts, categories, now))
         == (set p | p in PostsOf(FilteredPost(posts, categories, comments, now)))
  {
    var managed := PublishedRecordings(posts, categories, now);
    var filtered := PostsOf(FilteredPost(posts, categories, comments, now));
    forall p ensures multiset(managed)[p] == multiset(filtered)[p] {
      assert p in posts <==> multiset(posts)[p] > 0;
      assert p in managed <==> multiset(managed)[p] > 0;
    }
    assert multiset(managed) == multiset(filtered);
    forall p ensures p in managed <==> p in filtered {
      assert p in managed <==> p in multiset(managed);
      assert p in filtered <==> p in multiset(filtered);
    }
  }
}
