/**
 Posts carrying their comment-count annotation, and `order_by('-pub_date')`:
 a stable newest-first insertion sort over sequences. The database leaves the
 order of posts with equal publish dates unspecified; this model keeps them
 in the order of its input.
 */
module Ordering {
  import opened BlogModels

  datatype Annotated = Annotated(post: Post, commentCount: nat)

  function PostsOf(s: seq<Annotated>): seq<Post> {
    seq(|s|, i requires 0 <= i < |s| => s[i].post)
  }

  /** Newest first: publish dates never increase along the sequence. */
  predicate NewestFirst(s: seq<Annotated>) {
    forall i, j :: 0 <= i < j < |s| ==> s[i].post.pubDate >= s[j].post.pubDate
  }

  function Insert(a: Annotated, s: seq<Annotated>): (r: seq<Annotated>)
    requires NewestFirst(s)
    ensures NewestFirst(r)
    ensures multiset(r) == multiset(s) + multiset{a}
    ensures multiset(PostsOf(r)) == multiset(PostsOf(s)) + multiset{a.post}
    ensures forall x :: x in r ==> x == a || x in s
  {
    if |s| == 0 || a.post.pubDate >= s[0].post.pubDate then
      ConsNewestFirst(a, s);
      PostsOfCons(a, s);
      [a] + s
    else
      assert NewestFirst(s[1..]);
      var rest := Insert(a, s[1..]);
      InsertStep(a, s, rest);
      [s[0]] + rest
  }

  /** The recursive case of `Insert`: `a` goes after the head of `s`. */
  lemma {:induction false} InsertStep(a: Annotated, s: seq<Annotated>, rest: seq<Annotated>)
    requires |s| > 0 && a.post.pubDate < s[0].post.pubDate
    requires NewestFirst(s) && NewestFirst(rest)
    requires multiset(rest) == multiset(s[1..]) + multiset{a}
    requires multiset(PostsOf(rest)) == multiset(PostsOf(s[1..])) + multiset{a.post}
    requires forall x :: x in rest ==> x == a || x in s[1..]
    ensures NewestFirst([s[0]] + rest)
    ensures multiset([s[0]] + rest) == multiset(s) + multiset{a}
    ensures multiset(PostsOf([s[0]] + rest)) == multiset(PostsOf(s)) + multiset{a.post}
    ensures forall x :: x in [s[0]] + rest ==> x == a || x in s
  {
    InsertStepOrder(a, s, rest);
    InsertStepCounts(a, s, rest);
  }

  lemma {:induction false} InsertStepCounts(a: Annotated, s: seq<Annotated>, rest: seq<Annotated>)
    requires |s| > 0
    requires multiset(rest) == multiset(s[1..]) + multiset{a}
    requires multiset(PostsOf(rest)) == multiset(PostsOf(s[1..])) + multiset{a.post}
    requires forall x :: x in rest ==> x == a || x in s[1..]
    ensures multiset([s[0]] + rest) == multiset(s) + multiset{a}
    ensures multiset(PostsOf([s[0]] + rest)) == multiset(PostsOf(s)) + multiset{a.post}
    ensures forall x :: x in [s[0]] + rest ==> x == a || x in s
  {
    assert s == [s[0]] + s[1..];
    PostsOfCons(s[0], rest);
    PostsOfCons(s[0], s[1..]);
  }

  lemma {:induction false} InsertStepOrder(a: Annotated, s: seq<Annotated>, rest: seq<Annotated>)
    requires |s| > 0 && a.post.pubDate < s[0].post.pubDate
    requires NewestFirst(s) && NewestFirst(rest)
    requires forall x :: x in rest ==> x == a || x in s[1..]
    ensures NewestFirst([s[0]] + rest)
  {
    if |rest| > 0 {
      assert rest[0] == a || rest[0] in s[1..];
    }
    ConsNewestFirst(s[0], rest);
  }

  lemma {:induction false} PostsOfCons(x: Annotated, s: seq<Annotated>)
    ensures PostsOf([x] + s) == [x.post] + PostsOf(s)
  {
  }

  /** Putting a post no older than any of `s` in front keeps `s` newest first. */
  lemma {:induction false} ConsNewestFirst(x: Annotated, s: seq<Annotated>)
    requires NewestFirst(s)
    requires |s| > 0 ==> s[0].post.pubDate <= x.post.pubDate
    ensures NewestFirst([x] + s)
  {
  }

  /** The result is the input rearranged newest first. */
  function SortNewestFirst(s: seq<Annotated>): (r: seq<Annotated>)
    ensures NewestFirst(r)
    ensures multiset(r) == multiset(s)
    ensures multiset(PostsOf(r)) == multiset(PostsOf(s))
  {
    if |s| == 0 then []
    else
      assert s == [s[0]] + s[1..];
      PostsOfCons(s[0], s[1..]);
      Insert(s[0], SortNewestFirst(s[1..]))
  }

  /** Sorting a sequence that is already newest first changes nothing: this
      is what makes the visibility filter idempotent. */
  lemma {:induction false} SortKeepsSorted(s: seq<Annotated>)
    requires NewestFirst(s)
    ensures SortNewestFirst(s) == s
  {
    if |s| > 0 {
      assert NewestFirst(s[1..]);
      SortKeepsSorted(s[1..]);
      assert s == [s[0]] + s[1..];
    }
  }
}
