/**
 Lookup and order-preserving selection over sequences: the shapes that
 `get_object_or_404(...)` and `filter(...)` over a table take in this model.
 */
module Seqs {

  datatype Option<+T> = None | Some(value: T)

  /** The first element of `s` that `matches`, or `None` when there is none. */
  function First<T(!new)>(s: seq<T>, matches: T -> bool): (r: Option<T>)
    ensures r.Some? ==> r.value in s && matches(r.value)
    ensures r.None? <==> forall x :: x in s ==> !matches(x)
  {
    if |s| == 0 then None
    else if matches(s[0]) then Some(s[0])
    else First(s[1..], matches)
  }

  /** The elements of `s` that satisfy `keep`. Each kept element occurs as
      often as in `s`; every other occurs not at all. */
  function Filter<T(!new)>(s: seq<T>, keep: T -> bool): (r: seq<T>)
    ensures forall x :: multiset(r)[x] == if keep(x) then multiset(s)[x] else 0
    ensures forall x :: x in r <==> x in s && keep(x)
  {
    if |s| == 0 then []
    else
      assert s == [s[0]] + s[1..];
      var rest := Filter(s[1..], keep);
      if keep(s[0]) then [s[0]] + rest else rest
  }

  /** Selecting from a sequence whose every element is kept changes nothing. */
  lemma {:induction false} FilterKeepsAll<T(!new)>(s: seq<T>, keep: T -> bool)
    requires forall x :: x in s ==> keep(x)
    ensures Filter(s, keep) == s
  {
    if |s| > 0 {
      FilterKeepsAll(s[1..], keep);
      assert s == [s[0]] + s[1..];
    }
  }
}
