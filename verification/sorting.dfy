/**
 * Java's `List.sort` / `Stream.sorted` with a comparator, as a stable
 * insertion sort over a "less than or equal" relation, plus `limit(n)`.
 */
module Sorting {

  /** `le` orders every pair and is transitive: what a consistent Java comparator provides. */
  ghost predicate TotalPreorder<T(!new)>(le: (T, T) -> bool)
  {
    && (forall a, b :: le(a, b) || le(b, a))
    && (forall a, b, c :: le(a, b) && le(b, c) ==> le(a, c))
  }

  ghost predicate SortedBy<T>(s: seq<T>, le: (T, T) -> bool)
  {
    forall i, j :: 0 <= i < j < |s| ==> le(s[i], s[j])
  }

  /** Places `x` in front of the first element it does not follow, so it stays ahead of equal elements. */
  function Insert<T(!new)>(x: T, s: seq<T>, le: (T, T) -> bool): (r: seq<T>)
    requires TotalPreorder(le) && SortedBy(s, le)
    ensures SortedBy(r, le)
    ensures multiset(r) == multiset(s) + multiset{x}
  {
    if s == [] then [x]
    else if le(x, s[0]) then [x] + s
    else
      var rest := Insert(x, s[1..], le);
      assert s == [s[0]] + s[1..];
      assert forall k :: 0 <= k < |rest| ==> le(s[0], rest[k]) by {
        forall k | 0 <= k < |rest|
          ensures le(s[0], rest[k])
        {
          assert rest[k] in multiset(rest);
          assert rest[k] == x || rest[k] in s[1..];
        }
      }
      [s[0]] + rest
  }

  /** The elements of `s` ordered by `le`: sorted, and a permutation of `s`. */
  function SortBy<T(!new)>(s: seq<T>, le: (T, T) -> bool): (r: seq<T>)
    requires TotalPreorder(le)
    ensures SortedBy(r, le)
    ensures multiset(r) == multiset(s)
    ensures |r| == |s|
  {
    if s == [] then []
    else
      assert s == [s[0]] + s[1..];
      Insert(s[0], SortBy(s[1..], le), le)
  }

  /** `Stream.limit(n)`: the first `n` elements, or all of them when there are fewer. */
  function Take<T>(s: seq<T>, n: nat): (r: seq<T>)
    ensures |r| == if |s| < n then |s| else n
    ensures r == s[..|r|]
  {
    if |s| <= n then s else s[..n]
  }

  /**
   * The top-`n` property of a sorted prefix: every element of `s` that
   * did not make the cut is ordered after every element that did.
   */
  lemma {:induction false} TakeOfSortedIsTop<T(!new)>(s: seq<T>, le: (T, T) -> bool, n: nat, i: nat, j: nat)
    requires TotalPreorder(le)
    requires i < |Take(SortBy(s, le), n)| <= j < |s|
    ensures le(Take(SortBy(s, le), n)[i], SortBy(s, le)[j])
  {
  }

  /**
   * `sorted(le).limit(n)`: at most `n` elements of `s` in order, none
   * listed more often than `s` holds it, all of them when there are no more
   * than `n`, and nobody left out comes before anybody kept.
   */
  function TopBy<T(!new)>(s: seq<T>, le: (T, T) -> bool, n: nat): (r: seq<T>)
    requires TotalPreorder(le)
    ensures |r| == if |s| < n then |s| else n
    ensures SortedBy(r, le)
    ensures forall x :: x in r ==> x in s
    ensures multiset(r) <= multiset(s)
    ensures |s| <= n ==> multiset(r) == multiset(s)
    ensures forall x, i :: x in s && x !in r && 0 <= i < |r| ==> le(r[i], x)
  {
    var sorted := SortBy(s, le);
    var top := Take(sorted, n);
    assert sorted == top + sorted[|top|..];
    assert forall x :: x in top ==> x in s by {
      forall x | x in top
        ensures x in s
      {
        assert x in multiset(sorted);
      }
    }
    assert forall x, i :: x in s && x !in top && 0 <= i < |top| ==> le(top[i], x) by {
      forall x, i | x in s && x !in top && 0 <= i < |top|
        ensures le(top[i], x)
      {
        assert x in multiset(sorted);
        var j :| 0 <= j < |sorted| && sorted[j] == x;
        assert forall k :: 0 <= k < |top| ==> top[k] in top && top[k] == sorted[k];
        TakeOfSortedIsTop(s, le, n, i, j);
      }
    }
    top
  }
}
