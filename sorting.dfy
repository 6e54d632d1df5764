/**
 * Ordering query results (`orderBy`): an insertion sort under any total
 * preorder, proved to yield a sorted permutation of its input.
 */
module Sorting {

  ghost predicate Total<T(!new)>(le: (T, T) -> bool) {
    forall a, b :: le(a, b) || le(b, a)
  }

  ghost predicate Transitive<T(!new)>(le: (T, T) -> bool) {
    forall a, b, c :: le(a, b) && le(b, c) ==> le(a, c)
  }

  /** Every element may come before every later one. */
  predicate SortedBy<T>(le: (T, T) -> bool, xs: seq<T>) {
    forall i, j :: 0 <= i < j < |xs| ==> le(xs[i], xs[j])
  }

  function Insert<T(!new)>(le: (T, T) -> bool, x: T, xs: seq<T>): (r: seq<T>)
    requires Total(le) && Transitive(le) && SortedBy(le, xs)
    ensures SortedBy(le, r)
    ensures multiset(r) == multiset(xs) + multiset{x}
  {
    if xs == [] then [x]
    else if le(x, xs[0]) then [x] + xs
    else
      var rest := Insert(le, x, xs[1..]);
      assert xs == [xs[0]] + xs[1..];
      LowerBound(le, xs[0], x, xs[1..], rest);
      [xs[0]] + rest
  }

  /** A lower bound of `x` and of every element of `xs` bounds every element of a permutation of both. */
  lemma LowerBound<T>(le: (T, T) -> bool, z: T, x: T, xs: seq<T>, r: seq<T>)
    requires multiset(r) == multiset(xs) + multiset{x}
    requires le(z, x) && forall y :: y in xs ==> le(z, y)
    ensures forall y :: y in r ==> le(z, y)
  {
    forall y | y in r ensures le(z, y) {
      assert y in multiset(r);
    }
  }

  /** The elements of `xs` in order `le`: a sorted permutation of `xs`. */
  function Sort<T(!new)>(le: (T, T) -> bool, xs: seq<T>): (r: seq<T>)
    requires Total(le) && Transitive(le)
    ensures SortedBy(le, r)
    ensures multiset(r) == multiset(xs)
  {
    if xs == [] then [] else
      assert xs == [xs[0]] + xs[1..];
      Insert(le, xs[0], Sort(le, xs[1..]))
  }

  /** The first element of a sorted sequence may come before every element. */
  lemma SortedHead<T>(le: (T, T) -> bool, xs: seq<T>)
    requires SortedBy(le, xs) && xs != []
    ensures forall i :: 0 < i < |xs| ==> le(xs[0], xs[i])
  {
  }

  /**
   * Taking the first `k` of a sorted selection of `all` takes its least
   * elements: each taken element is selected, none is taken more often than
   * it occurs in `all`, and every selected occurrence left behind may come
   * after every element taken.
   */
  lemma TakeSorted<T>(le: (T, T) -> bool, p: T -> bool, all: seq<T>, xs: seq<T>, k: nat)
    requires SortedBy(le, xs) && k <= |xs|
    requires forall x :: multiset(xs)[x] == if p(x) then multiset(all)[x] else 0
    ensures forall x :: x in xs[..k] ==> p(x)
    ensures forall x :: multiset(xs[..k])[x] <= multiset(all)[x]
    ensures forall x, i :: p(x) && multiset(xs[..k])[x] < multiset(all)[x] && 0 <= i < k ==> le(xs[i], x)
  {
    var back := xs[k..];
    assert xs == xs[..k] + back;
    assert multiset(xs) == multiset(xs[..k]) + multiset(back);
    forall x | x in xs[..k] ensures p(x) {
      assert multiset(xs)[x] > 0;
    }
    forall x, i | p(x) && multiset(xs[..k])[x] < multiset(all)[x] && 0 <= i < k ensures le(xs[i], x) {
      assert x in multiset(back);
      var j :| 0 <= j < |back| && back[j] == x;
      assert xs[k + j] == x;
    }
  }
}
