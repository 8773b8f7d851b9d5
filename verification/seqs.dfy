/** Sequence helpers used to select documents from a directory walk. */
module Seqs {

  /** The elements of `xs` satisfying `keep`, in their original order. */
  function Filter<T(==,!new)>(xs: seq<T>, keep: T -> bool): (r: seq<T>)
    ensures |r| <= |xs|
    ensures forall i :: 0 <= i < |r| ==> r[i] in xs && keep(r[i])
    ensures forall i :: 0 <= i < |xs| && keep(xs[i]) ==> xs[i] in r
    ensures Distinct(xs) ==> Distinct(r)
    ensures forall x :: multiset(r)[x] == if keep(x) then multiset(xs)[x] else 0
  {
    if |xs| == 0 then []
    else
      var rest := Filter(xs[1..], keep);
      var r := if keep(xs[0]) then [xs[0]] + rest else rest;
      FilterConsMembers(xs, keep, rest, r);
      FilterConsCount(xs, keep, rest, r);
      FilterConsDistinct(xs, keep, rest, r);
      r
  }

  /** The membership step of `Filter`. */
  lemma FilterConsMembers<T>(xs: seq<T>, keep: T -> bool, rest: seq<T>, r: seq<T>)
    requires |xs| > 0
    requires forall i :: 0 <= i < |rest| ==> rest[i] in xs[1..] && keep(rest[i])
    requires forall i :: 0 <= i < |xs[1..]| && keep(xs[1..][i]) ==> xs[1..][i] in rest
    requires r == if keep(xs[0]) then [xs[0]] + rest else rest
    ensures |r| <= 1 + |rest|
    ensures forall i :: 0 <= i < |r| ==> r[i] in xs && keep(r[i])
    ensures forall i :: 0 <= i < |xs| && keep(xs[i]) ==> xs[i] in r
  {
    forall i | 0 < i < |xs| && keep(xs[i])
      ensures xs[i] in r
    {
      assert xs[i] == xs[1..][i - 1];
    }
  }

  /** The multiset step of `Filter`. */
  lemma FilterConsCount<T>(xs: seq<T>, keep: T -> bool, rest: seq<T>, r: seq<T>)
    requires |xs| > 0
    requires forall x :: multiset(rest)[x] == if keep(x) then multiset(xs[1..])[x] else 0
    requires r == if keep(xs[0]) then [xs[0]] + rest else rest
    ensures forall x :: multiset(r)[x] == if keep(x) then multiset(xs)[x] else 0
  {
    assert xs == [xs[0]] + xs[1..];
    assert multiset(xs) == multiset{xs[0]} + multiset(xs[1..]);
  }

  /** The distinctness step of `Filter`. */
  lemma FilterConsDistinct<T>(xs: seq<T>, keep: T -> bool, rest: seq<T>, r: seq<T>)
    requires |xs| > 0
    requires forall i :: 0 <= i < |rest| ==> rest[i] in xs[1..]
    requires Distinct(xs[1..]) ==> Distinct(rest)
    requires r == if keep(xs[0]) then [xs[0]] + rest else rest
    ensures Distinct(xs) ==> Distinct(r)
  {
    if Distinct(xs) && keep(xs[0]) {
      assert Distinct(xs[1..]);
      assert xs[0] !in rest;
    }
  }

  /** No element occurs twice. */
  predicate Distinct<T(==)>(xs: seq<T>) {
    forall i, j :: 0 <= i < j < |xs| ==> xs[i] != xs[j]
  }

  /** Filtering distributes over concatenation. */
  lemma {:induction false} FilterConcat<T(!new)>(xs: seq<T>, ys: seq<T>, keep: T -> bool)
    ensures Filter(xs + ys, keep) == Filter(xs, keep) + Filter(ys, keep)
    decreases |xs|
  {
    if |xs| == 0 {
      assert xs + ys == ys;
    } else {
      assert (xs + ys)[1..] == xs[1..] + ys;
      FilterConcat(xs[1..], ys, keep);
    }
  }

  /** A sequence without repeats has as many elements as its set. */
  lemma {:induction false} DistinctCard<T>(xs: seq<T>)
    requires Distinct(xs)
    ensures |set x | x in xs| == |xs|
    decreases |xs|
  {
    if |xs| > 0 {
      var rest := xs[1..];
      DistinctCard(rest);
      assert (set x | x in xs) == {xs[0]} + (set x | x in rest);
      assert xs[0] !in rest;
    }
  }
}
