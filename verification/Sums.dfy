/** Totals over a list, and what one update does to them. */
module Sums {

  function Total<T>(xs: seq<T>, weight: T -> int): int {
    if xs == [] then 0 else Total(xs[..|xs| - 1], weight) + weight(xs[|xs| - 1])
  }

  lemma TotalAfterAppend<T>(xs: seq<T>, weight: T -> int, x: T)
    ensures Total(xs + [x], weight) == Total(xs, weight) + weight(x)
  {
    assert (xs + [x])[..|xs|] == xs;
  }

  lemma {:induction false} TotalAfterUpdate<T>(xs: seq<T>, weight: T -> int, i: nat, x: T)
    requires i < |xs|
    ensures Total(xs[i := x], weight) == Total(xs, weight) - weight(xs[i]) + weight(x)
  {
    var n := |xs| - 1;
    if i == n {
      assert xs[i := x][..n] == xs[..n];
    } else {
      TotalAfterUpdate(xs[..n], weight, i, x);
      assert xs[i := x][..n] == xs[..n][i := x];
    }
  }

  lemma {:induction false} TotalIsNonNegative<T(!new)>(xs: seq<T>, weight: T -> int)
    requires forall x :: weight(x) >= 0
    ensures Total(xs, weight) >= 0
  {
    if xs != [] {
      TotalIsNonNegative(xs[..|xs| - 1], weight);
    }
  }

  lemma {:induction false} TotalIsAtLeast<T(!new)>(xs: seq<T>, weight: T -> int, i: nat)
    requires i < |xs| && forall x :: weight(x) >= 0
    ensures Total(xs, weight) >= weight(xs[i])
  {
    var n := |xs| - 1;
    TotalIsNonNegative(xs[..n], weight);
    if i < n {
      TotalIsAtLeast(xs[..n], weight, i);
    }
  }

  lemma {:induction false} TotalGrows<T>(xs: seq<T>, less: T -> int, more: T -> int)
    requires forall i :: 0 <= i < |xs| ==> less(xs[i]) <= more(xs[i])
    ensures Total(xs, less) <= Total(xs, more)
  {
    if xs != [] {
      TotalGrows(xs[..|xs| - 1], less, more);
    }
  }
}
