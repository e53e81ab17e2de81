/** The first occurrences in a list: what is left when repeats are dropped in order. */
module Repeats {

  ghost predicate NoRepeats<T(!new)>(xs: seq<T>) {
    forall i, j :: 0 <= i < j < |xs| ==> xs[i] != xs[j]
  }

  function FirstOccurrences<T(==)>(xs: seq<T>): seq<T> {
    if xs == [] then []
    else
      var front, last := xs[..|xs| - 1], xs[|xs| - 1];
      if last in front then FirstOccurrences(front) else FirstOccurrences(front) + [last]
  }

  lemma {:induction false} SameElements<T(!new)>(xs: seq<T>, x: T)
    ensures x in FirstOccurrences(xs) <==> x in xs
  {
    if xs != [] {
      var front, last := xs[..|xs| - 1], xs[|xs| - 1];
      SameElements(front, x);
      assert xs == front + [last];
    }
  }

  lemma FirstOccurrencesAppend<T(!new)>(front: seq<T>, last: T)
    ensures FirstOccurrences(front + [last]) ==
      if last in front then FirstOccurrences(front) else FirstOccurrences(front) + [last]
  {
    assert (front + [last])[..|front|] == front;
  }

  lemma FirstOccurrencesOneMore<T(!new)>(xs: seq<T>, i: nat)
    requires i < |xs|
    ensures FirstOccurrences(xs[..i + 1]) ==
      if xs[i] in xs[..i] then FirstOccurrences(xs[..i]) else FirstOccurrences(xs[..i]) + [xs[i]]
  {
    assert xs[..i + 1][..i] == xs[..i];
  }

  /** Nothing before `i` is what `xs` shows at `i`. */
  ghost predicate IsNew<T(!new)>(xs: seq<T>, i: nat)
    requires i < |xs|
  {
    forall j :: 0 <= j < i ==> xs[j] != xs[i]
  }

  /** `positions` picks, in order, exactly the places where `xs` shows something new. */
  ghost predicate PicksFirsts<T(!new)>(xs: seq<T>, positions: seq<nat>) {
    && (forall k, l :: 0 <= k < l < |positions| ==> positions[k] < positions[l])
    && (forall k :: 0 <= k < |positions| ==> positions[k] < |xs|)
    && (forall i :: 0 <= i < |xs| ==> (i in positions <==> IsNew(xs, i)))
  }

  lemma PicksOneMore<T(!new)>(xs: seq<T>, n: nat, positions: seq<nat>)
    requires n + 1 == |xs| && PicksFirsts(xs[..n], positions)
    ensures PicksFirsts(xs, if xs[n] in xs[..n] then positions else positions + [n])
  {
    assert xs[n] in xs[..n] <==> !IsNew(xs, n);
    forall i | 0 <= i < n ensures IsNew(xs[..n], i) <==> IsNew(xs, i) {
      forall j | 0 <= j < i ensures xs[..n][j] == xs[j] {
      }
    }
    hide IsNew;
    if xs[n] in xs[..n] {
      assert n !in positions;
    } else {
      assert forall i :: 0 <= i < n ==> (i in positions + [n] <==> i in positions);
    }
  }

  ghost predicate Selects<T(!new)>(chosen: seq<T>, xs: seq<T>, positions: seq<nat>) {
    |chosen| == |positions| &&
    forall k :: 0 <= k < |positions| ==> positions[k] < |xs| && chosen[k] == xs[positions[k]]
  }

  lemma SelectsOneMore<T(!new)>(chosen: seq<T>, xs: seq<T>, n: nat, positions: seq<nat>)
    requires n + 1 == |xs| && Selects(chosen, xs[..n], positions)
    ensures Selects(chosen, xs, positions) && Selects(chosen + [xs[n]], xs, positions + [n])
  {
  }

  /** The first occurrences are a subsequence of the list: its elements at the positions that
      show something new. */
  lemma {:induction false} FirstOccurrencesInOrder<T(!new)>(xs: seq<T>) returns (positions: seq<nat>)
    ensures PicksFirsts(xs, positions) && Selects(FirstOccurrences(xs), xs, positions)
  {
    positions := [];
    if xs != [] {
      var n := |xs| - 1;
      positions := FirstOccurrencesInOrder(xs[..n]);
      hide *;
      FirstOccurrencesOneMore(xs, n);
      assert xs[..n + 1] == xs;
      PicksOneMore(xs, n, positions);
      SelectsOneMore(FirstOccurrences(xs[..n]), xs, n, positions);
      if xs[n] !in xs[..n] {
        positions := positions + [n];
      }
    }
  }

  lemma FirstOccurrencesNeverRepeat<T(!new)>(xs: seq<T>)
    ensures NoRepeats(FirstOccurrences(xs))
  {
    var positions := FirstOccurrencesInOrder(xs);
    forall k, l | 0 <= k < l < |positions| ensures xs[positions[k]] != xs[positions[l]] {
      assert positions[l] in positions && IsNew(xs, positions[l]);
    }
  }

  /** Only a list with a repeat is changed, so dropping repeats twice drops no more. */
  lemma {:induction false} NothingToDrop<T(!new)>(xs: seq<T>)
    ensures FirstOccurrences(xs) == xs <==> NoRepeats(xs)
  {
    FirstOccurrencesNeverRepeat(xs);
    if NoRepeats(xs) {
      NothingDropped(xs);
    }
  }

  lemma {:induction false} NothingDropped<T(!new)>(xs: seq<T>)
    requires NoRepeats(xs)
    ensures FirstOccurrences(xs) == xs
  {
    if xs != [] {
      var n := |xs| - 1;
      NothingDropped(xs[..n]);
      assert xs[n] !in xs[..n];
      assert xs[..n] + [xs[n]] == xs;
    }
  }
}
