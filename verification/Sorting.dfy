/** Lists sorted by a string key, and why the sorted list of a set is unique. */
module Sorting {
  import opened Text

  /** Ascending keys, so no two elements share one. */
  ghost predicate Ascending<T(!new)>(xs: seq<T>, key: T -> string) {
    forall i, j :: 0 <= i < j < |xs| ==> Less(key(xs[i]), key(xs[j]))
  }

  ghost predicate DistinctKeys<T(!new)>(s: set<T>, key: T -> string) {
    forall x, y :: x in s && y in s && key(x) == key(y) ==> x == y
  }

  /** `xs` lists exactly the members of `s`, each once, in ascending order. */
  ghost predicate Lists<T(!new)>(xs: seq<T>, s: set<T>, key: T -> string) {
    Ascending(xs, key) && forall x :: x in xs <==> x in s
  }

  lemma {:induction false} ListingIsUnique<T(!new)>(xs: seq<T>, ys: seq<T>, s: set<T>, key: T -> string)
    requires Lists(xs, s, key) && Lists(ys, s, key)
    ensures xs == ys
    decreases |xs|
  {
    assert xs != [] ==> xs[0] in ys;
    assert ys != [] ==> ys[0] in xs;
    if xs != [] && ys != [] {
      HeadIsLeast(xs, s, key, ys[0]);
      HeadIsLeast(ys, s, key, xs[0]);
      LessIsTotal(key(xs[0]), key(ys[0]));
      assert xs[0] == ys[0];
      TailLists(xs, s, key);
      TailLists(ys, s, key);
      ListingIsUnique(xs[1..], ys[1..], s - {xs[0]}, key);
      assert xs == [xs[0]] + xs[1..] && ys == [ys[0]] + ys[1..];
    }
  }

  lemma HeadIsLeast<T(!new)>(xs: seq<T>, s: set<T>, key: T -> string, y: T)
    requires Lists(xs, s, key) && xs != [] && y in s
    ensures y == xs[0] || Less(key(xs[0]), key(y))
  {
    var j :| 0 <= j < |xs| && xs[j] == y;
  }

  lemma TailLists<T(!new)>(xs: seq<T>, s: set<T>, key: T -> string)
    requires Lists(xs, s, key) && xs != []
    ensures xs[0] in s && Lists(xs[1..], s - {xs[0]}, key)
  {
    LessIsIrreflexive(key(xs[0]));
    forall x ensures x in xs[1..] <==> x in s - {xs[0]} {
      if x in xs[1..] {
        var j :| 0 <= j < |xs| - 1 && xs[1..][j] == x;
        assert x == xs[j + 1];
        assert Less(key(xs[0]), key(x));
      }
      if x in s - {xs[0]} {
        var j :| 0 <= j < |xs| && xs[j] == x;
        assert xs[1..][j - 1] == x;
      }
    }
  }

  lemma {:induction false} ListingHasSizeOf<T(!new)>(xs: seq<T>, s: set<T>, key: T -> string)
    requires Lists(xs, s, key)
    ensures |xs| == |s|
    decreases |xs|
  {
    if xs == [] {
      assert forall x :: x in s ==> x in xs;
    } else {
      TailLists(xs, s, key);
      ListingHasSizeOf(xs[1..], s - {xs[0]}, key);
    }
  }

  /** Inserts `x` before the first element with a greater key. */
  function Insert<T(!new)>(x: T, xs: seq<T>, key: T -> string): (r: seq<T>)
    ensures forall y :: y in r <==> y == x || y in xs
    ensures |r| == |xs| + 1
    ensures Ascending(xs, key) && (forall y :: y in xs ==> key(y) != key(x)) ==> Ascending(r, key)
  {
    if xs == [] then [x]
    else if Less(key(x), key(xs[0])) then
      assert Ascending(xs, key) ==> Ascending([x] + xs, key) by {
        if Ascending(xs, key) {
          forall i | 1 <= i < |xs| ensures Less(key(x), key(xs[i])) {
            LessIsTransitive(key(x), key(xs[0]), key(xs[i]));
          }
        }
      }
      [x] + xs
    else
      assert xs[0] in xs && forall y :: y in xs <==> y == xs[0] || y in xs[1..];
      var rest := Insert(x, xs[1..], key);
      assert Ascending(xs, key) && (forall y :: y in xs ==> key(y) != key(x)) ==> Ascending([xs[0]] + rest, key) by {
        if Ascending(xs, key) && (forall y :: y in xs ==> key(y) != key(x)) {
          LessIsTotal(key(x), key(xs[0]));
          forall j | 0 <= j < |rest| ensures Less(key(xs[0]), key(rest[j])) {
            assert rest[j] in rest;
            if rest[j] != x {
              var i :| 0 <= i < |xs[1..]| && xs[1..][i] == rest[j];
              assert xs[i + 1] == rest[j];
            }
          }
        }
      }
      [xs[0]] + rest
  }

  /** Insertion sort by key. */
  function Sorted<T(!new)>(xs: seq<T>, key: T -> string): (r: seq<T>)
    ensures forall y :: y in r <==> y in xs
    ensures |r| == |xs|
    ensures (forall i, j :: 0 <= i < j < |xs| ==> key(xs[i]) != key(xs[j])) ==> Ascending(r, key)
  {
    if xs == [] then []
    else
      assert forall y :: y in xs <==> y == xs[0] || y in xs[1..];
      assert forall i, j :: 0 <= i < j < |xs[1..]| ==> xs[1..][i] == xs[i + 1] && xs[1..][j] == xs[j + 1];
      Insert(xs[0], Sorted(xs[1..], key), key)
  }

  /** The elements that `keep` accepts, in order. */
  function Filter<T(!new)>(xs: seq<T>, keep: T -> bool): (r: seq<T>)
    ensures forall x :: x in r <==> x in xs && keep(x)
    ensures |r| <= |xs|
  {
    if xs == [] then []
    else
      assert forall x :: x in xs <==> x == xs[0] || x in xs[1..];
      (if keep(xs[0]) then [xs[0]] else []) + Filter(xs[1..], keep)
  }

  lemma {:induction false} FilterKeepsOrder<T(!new)>(xs: seq<T>, keep: T -> bool, key: T -> string)
    requires Ascending(xs, key)
    ensures Ascending(Filter(xs, keep), key)
  {
    if xs != [] {
      assert Ascending(xs[1..], key);
      FilterKeepsOrder(xs[1..], keep, key);
      var rest := Filter(xs[1..], keep);
      forall j | 0 <= j < |rest| ensures Less(key(xs[0]), key(rest[j])) {
        assert rest[j] in xs[1..];
        var i :| 0 <= i < |xs| - 1 && xs[1..][i] == rest[j];
        assert Less(key(xs[0]), key(xs[i + 1]));
      }
    }
  }

  ghost function Kept<T(!new)>(s: set<T>, keep: T -> bool): set<T> {
    set x | x in s && keep(x)
  }

  /** Filtering the listing of a set lists the filtered set. */
  lemma FilterOfListing<T(!new)>(s: set<T>, keep: T -> bool, key: T -> string)
    requires DistinctKeys(s, key)
    ensures Filter(Listing(s, key), keep) == Listing(Kept(s, keep), key)
  {
    var kept := Kept(s, keep);
    FilterKeepsOrder(Listing(s, key), keep, key);
    ListingIsUnique(Filter(Listing(s, key), keep), Listing(kept, key), kept, key);
  }

  /** Some enumeration of a finite set. */
  lemma {:induction false} Enumeration<T>(s: set<T>) returns (xs: seq<T>)
    ensures forall x :: x in xs <==> x in s
    ensures forall i, j :: 0 <= i < j < |xs| ==> xs[i] != xs[j]
    decreases s
  {
    if s == {} {
      xs := [];
    } else {
      var x :| x in s;
      var rest := Enumeration(s - {x});
      xs := [x] + rest;
      assert forall j :: 1 <= j < |xs| ==> xs[j] == rest[j - 1] && rest[j - 1] in rest;
    }
  }

  lemma ListingExists<T(!new)>(s: set<T>, key: T -> string)
    requires DistinctKeys(s, key)
    ensures exists xs :: Lists(xs, s, key)
  {
    var xs := Enumeration(s);
    forall i, j | 0 <= i < j < |xs| ensures key(xs[i]) != key(xs[j]) {
      assert xs[i] in xs && xs[j] in xs;
    }
    assert Lists(Sorted(xs, key), s, key);
  }

  /** The sorted list of a set: by `ListingIsUnique` there is only one. */
  ghost function Listing<T(!new)>(s: set<T>, key: T -> string): (xs: seq<T>)
    requires DistinctKeys(s, key)
    ensures Lists(xs, s, key) && |xs| == |s|
  {
    ListingExists(s, key);
    var xs :| Lists(xs, s, key);
    ListingHasSizeOf(xs, s, key);
    xs
  }

  /** Sorting any enumeration of a set gives its listing. */
  lemma {:induction false} SortedIsListing<T(!new)>(xs: seq<T>, s: set<T>, key: T -> string)
    requires DistinctKeys(s, key)
    requires forall x :: x in xs <==> x in s
    requires forall i, j :: 0 <= i < j < |xs| ==> key(xs[i]) != key(xs[j])
    ensures Sorted(xs, key) == Listing(s, key)
    ensures |xs| == |s|
  {
    ListingIsUnique(Sorted(xs, key), Listing(s, key), s, key);
  }

  // Strings sort by themselves.

  function Itself(s: string): string { s }

  /** `sorted` of a set of strings. */
  method SortedStrings(s: set<string>) returns (xs: seq<string>)
    ensures xs == Listing(s, Itself)
  {
    xs := [];
    var done := {};
    while s - done != {}
      invariant done <= s
      invariant forall x :: x in xs <==> x in done
      invariant forall i, j :: 0 <= i < j < |xs| ==> xs[i] != xs[j]
      decreases s - done
    {
      var x :| x in s - done;
      assert forall i :: 0 <= i < |xs| ==> xs[i] in done;
      done := done + {x};
      xs := xs + [x];
    }
    assert s == done + (s - done) == done;
    SortedIsListing(xs, s, Itself);
    xs := Sorted(xs, Itself);
  }
}
