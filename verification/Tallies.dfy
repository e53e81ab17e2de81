/** Changes between two signatures, sorted reports of them, and tallies kept path by path. */
module Tallies {
  import opened Text
  import opened Sorting

  datatype Change =
    | Removed(path: string, token: string)
    | Changed(path: string, fromToken: string, toToken: string)
    | Added(path: string, token: string)

  datatype Diff = Diff(changes: seq<Change>, total: nat, unreachable: nat, nullable: nat, optionalAbsent: nat)

  /** Removals first, then changes, then additions; by path within each. */
  function SortKey(c: Change): string {
    match c
    case Removed(path, _) => "0" + path
    case Changed(path, _, _) => "1" + path
    case Added(path, _) => "2" + path
  }

  function Swap(c: Change): Change {
    match c
    case Removed(path, token) => Added(path, token)
    case Added(path, token) => Removed(path, token)
    case Changed(path, a, b) => Changed(path, b, a)
  }

  /** How a report is ordered: removals, then changes, then additions, each by path. */
  predicate ComesBefore(c: Change, d: Change) {
    (c.Removed? && !d.Removed?) || (c.Changed? && d.Added?) ||
    (c.Removed? == d.Removed? && c.Changed? == d.Changed? && Less(c.path, d.path))
  }

  lemma SortKeyOrders(c: Change, d: Change)
    ensures Less(SortKey(c), SortKey(d)) <==> ComesBefore(c, d)
  {
    assert SortKey(c)[1..] == c.path && SortKey(d)[1..] == d.path;
  }

  ghost predicate OnePerPath(changes: set<Change>) {
    forall c, d :: c in changes && d in changes && c.path == d.path ==> c == d
  }

  lemma OnePerPathSorts(changes: set<Change>)
    requires OnePerPath(changes)
    ensures DistinctKeys(changes, SortKey)
  {
    forall c, d | c in changes && d in changes && SortKey(c) == SortKey(d) ensures c == d {
      assert SortKey(c)[1..] == c.path && SortKey(d)[1..] == d.path;
    }
  }

  /** The changes in sorted order, how many there are, and the three excuse counts. */
  ghost function Report(changes: set<Change>, unreachable: nat, nullable: nat, optionalAbsent: nat): Diff
    requires OnePerPath(changes)
  {
    OnePerPathSorts(changes);
    Diff(Listing(changes, SortKey), |changes|, unreachable, nullable, optionalAbsent)
  }

  /** A report lists removals before changes and changes before additions, each by path, and its
      total is how many there are. */
  lemma {:induction false} ReportIsOrdered(changes: set<Change>, u: nat, n: nat, o: nat)
    requires OnePerPath(changes)
    ensures var report := Report(changes, u, n, o);
      && (forall i, j :: 0 <= i < j < |report.changes| ==> ComesBefore(report.changes[i], report.changes[j]))
      && (forall c :: c in report.changes <==> c in changes) && report.total == |report.changes|
  {
    OnePerPathSorts(changes);
    var list := Listing(changes, SortKey);
    hide Listing, SortKey, ComesBefore;
    forall i, j | 0 <= i < j < |list| ensures ComesBefore(list[i], list[j]) {
      SortKeyOrders(list[i], list[j]);
    }
  }

  /** The list holds each change of the set once, and no two on one path. */
  ghost predicate HoldsOnce(list: seq<Change>, changes: set<Change>) {
    && (forall c :: c in list <==> c in changes)
    && (forall i, j :: 0 <= i < j < |list| ==> list[i].path != list[j].path)
  }

  lemma AppendOnce(list: seq<Change>, changes: set<Change>, c: Change)
    requires HoldsOnce(list, changes)
    requires forall d :: d in changes ==> d.path != c.path
    ensures HoldsOnce(list + [c], changes + {c})
  {
    assert forall i :: 0 <= i < |list| ==> list[i] in changes;
  }

  /** A list that holds each change of a set once sorts to that set's report. */
  lemma ReportOf(list: seq<Change>, changes: set<Change>, u: nat, n: nat, o: nat)
    requires OnePerPath(changes) && HoldsOnce(list, changes)
    ensures Diff(Sorted(list, SortKey), |list|, u, n, o) == Report(changes, u, n, o)
  {
    OnePerPathSorts(changes);
    forall i, j | 0 <= i < j < |list| ensures SortKey(list[i]) != SortKey(list[j]) {
      assert SortKey(list[i])[1..] == list[i].path && SortKey(list[j])[1..] == list[j].path;
    }
    SortedIsListing(list, changes, SortKey);
  }

  // A walk over paths that gives each a verdict: some are reported, some only counted.

  ghost function Where<V>(among: set<string>, verdict: string -> V, wanted: V): set<string> {
    set p | p in among && verdict(p) == wanted
  }

  ghost function ChangesWhere<V>(among: set<string>, verdict: string -> V, wanted: V,
                                 change: string -> Change): set<Change>
  {
    set p | p in Where(among, verdict, wanted) :: change(p)
  }

  ghost predicate OnItsPath(change: string -> Change) {
    forall p :: change(p).path == p
  }

  lemma WhereOneMore<V>(among: set<string>, verdict: string -> V, wanted: V, path: string)
    requires path !in among
    ensures Where(among + {path}, verdict, wanted) ==
            Where(among, verdict, wanted) + (if verdict(path) == wanted then {path} else {})
    ensures |Where(among + {path}, verdict, wanted)| ==
            |Where(among, verdict, wanted)| + if verdict(path) == wanted then 1 else 0
  {
    assert Where(among + {path}, verdict, wanted) ==
           Where(among, verdict, wanted) + (if verdict(path) == wanted then {path} else {});
  }

  lemma ChangesOneMore<V>(among: set<string>, verdict: string -> V, wanted: V, change: string -> Change, path: string)
    requires path !in among
    ensures ChangesWhere(among + {path}, verdict, wanted, change) ==
            ChangesWhere(among, verdict, wanted, change) + (if verdict(path) == wanted then {change(path)} else {})
  {
    WhereOneMore(among, verdict, wanted, path);
  }

  lemma AppendVerdict<V>(list: seq<Change>, among: set<string>, verdict: string -> V, wanted: V,
                         change: string -> Change, path: string)
    requires OnItsPath(change) && path !in among
    requires HoldsOnce(list, ChangesWhere(among, verdict, wanted, change))
    ensures HoldsOnce(if verdict(path) == wanted then list + [change(path)] else list,
                      ChangesWhere(among + {path}, verdict, wanted, change))
  {
    ChangesOneMore(among, verdict, wanted, change, path);
    if verdict(path) == wanted {
      AppendOnce(list, ChangesWhere(among, verdict, wanted, change), change(path));
    }
  }

  lemma HoldsBoth(xs: seq<Change>, ys: seq<Change>, a: set<Change>, b: set<Change>)
    requires HoldsOnce(xs, a) && HoldsOnce(ys, b)
    requires forall c, d :: c in a && d in b ==> c.path != d.path
    ensures HoldsOnce(xs + ys, a + b)
  {
    forall i, j | 0 <= i < j < |xs + ys| ensures (xs + ys)[i].path != (xs + ys)[j].path {
      if i < |xs| <= j {
        assert (xs + ys)[i] in a && (xs + ys)[j] in b;
      }
    }
  }

  lemma {:induction false} AsManyChangesAsPaths(changes: set<Change>, paths: set<string>)
    requires OnePerPath(changes)
    requires forall c :: c in changes ==> c.path in paths
    requires forall p :: p in paths ==> exists c :: c in changes && c.path == p
    ensures |changes| == |paths|
  {
    if c :| c in changes {
      AsManyChangesAsPaths(changes - {c}, paths - {c.path});
    } else {
      assert paths == {};
    }
  }

  lemma CountChangesWhere<V>(among: set<string>, verdict: string -> V, wanted: V, change: string -> Change)
    requires OnItsPath(change)
    ensures OnePerPath(ChangesWhere(among, verdict, wanted, change))
    ensures |ChangesWhere(among, verdict, wanted, change)| == |Where(among, verdict, wanted)|
  {
    var changes := ChangesWhere(among, verdict, wanted, change);
    forall p | p in Where(among, verdict, wanted) ensures exists c :: c in changes && c.path == p {
      assert change(p) in changes;
    }
    AsManyChangesAsPaths(changes, Where(among, verdict, wanted));
  }
}
