/** Schema and type differences together are a patch. */
module Patches {
  import opened Signatures
  import opened Tallies
  import opened Diffs

  ghost function Patch(baseline: Signature, current: Signature): set<Change> {
    SchemaChanges(baseline, current) + TypeChanges(baseline, current)
  }

  function Apply(signature: Signature, change: Change): Signature {
    match change
    case Removed(path, _) => signature - {path}
    case Changed(path, _, token) => signature[path := token]
    case Added(path, token) => signature[path := token]
  }

  function ApplyAll(signature: Signature, changes: seq<Change>): Signature
    decreases |changes|
  {
    if changes == [] then signature else ApplyAll(Apply(signature, changes[0]), changes[1..])
  }

  ghost predicate Agree(a: Signature, b: Signature, path: string) {
    (path in a <==> path in b) && (path in a ==> a[path] == b[path])
  }

  /** One change brings its own path to where `current` has it and touches no other. */
  lemma ApplyOne(baseline: Signature, current: Signature, m: Signature, c: Change, path: string)
    requires c in Patch(baseline, current)
    ensures Agree(Apply(m, c), if path == c.path then current else m, path)
  {
  }

  lemma {:induction false} ApplyReaches(baseline: Signature, current: Signature, m: Signature, changes: seq<Change>,
                                        path: string)
    requires forall c :: c in changes ==> c in Patch(baseline, current)
    ensures Agree(ApplyAll(m, changes), if exists c :: c in changes && c.path == path then current else m, path)
    decreases |changes|
  {
    if changes != [] {
      ApplyOne(baseline, current, m, changes[0], path);
      ApplyReaches(baseline, current, Apply(m, changes[0]), changes[1..], path);
      assert forall c :: c in changes <==> c == changes[0] || c in changes[1..];
    }
  }

  /** Applied to the baseline in any order, the changes the two differs list yield exactly
      the current signature. */
  lemma PatchYieldsCurrent(baseline: Signature, current: Signature, changes: seq<Change>)
    requires forall c :: c in changes <==>
      c in SchemaDiff(baseline, current).changes || c in TypeDiff(baseline, current).changes
    ensures ApplyAll(baseline, changes) == current
  {
    ListedChanges(baseline, current);
    forall path ensures Agree(ApplyAll(baseline, changes), current, path) {
      ApplyReaches(baseline, current, baseline, changes, path);
      TouchedExactlyWhereDifferent(baseline, current, path);
    }
    AgreeEverywhere(ApplyAll(baseline, changes), current);
  }

  lemma AgreeEverywhere(a: Signature, b: Signature)
    requires forall path :: Agree(a, b, path)
    ensures a == b
  {
    forall path ensures (path in a <==> path in b) && (path in a ==> a[path] == b[path]) {
      assert Agree(a, b, path);
    }
    assert a.Keys == b.Keys;
  }

  lemma ListedChanges(baseline: Signature, current: Signature)
    ensures forall c :: c in SchemaDiff(baseline, current).changes <==> c in SchemaChanges(baseline, current)
    ensures forall c :: c in TypeDiff(baseline, current).changes <==> c in TypeChanges(baseline, current)
  {
    OnePerPathSorts(SchemaChanges(baseline, current));
    OnePerPathSorts(TypeChanges(baseline, current));
  }

  /** A path has a change, of one differ or the other, exactly when the signatures disagree
      on it. */
  lemma TouchedExactlyWhereDifferent(baseline: Signature, current: Signature, path: string)
    ensures (exists c :: c in Patch(baseline, current) && c.path == path) <==> !Agree(baseline, current, path)
  {
    if path in baseline && path !in current {
      assert Removed(path, baseline[path]) in Patch(baseline, current);
    } else if path !in baseline && path in current {
      assert Added(path, current[path]) in Patch(baseline, current);
    } else if path in baseline && path in current && current[path] != baseline[path] {
      assert Changed(path, baseline[path], current[path]) in Patch(baseline, current);
    }
  }

  predicate NothingExcused(diff: Diff) {
    diff.unreachable == 0 && diff.nullable == 0 && diff.optionalAbsent == 0
  }

  /** No path is reported twice across the two differs, and both are empty exactly when the
      signatures are equal; neither excuses anything. */
  lemma DiffsSplitTheDifferences(baseline: Signature, current: Signature)
    ensures forall c, d ::
      (c in SchemaDiff(baseline, current).changes || c in TypeDiff(baseline, current).changes) &&
      (d in SchemaDiff(baseline, current).changes || d in TypeDiff(baseline, current).changes) ==>
      (c.path == d.path ==> c == d)
    ensures SchemaDiff(baseline, current).total == 0 && TypeDiff(baseline, current).total == 0 <==> baseline == current
    ensures NothingExcused(SchemaDiff(baseline, current)) && NothingExcused(TypeDiff(baseline, current))
  {
    ListedChanges(baseline, current);
    if SchemaChanges(baseline, current) == {} && TypeChanges(baseline, current) == {} {
      forall path ensures Agree(baseline, current, path) {
        TouchedExactlyWhereDifferent(baseline, current, path);
      }
      AgreeEverywhere(baseline, current);
    }
  }

  // The other way round.

  function SwapAll(changes: seq<Change>): seq<Change> {
    seq(|changes|, i requires 0 <= i < |changes| => Swap(changes[i]))
  }

  lemma SwappedPatch(baseline: Signature, current: Signature, c: Change)
    ensures c in Patch(baseline, current) <==> Swap(c) in Patch(current, baseline)
  {
  }

  /** Every change says what it replaces: swapped, the changes take the current signature back to
      the baseline. */
  lemma {:induction false} PatchReverses(baseline: Signature, current: Signature, changes: seq<Change>)
    requires forall c :: c in changes <==>
      c in SchemaDiff(baseline, current).changes || c in TypeDiff(baseline, current).changes
    ensures ApplyAll(current, SwapAll(changes)) == baseline
  {
    ListedChanges(baseline, current);
    ListedChanges(current, baseline);
    hide SchemaDiff, TypeDiff, SchemaChanges, TypeChanges, ApplyAll;
    forall d ensures d in SwapAll(changes) <==> d in Patch(current, baseline) {
      SwappedPatch(baseline, current, Swap(d));
      assert Swap(Swap(d)) == d;
      if d in SwapAll(changes) {
        var i :| 0 <= i < |changes| && SwapAll(changes)[i] == d;
        assert changes[i] == Swap(d);
      }
      if Swap(d) in changes {
        var i :| 0 <= i < |changes| && changes[i] == Swap(d);
        assert SwapAll(changes)[i] == d;
      }
    }
    assert forall d :: d in Patch(current, baseline) <==>
      d in SchemaChanges(current, baseline) || d in TypeChanges(current, baseline);
    PatchYieldsCurrent(current, baseline, SwapAll(changes));
  }
}
