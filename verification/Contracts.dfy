/** What contract and coverage checks on a signature say about the response itself. */
module Contracts {
  import opened Text
  import opened Sorting
  import opened Paths
  import opened Json
  import opened Signatures
  import opened Tallies
  import opened Diffs
  import opened Reachability

  // The contract, node by node.

  /** Every node of `v` that sits at a predicted path has a token the contract permits. */
  ghost predicate Conforms(v: Json, path: string, expected: Signature)
    decreases v
  {
    (path != "" && path in expected ==> Permits(expected[path], TokenFor(v))) &&
    match v
    case Array(items) => forall c :: c in items ==> Conforms(c, path + "[]", expected)
    case Object(fields) => forall f :: f in fields ==> Conforms(f.value, Extend(path, Key(f.key)), expected)
    case _ => true
  }

  predicate Allowed(s: Sighting, expected: Signature) {
    s.path in expected ==> Permits(expected[s.path], s.token)
  }

  lemma {:induction false} ConformsIffSightingsAllowed(v: Json, path: string, expected: Signature)
    ensures Conforms(v, path, expected) <==> forall s :: s in Sightings(v, path) ==> Allowed(s, expected)
    decreases v
  {
    hide Permits;
    SightingsByKind(v, path);
    match v
    case Array(items) =>
      forall c | c in items
        ensures Conforms(c, path + "[]", expected) <==>
          forall s :: s in Sightings(c, path + "[]") ==> Allowed(s, expected)
      {
        ConformsIffSightingsAllowed(c, path + "[]", expected);
      }
    case Object(fields) =>
      forall f | f in fields
        ensures Conforms(f.value, Extend(path, Key(f.key)), expected) <==>
          forall s :: s in Sightings(f.value, Extend(path, Key(f.key))) ==> Allowed(s, expected)
      {
        ConformsIffSightingsAllowed(f.value, Extend(path, Key(f.key)), expected);
      }
    case _ =>
  }

  /** The wildcard `string` stands for exactly the values that are strings, whatever their form;
      any other token stands for itself alone. */
  lemma WildcardMeansString(allowed: set<string>, v: Json)
    requires allowed != {} && forall t :: t in allowed ==> '|' !in t
    ensures Permits(JoinTokens(allowed), TokenFor(v)) <==>
      TokenFor(v) in allowed || ("string" in allowed && v.String?)
  {
    JoinTokensRoundTrip(allowed);
    assert forall t :: t in Split(JoinTokens(allowed), '|') <==> t in allowed;
    hide JoinTokens;
    StringTokensAreOfStrings(v);
  }

  lemma StringTokensAreOfStrings(v: Json)
    ensures IsStringToken(TokenFor(v)) <==> v.String?
  {
    match v
    case String(form) =>
      if form.Digits? {
        assert "digits:" <= FormToken(form);
      }
    case _ =>
      assert TokenFor(v)[0] != 'd';
  }

  /** The observed tokens at a path that the contract does not permit. */
  ghost function OffendersAt(v: Json, expected: Signature, path: string): set<string> {
    set t | t in TokensOn(Sightings(v, ""), path) && path in expected && !Permits(expected[path], t)
  }

  lemma OffendingTokens(v: Json, expected: Signature, path: string)
    requires path in SignatureOf(v) && path in expected
    ensures Offending(expected[path], SignatureOf(v)[path]) == Listing(OffendersAt(v, expected, path), Itself)
  {
    hide Sightings, SignatureOf, TokensOn, JoinTokens, Permits, Offending;
    var tokens := TokensOn(Sightings(v, ""), path);
    SignatureTokens(v, path);
    forall t | t in tokens ensures '|' !in t {
      TokensArePipeFree(v, path, t);
    }
    OffendersInJoin(tokens, expected[path]);
    assert OffendersAt(v, expected, path) == Kept(tokens, Refuses(expected[path]));
  }

  /** Splitting, filtering and joining a stored token works on its token set. */
  lemma OffendersInJoin(tokens: set<string>, allowed: string)
    requires tokens != {} && forall t :: t in tokens ==> '|' !in t
    ensures Offending(allowed, JoinTokens(tokens)) == Listing(Kept(tokens, Refuses(allowed)), Itself)
  {
    hide JoinTokens, Lists, Refuses, Kept;
    JoinTokensRoundTrip(tokens);
    FilterOfListing(tokens, Refuses(allowed), Itself);
  }

  /** The check reports a path exactly when some node there has a token the contract does
      not permit, and it names all of those tokens and no others. */
  lemma {:induction false} ViolationsNameTheOffenders(v: Json, expected: Signature, c: Change)
    ensures c in ContractDiff(expected, SignatureOf(v)).changes <==>
      c.path in expected && OffendersAt(v, expected, c.path) != {} &&
      c == Changed(c.path, expected[c.path], JoinTokens(OffendersAt(v, expected, c.path)))
  {
    var observed := SignatureOf(v);
    ViolationsListed(expected, observed, c);
    SignatureTokens(v, c.path);
    assert OffendersAt(v, expected, c.path) != {} ==> c.path in observed;
    hide SignatureOf, ContractDiff, OffendersAt, Offending, TokensOn, Sightings, Lists;
    if c.path in expected && c.path in observed {
      OffendingTokens(v, expected, c.path);
      if OffendersAt(v, expected, c.path) != {} {
        assert Listing(OffendersAt(v, expected, c.path), Itself) != [];
      }
    }
  }

  lemma ViolationsListed(expected: Signature, observed: Signature, c: Change)
    ensures c in ContractDiff(expected, observed).changes <==>
      c.path in observed && Violates(expected, observed)(c.path) && c == ViolationOn(expected, observed)(c.path)
    ensures ContractDiff(expected, observed).total == 0 <==>
      forall p :: p in observed ==> !Violates(expected, observed)(p)
  {
    hide Violates;
    var changes := ChangesWhere(observed.Keys, Violates(expected, observed), true, ViolationOn(expected, observed));
    CountChangesWhere(observed.Keys, Violates(expected, observed), true, ViolationOn(expected, observed));
    OnePerPathSorts(changes);
    assert c.path in Where(observed.Keys, Violates(expected, observed), true) ==>
      ViolationOn(expected, observed)(c.path) in changes;
    var violating := Where(observed.Keys, Violates(expected, observed), true);
    assert forall p :: p in violating <==> p in observed && Violates(expected, observed)(p);
    if forall p :: p in observed ==> !Violates(expected, observed)(p) {
      assert violating == {};
    }
  }

  /** Checking the folded signature is checking every node. No condition on the keys. */
  lemma ContractCheckIsNodeByNode(v: Json, expected: Signature)
    ensures ContractDiff(expected, SignatureOf(v)).total == 0 <==> Conforms(v, "", expected)
    ensures var diff := ContractDiff(expected, SignatureOf(v));
      diff.unreachable == 0 && diff.nullable == 0 && diff.optionalAbsent == 0
  {
    ConformsIffSightingsAllowed(v, "", expected);
    ViolationsListed(expected, SignatureOf(v), Added("", ""));
    NothingExcusedByContract(expected, SignatureOf(v));
    hide Conforms, Permits, SignatureOf, ContractDiff;
    forall p
      ensures (p in SignatureOf(v) && Violates(expected, SignatureOf(v))(p)) <==> OffendersAt(v, expected, p) != {}
    {
      ViolatesIffOffenders(v, expected, p);
    }
    forall s | s in Sightings(v, "") ensures Allowed(s, expected) <==> s.token !in OffendersAt(v, expected, s.path) {
      assert s.token in TokensOn(Sightings(v, ""), s.path);
    }
    forall p, t | t in OffendersAt(v, expected, p)
      ensures Sighting(p, t) in Sightings(v, "") && !Allowed(Sighting(p, t), expected)
    {
    }
  }

  lemma NothingExcusedByContract(expected: Signature, observed: Signature)
    ensures var diff := ContractDiff(expected, observed);
      diff.unreachable == 0 && diff.nullable == 0 && diff.optionalAbsent == 0
  {
  }

  lemma ViolatesIffOffenders(v: Json, expected: Signature, p: string)
    ensures (p in SignatureOf(v) && Violates(expected, SignatureOf(v))(p)) <==> OffendersAt(v, expected, p) != {}
  {
    SignatureTokens(v, p);
    if p in SignatureOf(v) && p in expected {
      OffendingTokens(v, expected, p);
    }
  }

  // Coverage: root causes.

  ghost predicate RootCause(expected: Signature, observed: Signature, path: string, root: string) {
    (root == path || root in Ancestors(path)) && ShallowestAbsent(expected, observed, root)
  }

  lemma {:induction false} RootExists(expected: Signature, observed: Signature, path: string) returns (root: string)
    requires path in Absent(expected, observed)
    ensures RootCause(expected, observed, path, root)
    decreases |path|
  {
    if ShallowestAbsent(expected, observed, path) {
      root := path;
    } else {
      var outer :| outer in Ancestors(path) && outer in expected && outer !in observed;
      AncestorsAreShorter(path, outer);
      root := RootExists(expected, observed, outer);
      if root != outer {
        AncestorsAreTransitive(path, outer, root);
      }
    }
  }

  lemma RootIsUnique(expected: Signature, observed: Signature, path: string, a: string, b: string)
    requires RootCause(expected, observed, path, a) && RootCause(expected, observed, path, b)
    ensures a == b
  {
    if a != path && b != path {
      AncestorsFormAChain(path, a, b);
    }
  }

  /** A predicted path that did not arrive had nowhere to, or has exactly one root cause: the
      shallowest absent path at or above it, which is itself reported as removed or, when the
      policy does not demand it, counted as optional. */
  lemma EveryAbsenceHasOneRoot(expected: Signature, observed: Signature, required: Requirement, path: string)
    requires path in Absent(expected, observed)
    ensures Unreachable(path, observed) ||
      exists root :: RootCause(expected, observed, path, root) && Settled(expected, observed, required, root)
    ensures forall a, b :: RootCause(expected, observed, path, a) && RootCause(expected, observed, path, b) ==> a == b
  {
    if !Unreachable(path, observed) {
      var root := RootExists(expected, observed, path);
      if root != path && Unreachable(root, observed) {
        UnreachabilityPassesDown(path, root, observed);
      }
      RootIsSettled(expected, observed, required, root);
    }
    forall a, b | RootCause(expected, observed, path, a) && RootCause(expected, observed, path, b) ensures a == b {
      RootIsUnique(expected, observed, path, a, b);
    }
  }

  /** Reported as removed, or excused as optional, by what the policy demands. */
  ghost predicate Settled(expected: Signature, observed: Signature, required: Requirement, root: string) {
    root in Absent(expected, observed) &&
    if Demanded(required, root)
    then Removed(root, expected[root]) in CoverageDiff(expected, observed, required).changes
    else root in Where(Absent(expected, observed), AbsenceOf(expected, observed, required), Optional)
  }

  lemma RootIsSettled(expected: Signature, observed: Signature, required: Requirement, root: string)
    requires ShallowestAbsent(expected, observed, root) && !Unreachable(root, observed)
    ensures Settled(expected, observed, required, root)
  {
    CoverageListed(expected, observed, required, Removed(root, expected[root]));
    hide CoverageDiff, Unreachable;
  }

  /** What the coverage report lists, exactly. */
  lemma CoverageListed(expected: Signature, observed: Signature, required: Requirement, c: Change)
    ensures c in CoverageDiff(expected, observed, required).changes <==>
      (c.Added? && c.path in observed && c.path !in expected && c.token == observed[c.path]) ||
      (c.Removed? && ShallowestAbsent(expected, observed, c.path) && !Unreachable(c.path, observed) &&
       Demanded(required, c.path) && c.token == expected[c.path])
  {
    var absent, absence := Absent(expected, observed), AbsenceOf(expected, observed, required);
    CoverageMembers(expected, observed, required, c);
    ChangesWhereHolds(absent, absence, Missing, RemovalOf(expected), c);
    MissingIs(expected, observed, required, c.path);
    hide CoverageDiff, ChangesWhere, AbsenceOf, ShallowestAbsent, Unreachable, Demanded;
  }

  lemma CoverageMembers(expected: Signature, observed: Signature, required: Requirement, c: Change)
    ensures c in CoverageDiff(expected, observed, required).changes <==>
      (c.Added? && c.path in observed && c.path !in expected && c.token == observed[c.path]) ||
      var absent, absence := Absent(expected, observed), AbsenceOf(expected, observed, required);
      c in ChangesWhere(absent, absence, Missing, RemovalOf(expected))
  {
    hide AbsenceOf, RemovalOf, ChangesWhere, OnePerPath;
    var removals :=
      ChangesWhere(Absent(expected, observed), AbsenceOf(expected, observed, required), Missing, RemovalOf(expected));
    CoverageOnePerPath(expected, observed, required);
    OnePerPathSorts(Unpredicted(expected, observed) + removals);
    if c.path in observed && c.path !in expected {
      assert Added(c.path, observed[c.path]) in Unpredicted(expected, observed);
    }
  }

  lemma ChangesWhereHolds<V(!new)>(among: set<string>, verdict: string -> V, wanted: V, change: string -> Change,
                                   c: Change)
    requires OnItsPath(change)
    ensures c in ChangesWhere(among, verdict, wanted, change) <==>
      c.path in among && verdict(c.path) == wanted && c == change(c.path)
  {
    if c.path in among && verdict(c.path) == wanted {
      assert c.path in Where(among, verdict, wanted);
      assert change(c.path) in ChangesWhere(among, verdict, wanted, change);
    }
  }

  lemma MissingIs(expected: Signature, observed: Signature, required: Requirement, path: string)
    ensures AbsenceOf(expected, observed, required)(path) == Missing <==>
      !Unreachable(path, observed) && ShallowestAbsent(expected, observed, path) && Demanded(required, path)
    ensures ShallowestAbsent(expected, observed, path) ==> path in Absent(expected, observed)
  {
    hide Unreachable, Demanded;
  }

  /** The roots a policy does not demand are counted: none without a policy, and with one those
      it does not name. */
  lemma {:induction false} OptionalAreCounted(expected: Signature, observed: Signature, paths: set<string>)
    ensures CoverageDiff(expected, observed, Everything).optionalAbsent == 0
    ensures CoverageDiff(expected, observed, Only(paths)).optionalAbsent == |Roots(expected, observed) - paths|
  {
    hide Unreachable, ShallowestAbsent;
    var absent := Absent(expected, observed);
    forall p ensures p in Where(absent, AbsenceOf(expected, observed, Only(paths)), Optional) <==>
      p in Roots(expected, observed) - paths
    {
    }
    assert Where(absent, AbsenceOf(expected, observed, Everything), Optional) == {};
    assert Where(absent, AbsenceOf(expected, observed, Only(paths)), Optional) == Roots(expected, observed) - paths;
  }

  /** What a policy does: without one every root cause is reported; with one exactly the roots it
      names are. */
  lemma {:induction false} PolicyDecides(expected: Signature, observed: Signature, paths: set<string>, path: string)
    requires path in Roots(expected, observed)
    ensures Removed(path, expected[path]) in CoverageDiff(expected, observed, Everything).changes
    ensures Removed(path, expected[path]) in CoverageDiff(expected, observed, Only(paths)).changes <==> path in paths
  {
    CoverageListed(expected, observed, Everything, Removed(path, expected[path]));
    CoverageListed(expected, observed, Only(paths), Removed(path, expected[path]));
    hide CoverageDiff, Unreachable, ShallowestAbsent;
  }

  /** The count of paths that had nowhere to arrive. */
  lemma {:induction false} UnreachableAreCounted(expected: Signature, observed: Signature, required: Requirement)
    ensures CoverageDiff(expected, observed, required).unreachable ==
      |set path | path in expected && path !in observed && Unreachable(path, observed)|
    ensures CoverageDiff(expected, observed, required).nullable == 0
  {
    hide Unreachable, ShallowestAbsent, Demanded;
    assert Where(Absent(expected, observed), AbsenceOf(expected, observed, required), NowhereToArrive) ==
      set path | path in expected && path !in observed && Unreachable(path, observed);
  }

  /** No reported removal lies above another. */
  lemma {:induction false} RemovalsDoNotNest(expected: Signature, observed: Signature, required: Requirement,
                                             c: Change, d: Change)
    requires c in CoverageDiff(expected, observed, required).changes && c.Removed?
    requires d in CoverageDiff(expected, observed, required).changes && d.Removed?
    ensures c.path !in Ancestors(d.path)
  {
    CoverageListed(expected, observed, required, c);
    CoverageListed(expected, observed, required, d);
  }

  ghost function Roots(expected: Signature, observed: Signature): set<string> {
    set p | p in Absent(expected, observed) && ShallowestAbsent(expected, observed, p) && !Unreachable(p, observed)
  }

  /** Removals and optional absences together are the root causes, additions the unpredicted
      paths; the policy only moves roots between the first two. */
  lemma {:induction false} RootsAreCounted(expected: Signature, observed: Signature, required: Requirement)
    ensures var diff := CoverageDiff(expected, observed, required);
      diff.total + diff.optionalAbsent == |Roots(expected, observed)| + |observed.Keys - expected.Keys|
  {
    var absent, absence := Absent(expected, observed), AbsenceOf(expected, observed, required);
    var missing, optional := Where(absent, absence, Missing), Where(absent, absence, Optional);
    assert Roots(expected, observed) == missing + optional && missing !! optional;
    hide AbsenceOf, Roots, Unreachable;
    var added, removed := Unpredicted(expected, observed), ChangesWhere(absent, absence, Missing, RemovalOf(expected));
    CoverageOnePerPath(expected, observed, required);
    CountChangesWhere(absent, absence, Missing, RemovalOf(expected));
    forall p | p in observed.Keys - expected.Keys ensures exists c :: c in added && c.path == p {
      assert Added(p, observed[p]) in added;
    }
    AsManyChangesAsPaths(added, observed.Keys - expected.Keys);
    assert added !! removed;
    assert |added + removed| == |added| + |removed|;
  }
}
