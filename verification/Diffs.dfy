/** The four comparisons of signatures: what each reports, what each excuses, and the loops
    that compute them. */
module Diffs {
  import opened Text
  import opened Sorting
  import opened Paths
  import opened Signatures
  import opened Tallies

  // Reachability.

  /** `outer` arrived in a form with no room below it: only null, or an empty array. */
  predicate Closes(outer: string, observed: Signature) {
    outer in observed &&
    var tokens := Split(observed[outer], '|');
    (forall one :: one in tokens ==> one == "null") || ("array" in tokens && outer + "[]" !in observed)
  }

  predicate Unreachable(path: string, observed: Signature) {
    exists outer :: outer in Ancestors(path) && Closes(outer, observed)
  }

  /** `_unreachable_in` */
  method UnreachableIn(path: string, observed: Signature) returns (unreachable: bool)
    ensures unreachable == Unreachable(path, observed)
  {
    var ancestors := AncestorsOf(path);
    for i := 0 to |ancestors|
      invariant forall j :: 0 <= j < i ==> !Closes(ancestors[j], observed)
    {
      var outer := ancestors[i];
      assert outer in Ancestors(path);
      if outer !in observed {
        continue;
      }
      var tokens := Split(observed[outer], '|');
      if forall one :: one in tokens ==> one == "null" {
        return true;
      }
      if "array" in tokens && outer + "[]" !in observed {
        return true;
      }
    }
    return false;
  }

  function TokenOn(signature: Signature, path: string): string {
    if path in signature then signature[path] else ""
  }

  // Schema and type.

  ghost function SchemaChanges(baseline: Signature, current: Signature): set<Change> {
    (set p | p in baseline && p !in current :: Removed(p, baseline[p])) +
    (set p | p in current && p !in baseline :: Added(p, current[p]))
  }

  ghost function TypeChanges(baseline: Signature, current: Signature): set<Change> {
    set p | p in baseline && p in current && current[p] != baseline[p] :: Changed(p, baseline[p], current[p])
  }

  /** `schema_diff` */
  ghost function SchemaDiff(baseline: Signature, current: Signature): Diff {
    Report(SchemaChanges(baseline, current), 0, 0, 0)
  }

  /** `type_diff` */
  ghost function TypeDiff(baseline: Signature, current: Signature): Diff {
    Report(TypeChanges(baseline, current), 0, 0, 0)
  }

  // The recording.

  /** A token's forms, in stored order, with `null` dropped. */
  function WithoutNull(token: string): seq<string> {
    Filter(Split(token, '|'), IsForm)
  }

  predicate IsForm(one: string) { one != "null" }

  /** `_nullability_only` */
  predicate NullabilityOnly(before: string, after: string) {
    var left, right := WithoutNull(before), WithoutNull(after);
    left == [] || right == [] || left == right
  }

  datatype Verdict = Same | OnlyNullability | NoRoom | Reported

  predicate InBoth(before: Signature, current: Signature, path: string) {
    path in before && path in current
  }

  /** What the recording comparison makes of a path that either side has. */
  function VerdictOn(before: Signature, current: Signature): string -> Verdict {
    path =>
      if InBoth(before, current, path) then
        if current[path] == before[path] then Same
        else if NullabilityOnly(before[path], current[path]) then OnlyNullability
        else Reported
      else if Unreachable(path, if path in before then current else before) then NoRoom
      else Reported
  }

  function ChangeOn(before: Signature, current: Signature): string -> Change {
    path =>
      if InBoth(before, current, path) then Changed(path, before[path], current[path])
      else if path in before then Removed(path, before[path])
      else Added(path, TokenOn(current, path))
  }

  ghost function BaselineDiff(before: Signature, current: Signature): Diff {
    var all, verdict := before.Keys + current.Keys, VerdictOn(before, current);
    CountChangesWhere(all, verdict, Reported, ChangeOn(before, current));
    Report(ChangesWhere(all, verdict, Reported, ChangeOn(before, current)),
           |Where(all, verdict, NoRoom)|, |Where(all, verdict, OnlyNullability)|, 0)
  }

  lemma TallyOne(before: Signature, current: Signature, visited: set<string>,
                 changes: seq<Change>, path: string, verdict: Verdict)
    requires path !in visited && VerdictOn(before, current)(path) == verdict
    requires HoldsOnce(changes, ChangesWhere(visited, VerdictOn(before, current), Reported, ChangeOn(before, current)))
    ensures |Where(visited + {path}, VerdictOn(before, current), NoRoom)| ==
            |Where(visited, VerdictOn(before, current), NoRoom)| + if verdict == NoRoom then 1 else 0
    ensures |Where(visited + {path}, VerdictOn(before, current), OnlyNullability)| ==
            |Where(visited, VerdictOn(before, current), OnlyNullability)| + if verdict == OnlyNullability then 1 else 0
    ensures HoldsOnce(if verdict == Reported then changes + [ChangeOn(before, current)(path)] else changes,
      ChangesWhere(visited + {path}, VerdictOn(before, current), Reported, ChangeOn(before, current)))
  {
    assert OnItsPath(ChangeOn(before, current));
    hide *;
    WhereOneMore(visited, VerdictOn(before, current), NoRoom, path);
    WhereOneMore(visited, VerdictOn(before, current), OnlyNullability, path);
    AppendVerdict(changes, visited, VerdictOn(before, current), Reported, ChangeOn(before, current), path);
  }

  lemma VerdictCases(before: Signature, current: Signature, path: string)
    ensures VerdictOn(before, current)(path) ==
      if InBoth(before, current, path) then
        if current[path] == before[path] then Same
        else if NullabilityOnly(before[path], current[path]) then OnlyNullability
        else Reported
      else if Unreachable(path, if path in before then current else before) then NoRoom
      else Reported
    ensures InBoth(before, current, path) == (path in before && path in current)
    ensures path in current ==> TokenOn(current, path) == current[path]
    ensures ChangeOn(before, current)(path) ==
      if InBoth(before, current, path) then Changed(path, before[path], current[path])
      else if path in before then Removed(path, before[path])
      else Added(path, TokenOn(current, path))
  {
  }

  lemma NoChanges()
    ensures HoldsOnce([], {})
  {
  }

  lemma NothingVisited<V>(verdict: string -> V, wanted: V, change: string -> Change)
    ensures forall other :: Where({}, verdict, other) == {}
    ensures ChangesWhere({}, verdict, wanted, change) == {}
  {
  }

  lemma EverythingVisited(before: Signature, current: Signature, changes: seq<Change>, u: nat, n: nat)
    requires var all, verdict := before.Keys + current.Keys, VerdictOn(before, current);
      u == |Where(all, verdict, NoRoom)| && n == |Where(all, verdict, OnlyNullability)| &&
      HoldsOnce(changes, ChangesWhere(all, verdict, Reported, ChangeOn(before, current)))
    ensures Diff(Sorted(changes, SortKey), |changes|, u, n, 0) == BaselineDiff(before, current)
  {
    assert OnItsPath(ChangeOn(before, current));
    hide VerdictOn, ChangeOn, HoldsOnce, Where, ChangesWhere, OnItsPath, OnePerPath, Report;
    var all := before.Keys + current.Keys;
    var reported := ChangesWhere(all, VerdictOn(before, current), Reported, ChangeOn(before, current));
    CountChangesWhere(all, VerdictOn(before, current), Reported, ChangeOn(before, current));
    ReportOf(changes, reported, u, n, 0);
  }

  /** The first loop of `baseline_diff`: the recorded paths. */
  method JudgeRecorded(before: Signature, current: Signature)
    returns (changes: seq<Change>, unreachable: nat, nullable: nat)
    ensures unreachable == |Where(before.Keys, VerdictOn(before, current), NoRoom)|
    ensures nullable == |Where(before.Keys, VerdictOn(before, current), OnlyNullability)|
    ensures HoldsOnce(changes,
      ChangesWhere(before.Keys, VerdictOn(before, current), Reported, ChangeOn(before, current)))
  {
    hide *;
    changes, unreachable, nullable := [], 0, 0;
    var visited := {};
    NothingVisited(VerdictOn(before, current), Reported, ChangeOn(before, current));
    NoChanges();
    while before.Keys - visited != {}
      invariant visited <= before.Keys
      invariant unreachable == |Where(visited, VerdictOn(before, current), NoRoom)|
      invariant nullable == |Where(visited, VerdictOn(before, current), OnlyNullability)|
      invariant HoldsOnce(changes,
        ChangesWhere(visited, VerdictOn(before, current), Reported, ChangeOn(before, current)))
      decreases before.Keys - visited
    {
      var path :| path in before.Keys - visited;
      ghost var verdict := VerdictOn(before, current)(path);
      VerdictCases(before, current, path);
      TallyOne(before, current, visited, changes, path, verdict);
      visited := visited + {path};
      if path in current {
        if current[path] == before[path] {
          continue;
        }
        if NullabilityOnly(before[path], current[path]) {
          nullable := nullable + 1;
          continue;
        }
        changes := changes + [Changed(path, before[path], current[path])];
        continue;
      }
      var noRoom := UnreachableIn(path, current);
      if noRoom {
        unreachable := unreachable + 1;
        continue;
      }
      changes := changes + [Removed(path, before[path])];
    }
    assert visited == before.Keys;
  }

  /** `baseline_diff` */
  method ComputeBaselineDiff(before: Signature, current: Signature) returns (diff: Diff)
    ensures diff == BaselineDiff(before, current)
  {
    hide *;
    var changes, unreachable, nullable := JudgeRecorded(before, current);
    var seen := {};
    assert before.Keys + seen == before.Keys;
    while current.Keys - seen != {}
      invariant seen <= current.Keys
      invariant unreachable == |Where(before.Keys + seen, VerdictOn(before, current), NoRoom)|
      invariant nullable == |Where(before.Keys + seen, VerdictOn(before, current), OnlyNullability)|
      invariant HoldsOnce(changes,
        ChangesWhere(before.Keys + seen, VerdictOn(before, current), Reported, ChangeOn(before, current)))
      decreases current.Keys - seen
    {
      var path :| path in current.Keys - seen;
      ghost var visited := before.Keys + seen;
      seen := seen + {path};
      assert before.Keys + seen == visited + {path};
      if path in before {
        assert visited + {path} == visited;
        continue;
      }
      VerdictCases(before, current, path);
      TallyOne(before, current, visited, changes, path, VerdictOn(before, current)(path));
      var noRoom := UnreachableIn(path, before);
      if noRoom {
        unreachable := unreachable + 1;
        continue;
      }
      changes := changes + [Added(path, current[path])];
    }
    assert seen == current.Keys;
    EverythingVisited(before, current, changes, unreachable, nullable);
    diff := Diff(Sorted(changes, SortKey), |changes|, unreachable, nullable, 0);
  }

  // The contract.

  predicate IsStringToken(token: string) {
    token in {"text", "date", "date:iso", "url", "ofac-sentence", "empty"} || "digits:" <= token
  }

  /** `permits` */
  predicate Permits(allowed: string, token: string) {
    var tokens := Split(allowed, '|');
    token in tokens || ("string" in tokens && IsStringToken(token))
  }

  /** The observed forms the contract does not allow, in stored order. */
  function Offending(allowed: string, token: string): seq<string> {
    Filter(Split(token, '|'), Refuses(allowed))
  }

  function Refuses(allowed: string): string -> bool {
    one => !Permits(allowed, one)
  }

  function OffendingOn(expected: Signature, observed: Signature, path: string): seq<string> {
    if path in expected && path in observed then Offending(expected[path], observed[path]) else []
  }

  function Violates(expected: Signature, observed: Signature): string -> bool {
    path => OffendingOn(expected, observed, path) != []
  }

  function ViolationOn(expected: Signature, observed: Signature): string -> Change {
    path => Changed(path, TokenOn(expected, path), Join(OffendingOn(expected, observed, path), '|'))
  }

  ghost function ContractDiff(expected: Signature, observed: Signature): Diff {
    CountChangesWhere(observed.Keys, Violates(expected, observed), true, ViolationOn(expected, observed));
    Report(ChangesWhere(observed.Keys, Violates(expected, observed), true, ViolationOn(expected, observed)), 0, 0, 0)
  }

  /** `contract_diff` */
  method ComputeContractDiff(expected: Signature, observed: Signature) returns (diff: Diff)
    ensures diff == ContractDiff(expected, observed)
  {
    hide *;
    var changes: seq<Change> := [];
    var visited := {};
    NothingVisited(Violates(expected, observed), true, ViolationOn(expected, observed));
    NoChanges();
    while observed.Keys - visited != {}
      invariant visited <= observed.Keys
      invariant HoldsOnce(changes,
        ChangesWhere(visited, Violates(expected, observed), true, ViolationOn(expected, observed)))
      decreases observed.Keys - visited
    {
      var path :| path in observed.Keys - visited;
      CheckOne(expected, observed, visited, changes, path);
      visited := visited + {path};
      if path !in expected {
        continue;
      }
      var offending := Offending(expected[path], observed[path]);
      if offending != [] {
        changes := changes + [Changed(path, expected[path], Join(offending, '|'))];
      }
    }
    assert observed.Keys == visited + (observed.Keys - visited) == visited;
    EverythingChecked(expected, observed, changes);
    diff := Diff(Sorted(changes, SortKey), |changes|, 0, 0, 0);
  }

  lemma CheckOne(expected: Signature, observed: Signature, visited: set<string>, changes: seq<Change>, path: string)
    requires path in observed.Keys - visited
    requires HoldsOnce(changes,
      ChangesWhere(visited, Violates(expected, observed), true, ViolationOn(expected, observed)))
    ensures HoldsOnce(
      if path !in expected || Offending(expected[path], observed[path]) == [] then changes
      else changes + [Changed(path, expected[path], Join(Offending(expected[path], observed[path]), '|'))],
      ChangesWhere(visited + {path}, Violates(expected, observed), true, ViolationOn(expected, observed)))
  {
    assert OnItsPath(ViolationOn(expected, observed));
    assert Violates(expected, observed)(path) <==>
      !(path !in expected || Offending(expected[path], observed[path]) == []);
    assert path !in expected || ViolationOn(expected, observed)(path) ==
      Changed(path, expected[path], Join(Offending(expected[path], observed[path]), '|'));
    hide *;
    AppendVerdict(changes, visited, Violates(expected, observed), true, ViolationOn(expected, observed), path);
  }

  lemma EverythingChecked(expected: Signature, observed: Signature, changes: seq<Change>)
    requires HoldsOnce(changes,
      ChangesWhere(observed.Keys, Violates(expected, observed), true, ViolationOn(expected, observed)))
    ensures Diff(Sorted(changes, SortKey), |changes|, 0, 0, 0) == ContractDiff(expected, observed)
  {
    assert OnItsPath(ViolationOn(expected, observed));
    hide Violates, ViolationOn, HoldsOnce, Where, ChangesWhere, OnItsPath, OnePerPath, Report;
    var violations := ChangesWhere(observed.Keys, Violates(expected, observed), true, ViolationOn(expected, observed));
    CountChangesWhere(observed.Keys, Violates(expected, observed), true, ViolationOn(expected, observed));
    ReportOf(changes, violations, 0, 0, 0);
  }

  // Coverage.

  /** Predicted, not sent, and with no predicted-but-absent path enclosing it. */
  predicate ShallowestAbsent(expected: Signature, observed: Signature, path: string) {
    path in expected && path !in observed &&
    forall outer :: outer in Ancestors(path) ==> !(outer in expected && outer !in observed)
  }

  /** The paths a response must carry: all predicted ones, unless a policy narrows them. */
  datatype Requirement = Everything | Only(paths: set<string>)

  predicate Demanded(required: Requirement, path: string) {
    required.Only? ==> path in required.paths
  }

  predicate AnyIn(list: seq<string>, members: set<string>) {
    exists x :: x in list && x in members
  }

  datatype Absence = NowhereToArrive | Deeper | Optional | Missing

  function AbsenceOf(expected: Signature, observed: Signature, required: Requirement): string -> Absence {
    path =>
      if Unreachable(path, observed) then NowhereToArrive
      else if !ShallowestAbsent(expected, observed, path) then Deeper
      else if !Demanded(required, path) then Optional
      else Missing
  }

  function RemovalOf(expected: Signature): string -> Change {
    path => Removed(path, TokenOn(expected, path))
  }

  function Absent(expected: Signature, observed: Signature): set<string> {
    expected.Keys - observed.Keys
  }

  ghost function Unpredicted(expected: Signature, observed: Signature): set<Change> {
    set p | p in observed.Keys - expected.Keys :: Added(p, observed[p])
  }

  lemma CoverageOnePerPath(expected: Signature, observed: Signature, required: Requirement)
    ensures OnePerPath(Unpredicted(expected, observed) +
      ChangesWhere(Absent(expected, observed), AbsenceOf(expected, observed, required), Missing, RemovalOf(expected)))
  {
    hide AbsenceOf;
    CountChangesWhere(Absent(expected, observed), AbsenceOf(expected, observed, required), Missing,
      RemovalOf(expected));
  }

  /** Unpredicted paths are added; of the predicted ones that did not arrive, the demanded
      root causes are removed and the rest only counted. */
  ghost function CoverageDiff(expected: Signature, observed: Signature, required: Requirement): Diff {
    var absent, absence := Absent(expected, observed), AbsenceOf(expected, observed, required);
    CoverageOnePerPath(expected, observed, required);
    Report(Unpredicted(expected, observed) + ChangesWhere(absent, absence, Missing, RemovalOf(expected)),
           |Where(absent, absence, NowhereToArrive)|, 0, |Where(absent, absence, Optional)|)
  }

  /** The unpredicted paths, each once. */
  method ListUnpredicted(expected: Signature, observed: Signature) returns (changes: seq<Change>)
    ensures HoldsOnce(changes, Unpredicted(expected, observed))
  {
    changes := [];
    var todo := observed.Keys - expected.Keys;
    while todo != {}
      invariant todo <= observed.Keys - expected.Keys
      invariant forall c :: c in changes <==>
        exists p :: p in (observed.Keys - expected.Keys) - todo && c == Added(p, observed[p])
      invariant forall i, j :: 0 <= i < j < |changes| ==> changes[i].path != changes[j].path
      decreases todo
    {
      var path :| path in todo;
      assert forall i :: 0 <= i < |changes| ==> changes[i] in changes;
      todo := todo - {path};
      changes := changes + [Added(path, observed[path])];
    }
  }

  lemma CoverOne(expected: Signature, observed: Signature, required: Requirement, visited: set<string>,
                 changes: seq<Change>, path: string, absence: Absence)
    requires path in Absent(expected, observed) - visited
    requires AbsenceOf(expected, observed, required)(path) == absence
    requires HoldsOnce(changes,
      ChangesWhere(visited, AbsenceOf(expected, observed, required), Missing, RemovalOf(expected)))
    ensures |Where(visited + {path}, AbsenceOf(expected, observed, required), NowhereToArrive)| ==
      |Where(visited, AbsenceOf(expected, observed, required), NowhereToArrive)| +
      if absence == NowhereToArrive then 1 else 0
    ensures |Where(visited + {path}, AbsenceOf(expected, observed, required), Optional)| ==
      |Where(visited, AbsenceOf(expected, observed, required), Optional)| + if absence == Optional then 1 else 0
    ensures HoldsOnce(if absence == Missing then changes + [Removed(path, expected[path])] else changes,
      ChangesWhere(visited + {path}, AbsenceOf(expected, observed, required), Missing, RemovalOf(expected)))
  {
    assert OnItsPath(RemovalOf(expected)) && RemovalOf(expected)(path) == Removed(path, expected[path]);
    hide *;
    WhereOneMore(visited, AbsenceOf(expected, observed, required), NowhereToArrive, path);
    WhereOneMore(visited, AbsenceOf(expected, observed, required), Optional, path);
    AppendVerdict(changes, visited, AbsenceOf(expected, observed, required), Missing, RemovalOf(expected), path);
  }

  lemma AbsenceCases(expected: Signature, observed: Signature, required: Requirement, path: string)
    requires path in Absent(expected, observed)
    ensures AbsenceOf(expected, observed, required)(path) ==
      if Unreachable(path, observed) then NowhereToArrive
      else if AnyIn(Ancestors(path), Absent(expected, observed)) then Deeper
      else if required.Only? && path !in required.paths then Optional
      else Missing
  {
  }

  lemma EverythingCovered(expected: Signature, observed: Signature, required: Requirement,
                          added: seq<Change>, removed: seq<Change>, u: nat, o: nat)
    requires HoldsOnce(added, Unpredicted(expected, observed))
    requires var absent, absence := Absent(expected, observed), AbsenceOf(expected, observed, required);
      u == |Where(absent, absence, NowhereToArrive)| && o == |Where(absent, absence, Optional)| &&
      HoldsOnce(removed, ChangesWhere(absent, absence, Missing, RemovalOf(expected)))
    ensures Diff(Sorted(added + removed, SortKey), |added + removed|, u, 0, o) ==
      CoverageDiff(expected, observed, required)
  {
    var removals := ChangesWhere(Absent(expected, observed), AbsenceOf(expected, observed, required), Missing,
      RemovalOf(expected));
    assert forall c, d :: c in Unpredicted(expected, observed) && d in removals ==> c.path != d.path;
    hide AbsenceOf, RemovalOf, HoldsOnce, Where, ChangesWhere, OnePerPath, Unpredicted, Report;
    CoverageOnePerPath(expected, observed, required);
    HoldsBoth(added, removed, Unpredicted(expected, observed), removals);
    ReportOf(added + removed, Unpredicted(expected, observed) + removals, u, 0, o);
  }

  /** What the loop of `coverage_diff` makes of one predicted path that did not arrive. */
  method JudgeAbsent(expected: Signature, observed: Signature, required: Requirement, path: string)
    returns (absence: Absence)
    requires path in Absent(expected, observed)
    ensures absence == AbsenceOf(expected, observed, required)(path)
  {
    AbsenceCases(expected, observed, required, path);
    hide *;
    var noRoom := UnreachableIn(path, observed);
    if noRoom {
      return NowhereToArrive;
    }
    var ancestors := AncestorsOf(path);
    if AnyIn(ancestors, Absent(expected, observed)) {
      return Deeper;
    }
    if required.Only? && path !in required.paths {
      return Optional;
    }
    return Missing;
  }

  /** The loop of `coverage_diff` over the predicted paths that did not arrive. */
  method JudgeAllAbsent(expected: Signature, observed: Signature, required: Requirement, absent: set<string>)
    returns (changes: seq<Change>, unreachable: nat, optionalAbsent: nat)
    requires absent == Absent(expected, observed) && absent <= expected.Keys
    ensures unreachable == |Where(Absent(expected, observed), AbsenceOf(expected, observed, required), NowhereToArrive)|
    ensures optionalAbsent == |Where(Absent(expected, observed), AbsenceOf(expected, observed, required), Optional)|
    ensures HoldsOnce(changes,
      ChangesWhere(Absent(expected, observed), AbsenceOf(expected, observed, required), Missing, RemovalOf(expected)))
  {
    hide *;
    changes, unreachable, optionalAbsent := [], 0, 0;
    var visited := {};
    NothingVisited(AbsenceOf(expected, observed, required), Missing, RemovalOf(expected));
    NoChanges();
    while absent - visited != {}
      invariant visited <= absent
      invariant unreachable == |Where(visited, AbsenceOf(expected, observed, required), NowhereToArrive)|
      invariant optionalAbsent == |Where(visited, AbsenceOf(expected, observed, required), Optional)|
      invariant HoldsOnce(changes,
        ChangesWhere(visited, AbsenceOf(expected, observed, required), Missing, RemovalOf(expected)))
      decreases absent - visited
    {
      var path :| path in absent - visited;
      var absence := JudgeAbsent(expected, observed, required, path);
      CoverOne(expected, observed, required, visited, changes, path, absence);
      visited := visited + {path};
      if absence == NowhereToArrive {
        unreachable := unreachable + 1;
        continue;
      }
      if absence == Deeper {
        continue;
      }
      if absence == Optional {
        optionalAbsent := optionalAbsent + 1;
        continue;
      }
      changes := changes + [Removed(path, expected[path])];
    }
    assert visited == absent;
  }

  /** `coverage_diff` */
  method ComputeCoverageDiff(expected: Signature, observed: Signature, required: Requirement) returns (diff: Diff)
    ensures diff == CoverageDiff(expected, observed, required)
  {
    var absent := Absent(expected, observed);
    assert absent <= expected.Keys;
    hide *;
    var changes := ListUnpredicted(expected, observed);
    var removed, unreachable, optionalAbsent := JudgeAllAbsent(expected, observed, required, absent);
    EverythingCovered(expected, observed, required, changes, removed, unreachable, optionalAbsent);
    changes := changes + removed;
    diff := Diff(Sorted(changes, SortKey), |changes|, unreachable, 0, optionalAbsent);
  }
}
