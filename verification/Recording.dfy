/** What holding a recording against a live response reports, excuses and cannot see. */
module Recording {
  import opened Text
  import opened Sorting
  import opened Paths
  import opened Json
  import opened Signatures
  import opened Tallies
  import opened Diffs
  import opened Reachability

  // Accounting.

  /** Every path either side has is in exactly one class, and the reported ones are the total. */
  lemma EveryPathIsAccountedFor(before: Signature, current: Signature)
    ensures var all, diff := before.Keys + current.Keys, BaselineDiff(before, current);
      |all| == |Where(all, VerdictOn(before, current), Same)| + diff.nullable + diff.unreachable + diff.total &&
      diff.optionalAbsent == 0
    ensures |BaselineDiff(before, current).changes| == BaselineDiff(before, current).total
  {
    var all, verdict := before.Keys + current.Keys, VerdictOn(before, current);
    CountChangesWhere(all, verdict, Reported, ChangeOn(before, current));
    OnePerPathSorts(ChangesWhere(all, verdict, Reported, ChangeOn(before, current)));
    FourClasses(all, verdict);
  }

  lemma {:induction false} FourClasses(among: set<string>, verdict: string -> Verdict)
    ensures |among| == |Where(among, verdict, Same)| + |Where(among, verdict, OnlyNullability)| +
                       |Where(among, verdict, NoRoom)| + |Where(among, verdict, Reported)|
  {
    var same, nullable := Where(among, verdict, Same), Where(among, verdict, OnlyNullability);
    var noRoom, reported := Where(among, verdict, NoRoom), Where(among, verdict, Reported);
    forall p | p in among ensures p in same + nullable + noRoom + reported {
      match verdict(p)
      case Same =>
      case OnlyNullability =>
      case NoRoom =>
      case Reported =>
    }
    assert among == same + nullable + noRoom + reported;
    assert same !! nullable !! noRoom !! reported;
  }

  /** The changes listed are those of the reported paths. */
  lemma {:induction false} ListedChanges(before: Signature, current: Signature, c: Change)
    ensures c in BaselineDiff(before, current).changes <==>
            InEither(before, current, c.path) && VerdictOn(before, current)(c.path) == Reported &&
            c == ChangeOn(before, current)(c.path)
  {
    var all, verdict := before.Keys + current.Keys, VerdictOn(before, current);
    var changes := ChangesWhere(all, verdict, Reported, ChangeOn(before, current));
    CountChangesWhere(all, verdict, Reported, ChangeOn(before, current));
    OnePerPathSorts(changes);
    if c.path in Where(all, verdict, Reported) && c == ChangeOn(before, current)(c.path) {
      assert c in changes;
    }
  }

  predicate InEither(before: Signature, current: Signature, path: string) {
    path in before || path in current
  }

  lemma VerdictIsSymmetric(before: Signature, current: Signature, path: string)
    requires InEither(before, current, path)
    ensures VerdictOn(before, current)(path) == VerdictOn(current, before)(path)
    ensures ChangeOn(current, before)(path) == Swap(ChangeOn(before, current)(path))
  {
  }

  /** Which side ran first does not matter: swapping them swaps removals with additions and
      the two tokens of a change, and keeps both excuse counts. */
  lemma SwappingSides(before: Signature, current: Signature)
    ensures var d, e := BaselineDiff(before, current), BaselineDiff(current, before);
      d.total == e.total && d.unreachable == e.unreachable && d.nullable == e.nullable
    ensures forall c :: c in BaselineDiff(current, before).changes <==> Swap(c) in BaselineDiff(before, current).changes
  {
    var all := before.Keys + current.Keys;
    assert all == current.Keys + before.Keys;
    hide VerdictOn, ChangeOn, InEither, Where, ChangesWhere, OnItsPath, Swap;
    forall verdict
      ensures Where(all, VerdictOn(before, current), verdict) == Where(all, VerdictOn(current, before), verdict)
    {
      SameVerdicts(before, current, verdict);
    }
    ChangesOnTheirPaths(before, current);
    ChangesOnTheirPaths(current, before);
    CountChangesWhere(all, VerdictOn(before, current), Reported, ChangeOn(before, current));
    CountChangesWhere(all, VerdictOn(current, before), Reported, ChangeOn(current, before));
    forall c ensures c in BaselineDiff(current, before).changes <==> Swap(c) in BaselineDiff(before, current).changes {
      SwappedChange(before, current, c);
    }
  }

  lemma SameVerdicts(before: Signature, current: Signature, verdict: Verdict)
    ensures var all := before.Keys + current.Keys;
      Where(all, VerdictOn(before, current), verdict) == Where(all, VerdictOn(current, before), verdict)
  {
    hide VerdictOn;
    forall p | p in before.Keys + current.Keys ensures VerdictOn(before, current)(p) == VerdictOn(current, before)(p) {
      VerdictIsSymmetric(before, current, p);
    }
  }

  lemma ChangesOnTheirPaths(before: Signature, current: Signature)
    ensures OnItsPath(ChangeOn(before, current))
  {
  }

  lemma SwappedChange(before: Signature, current: Signature, c: Change)
    ensures c in BaselineDiff(current, before).changes <==> Swap(c) in BaselineDiff(before, current).changes
  {
    hide BaselineDiff, VerdictOn, ChangeOn;
    ListedChanges(current, before, c);
    ListedChanges(before, current, Swap(c));
    if InEither(before, current, c.path) {
      VerdictIsSymmetric(before, current, c.path);
    }
  }

  // Nullability, on token sets.

  /** On stored tokens, the test sees past the joined strings to the token sets: the sets
      without `null` are equal, or one of them is empty. */
  lemma NullabilityOnTokenSets(a: set<string>, b: set<string>)
    requires a != {} && b != {} && forall t :: t in a + b ==> '|' !in t
    ensures NullabilityOnly(JoinTokens(a), JoinTokens(b)) <==>
            a - {"null"} == {} || b - {"null"} == {} || a - {"null"} == b - {"null"}
  {
    FormsOf(a);
    FormsOf(b);
    hide JoinTokens, WithoutNull;
    assert a - {"null"} != {} ==> Listing(a - {"null"}, Itself) != [];
    assert a - {"null"} == b - {"null"} <==> Listing(a - {"null"}, Itself) == Listing(b - {"null"}, Itself) by {
      assert forall x :: x in Listing(a - {"null"}, Itself) <==> x in a - {"null"};
      assert forall x :: x in Listing(b - {"null"}, Itself) <==> x in b - {"null"};
    }
  }

  lemma FormsOf(a: set<string>)
    requires a != {} && forall t :: t in a ==> '|' !in t
    ensures WithoutNull(JoinTokens(a)) == Listing(a - {"null"}, Itself)
  {
    hide JoinTokens, Lists;
    JoinTokensRoundTrip(a);
    FilterOfListing(a, IsForm, Itself);
    assert a - {"null"} == Kept(a, IsForm);
  }

  // Nulling a path.

  /** `outer` encloses `path` exactly when its walk is a proper prefix. */
  lemma EnclosesIffPrefix(outer: seq<Step>, steps: seq<Step>)
    requires WellFormedSteps(outer) && WellFormedSteps(steps) && outer != []
    ensures Render(outer) in Ancestors(Render(steps)) <==> outer < steps
  {
    RenderIsEmptyOnlyAtTheRoot(outer);
    AncestorIsProperPrefix(steps, Render(outer));
    if Render(outer) in Ancestors(Render(steps)) {
      var n :| 0 < n < |steps| && Render(outer) == Render(steps[..n]);
      WellFormedReadsBack(outer);
      WellFormedReadsBack(steps[..n]);
      RenderIsInjective(outer, steps[..n]);
    }
    if outer < steps {
      assert outer == steps[..|outer|];
    }
  }

  ghost function Forms(v: Json, steps: seq<Step>): set<string> {
    TokensAt(v, steps) - {"null"}
  }

  /** Holding the recording of `v` against `w` lists this change, at this walk. */
  ghost predicate IsReported(v: Json, w: Json, steps: seq<Step>, c: Change) {
    c in BaselineDiff(SignatureOf(v), SignatureOf(w)).changes && c.path == Render(steps)
  }

  /** A move of a path between two forms its values actually took is reported, and nothing else
      is reported as a change: a path is listed as changed exactly when both responses have
      non-null values there and those take different forms. */
  lemma {:induction false} DriftIsReported(v: Json, w: Json, steps: seq<Step>)
    requires WellFormed(v) && WellFormed(w) && WellFormedSteps(steps) && steps != []
    ensures (exists c: Change :: c.Changed? && IsReported(v, w, steps, c)) <==>
      Forms(v, steps) != {} && Forms(w, steps) != {} && Forms(v, steps) != Forms(w, steps)
  {
    var before, current, path := SignatureOf(v), SignatureOf(w), Render(steps);
    SignatureAtSteps(v, steps);
    SignatureAtSteps(w, steps);
    TokensMakePresence(v, steps);
    TokensMakePresence(w, steps);
    VerdictCases(before, current, path);
    var listed := ChangeOn(before, current)(path);
    forall c | c in BaselineDiff(before, current).changes && c.path == path ensures c == listed {
      ListedChanges(before, current, c);
    }
    ListedChanges(before, current, listed);
    if InBoth(before, current, path) {
      VerdictOnTokens(v, w, steps);
    }
    hide SignatureOf, BaselineDiff, VerdictOn, ChangeOn, Render, WellFormed, TokensAt, NullabilityOnly, JoinTokens;
    if InBoth(before, current, path) {
      assert listed.Changed?;
    }
  }

  /** A reported change carries the recorded and the current tokens of its path. */
  lemma {:induction false} ReportsCarryTokens(v: Json, w: Json, steps: seq<Step>, c: Change)
    requires WellFormed(v) && WellFormed(w) && WellFormedSteps(steps) && steps != []
    requires IsReported(v, w, steps, c)
    ensures var recorded, current := JoinTokens(TokensAt(v, steps)), JoinTokens(TokensAt(w, steps));
      match c
      case Removed(_, token) => token == recorded && NodesAt(w, steps) == {}
      case Changed(_, fromToken, toToken) => fromToken == recorded && toToken == current
      case Added(_, token) => token == current && NodesAt(v, steps) == {}
  {
    SignatureAtSteps(v, steps);
    SignatureAtSteps(w, steps);
    ListedChanges(SignatureOf(v), SignatureOf(w), c);
    VerdictCases(SignatureOf(v), SignatureOf(w), Render(steps));
    hide SignatureOf, BaselineDiff, VerdictOn, ChangeOn, Render, WellFormed, NodesAt, TokensAt, JoinTokens;
  }

  /** A field the response stopped sending is reported as removed exactly when it had somewhere
      to arrive: nothing above it came only as null, or only as empty arrays. */
  lemma {:induction false} LossIsReported(v: Json, w: Json, steps: seq<Step>)
    requires WellFormed(v) && WellFormed(w) && WellFormedSteps(steps) && steps != []
    ensures (exists c: Change :: c.Removed? && IsReported(v, w, steps, c)) <==>
      NodesAt(v, steps) != {} && NodesAt(w, steps) == {} &&
      forall n :: 0 < n < |steps| ==> !NoRoomAt(w, steps[..n])
  {
    var before, current, path := SignatureOf(v), SignatureOf(w), Render(steps);
    SignatureAtSteps(v, steps);
    SignatureAtSteps(w, steps);
    UnreachableIffNoRoomAbove(w, steps);
    VerdictCases(before, current, path);
    var listed := ChangeOn(before, current)(path);
    forall c | c in BaselineDiff(before, current).changes && c.path == path ensures c == listed {
      ListedChanges(before, current, c);
    }
    ListedChanges(before, current, listed);
    hide SignatureOf, BaselineDiff, VerdictOn, ChangeOn, Render, WellFormed, NodesAt, NoRoomAt, Unreachable,
      NullabilityOnly;
  }

  lemma VerdictOnTokens(v: Json, w: Json, steps: seq<Step>)
    requires WellFormed(v) && WellFormed(w) && WellFormedSteps(steps) && steps != []
    requires InBoth(SignatureOf(v), SignatureOf(w), Render(steps))
    ensures VerdictOn(SignatureOf(v), SignatureOf(w))(Render(steps)) == Reported <==>
      Forms(v, steps) != {} && Forms(w, steps) != {} && Forms(v, steps) != Forms(w, steps)
  {
    var a, b := TokensAt(v, steps), TokensAt(w, steps);
    SignatureAtSteps(v, steps);
    SignatureAtSteps(w, steps);
    TokensMakePresence(v, steps);
    TokensMakePresence(w, steps);
    TokensArePipeFreeAt(v, steps);
    TokensArePipeFreeAt(w, steps);
    NullabilityOnTokenSets(a, b);
    JoinTokensRoundTrip(a);
    JoinTokensRoundTrip(b);
    VerdictCases(SignatureOf(v), SignatureOf(w), Render(steps));
    hide SignatureOf, VerdictOn, Render, WellFormed, TokensAt, NullabilityOnly, JoinTokens;
  }

  lemma TokensArePipeFreeAt(v: Json, steps: seq<Step>)
    ensures forall t :: t in TokensAt(v, steps) ==> '|' !in t
  {
  }

  lemma NullIsOnlyNull()
    ensures JoinTokens({"null"}) == "null"
  {
    ListingIsUnique(Listing({"null"}, Itself), ["null"], {"null"}, Itself);
  }

  lemma NulledTokens(v: Json, steps: seq<Step>, q: seq<Step>)
    ensures TokensAt(Put(v, steps, Null), q) ==
      if steps < q then {}
      else if q == steps then (if NodesAt(v, steps) == {} then {} else {"null"})
      else TokensAt(v, q)
  {
    forall t ensures t in TokensAt(Put(v, steps, Null), q) <==>
      if steps < q then false
      else if q == steps then NodesAt(v, steps) != {} && t == "null"
      else t in TokensAt(v, q)
    {
      PutTokens(v, steps, Null, q, t);
      if steps <= q {
        var rest := q[|steps|..];
        assert NodesAt(Null, rest) == if rest == [] then {Null} else {};
      }
    }
  }

  lemma PutKeepsKeys(v: Json, steps: seq<Step>, c: Json)
    requires WellFormed(v) && WellFormed(c)
    ensures WellFormed(Put(v, steps, c))
  {
    EditKeepsKeys(v, steps, _ => c);
  }

  lemma TokensMakePresence(v: Json, steps: seq<Step>)
    ensures TokensAt(v, steps) == {} <==> NodesAt(v, steps) == {}
  {
    if w :| w in NodesAt(v, steps) {
      assert TokenFor(w) in TokensAt(v, steps);
    }
  }

  /** What becomes of each path when one path is nulled. */
  lemma NulledVerdict(v: Json, steps: seq<Step>, q: seq<Step>)
    requires WellFormed(v) && WellFormedSteps(steps) && steps != []
    requires WellFormedSteps(q) && q != []
    requires Render(q) in SignatureOf(v) || Render(q) in SignatureOf(Put(v, steps, Null))
    ensures Render(q) in SignatureOf(v)
    ensures VerdictOn(SignatureOf(v), SignatureOf(Put(v, steps, Null)))(Render(q)) ==
      if steps < q then NoRoom
      else if steps == q && SignatureOf(v)[Render(q)] != "null" then OnlyNullability
      else Same
  {
    hide NodesAt, TokensAt, SignatureOf, WellFormed, Render, Unreachable, Split, WithoutNull;
    var before, after := SignatureOf(v), SignatureOf(Put(v, steps, Null));
    PutKeepsKeys(v, steps, Null);
    NulledTokens(v, steps, q);
    TokensMakePresence(v, q);
    TokensMakePresence(Put(v, steps, Null), q);
    SignatureAtSteps(v, q);
    SignatureAtSteps(Put(v, steps, Null), q);
    NullIsOnlyNull();
    if steps < q {
      NulledParent(v, steps, q);
    } else if steps == q {
      NullFormsAreNone();
    }
  }

  lemma NullFormsAreNone()
    ensures WithoutNull("null") == []
  {
    SplitWithoutSeparator("null", '|');
    assert ["null"][1..] == [];
  }

  lemma NulledParent(v: Json, steps: seq<Step>, q: seq<Step>)
    requires WellFormed(v) && WellFormedSteps(steps) && steps != [] && WellFormedSteps(q) && steps < q
    requires NodesAt(v, q) != {}
    ensures Unreachable(Render(q), SignatureOf(Put(v, steps, Null)))
  {
    NodesAbove(v, steps, q);
    hide SignatureOf, WellFormed, Render, Ancestors, NodesAt, TokensAt, Put, Closes, WellFormedSteps;
    PutKeepsKeys(v, steps, Null);
    NulledTokens(v, steps, steps);
    ClosesIffNoRoom(Put(v, steps, Null), steps);
    EnclosesIffPrefix(steps, q);
    assert Closes(Render(steps), SignatureOf(Put(v, steps, Null)));
  }

  lemma NodesAbove(v: Json, steps: seq<Step>, q: seq<Step>)
    requires steps <= q && NodesAt(v, q) != {}
    ensures NodesAt(v, steps) != {}
  {
    var w :| w in NodesAt(v, q);
    assert q == steps + q[|steps|..];
    NodesBelow(v, steps, q[|steps|..], w);
  }

  ghost function Below(signature: Signature, outer: string): set<string> {
    set q | q in signature && outer in Ancestors(q)
  }

  /** Replacing every value at a path by null is no drift: nothing is reported, the paths
      strictly below count as unreachable, and the path itself as a move in nullability
      unless it was only ever null. */
  lemma {:induction false} NullingIsInvisible(v: Json, steps: seq<Step>)
    requires WellFormed(v) && WellFormedSteps(steps) && steps != []
    ensures var before, diff := SignatureOf(v), BaselineDiff(SignatureOf(v), SignatureOf(Put(v, steps, Null)));
      diff.total == 0 && diff.changes == [] &&
      diff.unreachable == |Below(before, Render(steps))| &&
      diff.nullable == if Render(steps) in before && before[Render(steps)] != "null" then 1 else 0
  {
    hide SignatureOf, VerdictOn, BaselineDiff;
    var before, after, path := SignatureOf(v), SignatureOf(Put(v, steps, Null)), Render(steps);
    forall p | p in before.Keys + after.Keys
      ensures p in before
      ensures VerdictOn(before, after)(p) ==
        if path in Ancestors(p) then NoRoom else if p == path && before[p] != "null" then OnlyNullability else Same
    {
      NulledPath(v, steps, p);
    }
    NotOwnAncestor(path);
    Conclude(before, after, Below(before, path), if path in before && before[path] != "null" then {path} else {});
  }

  lemma NotOwnAncestor(path: string)
    ensures path !in Ancestors(path)
  {
    if path in Ancestors(path) {
      AncestorsAreShorter(path, path);
    }
  }

  lemma NulledPath(v: Json, steps: seq<Step>, p: string)
    requires WellFormed(v) && WellFormedSteps(steps) && steps != []
    requires p in SignatureOf(v) || p in SignatureOf(Put(v, steps, Null))
    ensures p in SignatureOf(v)
    ensures VerdictOn(SignatureOf(v), SignatureOf(Put(v, steps, Null)))(p) ==
      if Render(steps) in Ancestors(p) then NoRoom
      else if p == Render(steps) && SignatureOf(v)[p] != "null" then OnlyNullability
      else Same
  {
    hide WellFormed, SignatureOf, VerdictOn, Ancestors;
    var q := StepsOfEither(v, Put(v, steps, Null), steps, p);
    NulledVerdict(v, steps, q);
    EnclosesIffPrefix(steps, q);
    if p == Render(steps) {
      WellFormedReadsBack(q);
      WellFormedReadsBack(steps);
      RenderIsInjective(q, steps);
    }
  }

  lemma StepsOfEither(v: Json, edited: Json, steps: seq<Step>, path: string) returns (q: seq<Step>)
    requires WellFormed(v) && edited == Put(v, steps, Null)
    requires path in SignatureOf(v) || path in SignatureOf(edited)
    ensures q != [] && WellFormedSteps(q) && Render(q) == path
  {
    PutKeepsKeys(v, steps, Null);
    if path in SignatureOf(v) {
      q := StepsOfPath(v, path);
    } else {
      q := StepsOfPath(edited, path);
    }
  }

  /** From the verdict on each path to the counts. */
  lemma Conclude(before: Signature, after: Signature, noRoom: set<string>, nullable: set<string>)
    requires noRoom + nullable <= before.Keys + after.Keys && noRoom !! nullable
    requires forall p :: p in before.Keys + after.Keys ==>
      (VerdictOn(before, after)(p) == if p in noRoom then NoRoom else if p in nullable then OnlyNullability else Same)
    ensures var diff := BaselineDiff(before, after);
      diff.total == 0 && diff.changes == [] && diff.unreachable == |noRoom| && diff.nullable == |nullable|
  {
    var all, verdict := before.Keys + after.Keys, VerdictOn(before, after);
    assert Where(all, verdict, NoRoom) == noRoom;
    assert Where(all, verdict, OnlyNullability) == nullable;
    assert Where(all, verdict, Reported) == {};
    CountChangesWhere(all, verdict, Reported, ChangeOn(before, after));
    OnePerPathSorts(ChangesWhere(all, verdict, Reported, ChangeOn(before, after)));
  }

  // Emptying the arrays at a path.

  function Emptied(w: Json): Json {
    if w.Array? then Array([]) else w
  }

  function EmptyArrays(v: Json, steps: seq<Step>): Json {
    Edit(v, steps, Emptied)
  }

  lemma EmptiedNodes(u: Json, rest: seq<Step>)
    ensures (set w | w in NodesAt(Emptied(u), rest) :: TokenFor(w)) ==
      if rest != [] && rest[0].Element? then {} else TokensAt(u, rest)
  {
    if rest == [] {
      assert NodesAt(Emptied(u), rest) == {Emptied(u)} && NodesAt(u, rest) == {u};
    } else {
      assert Children(Emptied(u), rest[0]) == if rest[0].Element? then [] else Children(u, rest[0]);
      assert rest[0].Element? ==> NodesAt(Emptied(u), rest) == {};
      assert rest[0].Key? ==> NodesAt(Emptied(u), rest) == NodesAt(u, rest);
    }
  }

  lemma EmptiedTokens(v: Json, steps: seq<Step>, q: seq<Step>)
    ensures TokensAt(EmptyArrays(v, steps), q) == if steps + [Element] <= q then {} else TokensAt(v, q)
  {
    var cut := steps + [Element];
    assert cut <= q ==> steps <= q by { if cut <= q { assert q[..|cut|] == cut && cut[..|steps|] == steps; } }
    forall t ensures t in TokensAt(EmptyArrays(v, steps), q) <==> !(cut <= q) && t in TokensAt(v, q) {
      if steps <= q {
        var rest := q[|steps|..];
        assert q == steps + rest;
        assert cut <= q <==> rest != [] && rest[0].Element? by {
          if rest != [] && rest[0].Element? { assert q[..|cut|] == cut; }
          if cut <= q { assert q[|steps|] == cut[|steps|]; }
        }
        EmptiedTokensBelow(v, steps, rest, t);
      } else {
        UneditedTokens(v, steps, Emptied, q, t);
      }
    }
  }

  lemma EmptiedTokensBelow(v: Json, steps: seq<Step>, rest: seq<Step>, t: string)
    ensures t in TokensAt(EmptyArrays(v, steps), steps + rest) <==>
            !(rest != [] && rest[0].Element?) && t in TokensAt(v, steps + rest)
  {
    if t in TokensAt(EmptyArrays(v, steps), steps + rest) {
      EmptiedTokenWasThere(v, steps, rest, t);
    }
    if !(rest != [] && rest[0].Element?) && t in TokensAt(v, steps + rest) {
      TokenOutlivesEmptying(v, steps, rest, t);
    }
  }

  lemma EmptiedTokenWasThere(v: Json, steps: seq<Step>, rest: seq<Step>, t: string)
    requires t in TokensAt(EmptyArrays(v, steps), steps + rest)
    ensures !(rest != [] && rest[0].Element?) && t in TokensAt(v, steps + rest)
  {
    var w :| w in NodesAt(EmptyArrays(v, steps), steps + rest) && TokenFor(w) == t;
    EditedNodes(v, steps, Emptied, rest, w);
    var u :| u in NodesAt(v, steps) && w in NodesAt(Emptied(u), rest);
    EmptiedNodes(u, rest);
    assert t in TokensAt(u, rest);
    var x :| x in NodesAt(u, rest) && TokenFor(x) == t;
    NodesBelow(v, steps, rest, x);
  }

  lemma TokenOutlivesEmptying(v: Json, steps: seq<Step>, rest: seq<Step>, t: string)
    requires !(rest != [] && rest[0].Element?) && t in TokensAt(v, steps + rest)
    ensures t in TokensAt(EmptyArrays(v, steps), steps + rest)
  {
    var x :| x in NodesAt(v, steps + rest) && TokenFor(x) == t;
    NodesBelow(v, steps, rest, x);
    var u :| u in NodesAt(v, steps) && x in NodesAt(u, rest);
    EmptiedNodes(u, rest);
    assert t in TokensAt(u, rest);
    var w :| w in NodesAt(Emptied(u), rest) && TokenFor(w) == t;
    EditedNodes(v, steps, Emptied, rest, w);
  }

  lemma EmptiedKeys(v: Json, steps: seq<Step>)
    requires WellFormed(v)
    ensures WellFormed(EmptyArrays(v, steps))
  {
    EditKeepsKeys(v, steps, Emptied);
  }

  lemma EmptiedVerdict(v: Json, steps: seq<Step>, q: seq<Step>)
    requires WellFormed(v) && WellFormedSteps(steps) && steps != [] && WellFormedSteps(q) && q != []
    requires Render(q) in SignatureOf(v) || Render(q) in SignatureOf(EmptyArrays(v, steps))
    ensures Render(q) in SignatureOf(v)
    ensures VerdictOn(SignatureOf(v), SignatureOf(EmptyArrays(v, steps)))(Render(q)) ==
      if steps + [Element] <= q then NoRoom else Same
  {
    EmptiedKeys(v, steps);
    EmptiedTokens(v, steps, q);
    TokensMakePresence(v, q);
    TokensMakePresence(EmptyArrays(v, steps), q);
    SignatureAtSteps(v, q);
    SignatureAtSteps(EmptyArrays(v, steps), q);
    if steps + [Element] <= q {
      EmptiedParent(v, steps, q);
    }
  }

  lemma EmptiedParent(v: Json, steps: seq<Step>, q: seq<Step>)
    requires WellFormed(v) && WellFormedSteps(steps) && steps != [] && WellFormedSteps(q) && steps + [Element] <= q
    requires NodesAt(v, q) != {}
    ensures Unreachable(Render(q), SignatureOf(EmptyArrays(v, steps)))
  {
    var cut, emptied := steps + [Element], EmptyArrays(v, steps);
    assert cut[..|steps|] == steps && !(cut <= steps);
    ArrayAbove(v, steps, q);
    EmptiedKeys(v, steps);
    EmptiedTokens(v, steps, steps);
    EmptiedTokens(v, steps, cut);
    TokensMakePresence(emptied, cut);
    hide SignatureOf, WellFormed, Ancestors, EmptyArrays, Render, NodesAt, TokensAt, Closes;
    ClosesIffNoRoom(emptied, steps);
    EnclosesIffPrefix(steps, q);
    assert Closes(Render(steps), SignatureOf(emptied));
  }

  lemma ArrayAbove(v: Json, steps: seq<Step>, q: seq<Step>)
    requires steps + [Element] <= q && NodesAt(v, q) != {}
    ensures "array" in TokensAt(v, steps) && steps < q
  {
    var w :| w in NodesAt(v, q);
    var rest := q[|steps|..];
    assert q == steps + rest && rest[0] == (steps + [Element])[|steps|];
    NodesBelow(v, steps, rest, w);
    var u :| u in NodesAt(v, steps) && w in NodesAt(u, rest);
    assert u.Array?;
    assert TokenFor(u) in TokensAt(v, steps);
  }

  /** Emptying every array at a path is no drift either: nothing is reported, nothing counts
      as nullability, and exactly the elements' paths count as unreachable. */
  lemma {:induction false} EmptyingIsInvisible(v: Json, steps: seq<Step>)
    requires WellFormed(v) && WellFormedSteps(steps) && steps != []
    ensures var diff := BaselineDiff(SignatureOf(v), SignatureOf(EmptyArrays(v, steps)));
      var elements := Render(steps) + "[]";
      diff.total == 0 && diff.changes == [] && diff.nullable == 0 &&
      diff.unreachable == |Below(SignatureOf(v), elements) + ({elements} * SignatureOf(v).Keys)|
  {
    hide SignatureOf, VerdictOn, BaselineDiff;
    var before, after, elements := SignatureOf(v), SignatureOf(EmptyArrays(v, steps)), Render(steps) + "[]";
    forall p | p in before.Keys + after.Keys
      ensures p in before
      ensures VerdictOn(before, after)(p) == if p == elements || elements in Ancestors(p) then NoRoom else Same
    {
      EmptiedPath(v, steps, p);
    }
    Conclude(before, after, Below(before, elements) + ({elements} * before.Keys), {});
  }

  lemma EmptiedPath(v: Json, steps: seq<Step>, p: string)
    requires WellFormed(v) && WellFormedSteps(steps) && steps != []
    requires p in SignatureOf(v) || p in SignatureOf(EmptyArrays(v, steps))
    ensures p in SignatureOf(v)
    ensures VerdictOn(SignatureOf(v), SignatureOf(EmptyArrays(v, steps)))(p) ==
      if p == Render(steps) + "[]" || Render(steps) + "[]" in Ancestors(p) then NoRoom else Same
  {
    hide WellFormed, SignatureOf, VerdictOn, Ancestors, EmptyArrays;
    var cut := steps + [Element];
    RenderLast(cut);
    assert cut[..|steps|] == steps && WellFormedSteps(cut);
    EmptiedKeys(v, steps);
    var q: seq<Step>;
    if p in SignatureOf(v) {
      q := StepsOfPath(v, p);
    } else {
      q := StepsOfPath(EmptyArrays(v, steps), p);
    }
    EmptiedVerdict(v, steps, q);
    EnclosesIffPrefix(cut, q);
    assert cut <= q <==> cut < q || cut == q;
    if p == Render(cut) {
      WellFormedReadsBack(q);
      WellFormedReadsBack(cut);
      RenderIsInjective(q, cut);
    }
  }
}
