/** What it means, for the signature of an actual value, that a path had nowhere to be. */
module Reachability {
  import opened Text
  import opened Paths
  import opened Json
  import opened Signatures
  import opened Diffs

  /** Below an unreachable path everything is unreachable, for every signature. */
  lemma {:induction false} UnreachabilityPassesDown(path: string, outer: string, observed: Signature)
    requires outer in Ancestors(path) && Unreachable(outer, observed)
    ensures Unreachable(path, observed)
  {
    var closed :| closed in Ancestors(outer) && Closes(closed, observed);
    AncestorsAreTransitive(path, outer, closed);
  }

  /** A path that is present tells the form of what encloses it: a key below it means an
      object, an element means an array. */
  lemma SignaturesAreAncestorClosed(v: Json, steps: seq<Step>, last: Step)
    requires WellFormed(v) && steps != []
    requires NodesAt(v, steps + [last]) != {}
    ensures WellFormedSteps(steps + [last])
    ensures Render(steps + [last]) in SignatureOf(v) && Render(steps) in SignatureOf(v)
    ensures (if last.Element? then "array" else "object") in TokenSet(SignatureOf(v), Render(steps))
  {
    var whole := steps + [last];
    assert forall step :: step in steps ==> step in whole;
    hide SignatureOf, TokenSet, Render, WellFormed, NodesAt, TokensAt;
    WalksOfWellFormedValues(v, whole);
    SignatureAtSteps(v, whole);
    SignatureAtSteps(v, steps);
    FormOfParent(v, steps, last);
  }

  lemma FormOfParent(v: Json, steps: seq<Step>, last: Step)
    requires NodesAt(v, steps + [last]) != {}
    ensures NodesAt(v, steps) != {}
    ensures (if last.Element? then "array" else "object") in TokensAt(v, steps)
  {
    var w :| w in NodesAt(v, steps + [last]);
    hide NodesAt;
    NodesOneFurther(v, steps, last);
    var u, c :| u in NodesAt(v, steps) && c in Children(u, last) && c == w;
    assert TokenFor(u) in TokensAt(v, steps);
  }

  ghost predicate EmptyArrayBesideObject(signature: Signature, path: string) {
    path in signature && {"array", "object"} <= TokenSet(signature, path) && path + "[]" !in signature
  }

  /** A path that is present can still be called unreachable, but only below a path that is
      seen both as an object and as an array that is always empty. */
  lemma {:induction false} PresentYetUnreachable(v: Json, path: string)
    requires WellFormed(v) && path in SignatureOf(v)
    ensures Unreachable(path, SignatureOf(v)) <==>
            exists outer :: outer in Ancestors(path) && EmptyArrayBesideObject(SignatureOf(v), outer)
  {
    var signature := SignatureOf(v);
    var steps := StepsOfPath(v, path);
    forall outer | outer in Ancestors(path)
      ensures Closes(outer, signature) <==> EmptyArrayBesideObject(signature, outer)
    {
      if outer == "" {
        EmptyPathIsNowhere(v);
      } else {
        AncestorIsProperPrefix(steps, outer);
        var n :| 0 < n < |steps| && outer == Render(steps[..n]);
        EnclosingForm(v, steps, n);
      }
    }
  }

  lemma EnclosingForm(v: Json, steps: seq<Step>, n: nat)
    requires WellFormed(v) && 0 < n < |steps| && NodesAt(v, steps) != {}
    ensures var signature, outer := SignatureOf(v), Render(steps[..n]);
      Closes(outer, signature) <==> EmptyArrayBesideObject(signature, outer)
  {
    hide SignatureOf, TokenSet, Render, WellFormed, Closes, EmptyArrayBesideObject, NodesAt;
    var front, step := steps[..n], steps[n];
    var w :| w in NodesAt(v, steps);
    assert steps == (front + [step]) + steps[n + 1..];
    NodesBelow(v, front + [step], steps[n + 1..], w);
    SignaturesAreAncestorClosed(v, front, step);
    RenderLast(front + [step]);
    assert (front + [step])[..n] == front;
    FormWithAChild(SignatureOf(v), Render(front), step);
  }

  lemma FormWithAChild(signature: Signature, outer: string, step: Step)
    requires outer in signature && Extend(outer, step) in signature
    requires (if step.Element? then "array" else "object") in TokenSet(signature, outer)
    ensures Closes(outer, signature) <==> EmptyArrayBesideObject(signature, outer)
  {
    assert forall t :: t in TokenSet(signature, outer) <==> t in Split(signature[outer], '|');
  }

  /** So where no path is seen both ways, being called unreachable means being absent. */
  lemma {:induction false} UnreachableMeansAbsent(v: Json, path: string)
    requires WellFormed(v)
    requires forall p :: p in SignatureOf(v) ==> !({"array", "object"} <= TokenSet(SignatureOf(v), p))
    requires Unreachable(path, SignatureOf(v))
    ensures path !in SignatureOf(v)
  {
    if path in SignatureOf(v) {
      PresentYetUnreachable(v, path);
    }
  }

  /** At this walk the value is only ever null, or somewhere an array and always an empty one. */
  ghost predicate NoRoomAt(v: Json, steps: seq<Step>) {
    TokensAt(v, steps) != {} &&
    (TokensAt(v, steps) <= {"null"} || ("array" in TokensAt(v, steps) && NodesAt(v, steps + [Element]) == {}))
  }

  lemma ClosesIffNoRoom(v: Json, steps: seq<Step>)
    requires WellFormed(v) && WellFormedSteps(steps) && steps != []
    ensures Closes(Render(steps), SignatureOf(v)) <==> NoRoomAt(v, steps)
  {
    SignatureAtSteps(v, steps);
    SignatureAtSteps(v, steps + [Element]);
    RenderLast(steps + [Element]);
    assert (steps + [Element])[..|steps|] == steps;
    PresentWhenTokens(v, steps);
    hide SignatureOf, TokensAt, NodesAt, Render, WellFormed, Closes, TokenSet;
    if Render(steps) in SignatureOf(v) {
      ClosesOnTokens(Render(steps), SignatureOf(v));
    } else {
      ClosesOnlyPresent(Render(steps), SignatureOf(v));
    }
  }

  lemma ClosesOnTokens(path: string, signature: Signature)
    requires path in signature
    ensures Closes(path, signature) <==>
      TokenSet(signature, path) <= {"null"} || ("array" in TokenSet(signature, path) && path + "[]" !in signature)
  {
    assert forall t :: t in TokenSet(signature, path) <==> t in Split(signature[path], '|');
  }

  lemma ClosesOnlyPresent(path: string, signature: Signature)
    requires path !in signature
    ensures !Closes(path, signature)
  {
  }

  lemma PresentWhenTokens(v: Json, steps: seq<Step>)
    ensures TokensAt(v, steps) != {} <==> NodesAt(v, steps) != {}
  {
    if w :| w in NodesAt(v, steps) {
      assert TokenFor(w) in TokensAt(v, steps);
    }
  }

  /** Walking up the string and looking paths up in the signature answers a question about the
      value itself: whether some proper prefix of the walk leads only to nulls, or to an array
      none of whose occurrences has an element. */
  lemma {:induction false} UnreachableIffNoRoomAbove(v: Json, steps: seq<Step>)
    requires WellFormed(v) && WellFormedSteps(steps)
    ensures Unreachable(Render(steps), SignatureOf(v)) <==>
      exists n :: 0 < n < |steps| && NoRoomAt(v, steps[..n])
  {
    assert forall n, step :: 0 < n < |steps| && step in steps[..n] ==> step in steps;
    EmptyPathIsNowhere(v);
    hide Closes, SignatureOf, Render, Ancestors, NoRoomAt, WellFormed;
    if Unreachable(Render(steps), SignatureOf(v)) {
      var outer :| outer in Ancestors(Render(steps)) && Closes(outer, SignatureOf(v));
      AncestorIsProperPrefix(steps, outer);
      var n :| 0 < n < |steps| && outer == Render(steps[..n]);
      ClosesIffNoRoom(v, steps[..n]);
    }
    if n :| 0 < n < |steps| && NoRoomAt(v, steps[..n]) {
      ClosesIffNoRoom(v, steps[..n]);
      RenderIsEmptyOnlyAtTheRoot(steps[..n]);
      AncestorIsProperPrefix(steps, Render(steps[..n]));
    }
  }

  lemma EmptyPathIsNowhere(v: Json)
    ensures "" !in SignatureOf(v) && !Closes("", SignatureOf(v))
  {
    SignatureTokens(v, "");
    forall t ensures t !in TokensOn(Sightings(v, ""), "") {
      SightingTokens(v, "", t);
    }
    assert TokensOn(Sightings(v, ""), "") == {};
  }

  const INNER := Object([Field("b", Null)])
  const LIST := Array([Array([]), INNER])
  const MIXED := Object([Field("a", LIST)])

  lemma OnlyField(name: string, value: Json)
    ensures Children(Object([Field(name, value)]), Key(name)) == [value]
  {
    var fields := [Field(name, value)];
    assert fields[1..] == [];
    assert FieldValues(fields, name) == [value] + FieldValues(fields[1..], name);
  }

  lemma OnlyNodeFurther(v: Json, front: seq<Step>, u: Json, step: Step)
    requires NodesAt(v, front) == {u}
    ensures NodesAt(v, front + [step]) == set c | c in Children(u, step)
  {
    NodesOneFurther(v, front, step);
  }

  lemma MixedIsWellFormed()
    ensures WellFormed(MIXED)
  {
    assert WellFormed(INNER);
    assert WellFormed(LIST);
  }

  lemma ElementsOfMixed()
    ensures WellFormed(MIXED)
    ensures NodesAt(MIXED, [Key("a"), Element]) == {Array([]), INNER}
  {
    MixedIsWellFormed();
    OnlyField("a", LIST);
    assert NodesAt(MIXED, []) == {MIXED};
    hide NodesAt, WellFormed, FieldValues;
    OnlyNodeFurther(MIXED, [], MIXED, Key("a"));
    assert [] + [Key("a")] == [Key("a")] && [Key("a")] + [Element] == [Key("a"), Element];
    assert NodesAt(MIXED, [Key("a")]) == {LIST};
    OnlyNodeFurther(MIXED, [Key("a")], LIST, Element);
  }

  lemma NodesOfMixed()
    ensures NodesAt(MIXED, [Key("a"), Element, Key("b")]) != {}
    ensures NodesAt(MIXED, [Key("a"), Element, Element]) == {}
  {
    ElementsOfMixed();
    var front := [Key("a"), Element];
    OnlyField("b", Null);
    NodesOneFurther(MIXED, front, Key("b"));
    NodesOneFurther(MIXED, front, Element);
    hide NodesAt, FieldValues;
    assert INNER in NodesAt(MIXED, front) && Null in Children(INNER, Key("b"));
    assert Null in NodesAt(MIXED, front + [Key("b")]);
    assert front + [Key("b")] == [Key("a"), Element, Key("b")] && front + [Element] == [Key("a"), Element, Element];
    assert forall u, c :: u in NodesAt(MIXED, front) && c in Children(u, Element) ==> false;
  }

  lemma PathsOfMixed()
    ensures Render([Key("a"), Element]) == "a[]"
    ensures Render([Key("a"), Element, Key("b")]) == "a[].b"
    ensures Render([Key("a"), Element, Element]) == "a[]" + "[]"
    ensures "a[]" in Ancestors("a[].b")
  {
    var a, b := Key("a"), Key("b");
    hide RenderFrom, Render, Ancestors, Parent;
    RenderOne(a);
    RenderAfter([a], Element);
    RenderAfter([a, Element], b);
    RenderAfter([a, Element], Element);
    assert [a] + [Element] == [a, Element];
    assert [a, Element] + [b] == [a, Element, b] && [a, Element] + [Element] == [a, Element, Element];
    BeforeTheDot();
  }

  lemma RenderAfter(front: seq<Step>, last: Step)
    ensures Render(front + [last]) == Extend(Render(front), last)
  {
    RenderLast(front + [last]);
    assert (front + [last])[..|front|] == front;
  }

  lemma BeforeTheDot()
    ensures "a[]" in Ancestors("a[].b")
  {
    hide Ancestors;
    ParentOfExtend("a[]", Key("b"));
    assert Extend("a[]", Key("b")) == "a[].b";
    AncestorsFromParent("a[].b", "a[]", Ancestors("a[]"));
    assert ["a[]"] + Ancestors("a[]") == Ancestors("a[].b");
  }

  lemma MixedSteps()
    ensures WellFormedSteps([Key("a"), Element]) && WellFormedSteps([Key("a"), Element, Key("b")])
    ensures WellFormedSteps([Key("a"), Element, Element])
  {
  }

  /** A value on which the exception shows: one element is an empty list, another an object
      whose field is present and yet called unreachable. */
  lemma MixedElementsHideAField()
    ensures WellFormed(MIXED) && "a[].b" in SignatureOf(MIXED) && Unreachable("a[].b", SignatureOf(MIXED))
  {
    hide WellFormed, Render, Ancestors, Closes, Unreachable, NodesAt, SignatureOf, WellFormedSteps;
    ElementsOfMixed();
    NodesOfMixed();
    PathsOfMixed();
    MixedSteps();
    SignatureAtSteps(MIXED, [Key("a"), Element]);
    SignatureAtSteps(MIXED, [Key("a"), Element, Key("b")]);
    SignatureAtSteps(MIXED, [Key("a"), Element, Element]);
    assert TokenFor(INNER) in TokensAt(MIXED, [Key("a"), Element]);
    assert TokenFor(Array([])) in TokensAt(MIXED, [Key("a"), Element]);
    assert EmptyArrayBesideObject(SignatureOf(MIXED), "a[]");
    PresentYetUnreachable(MIXED, "a[].b");
  }
}
