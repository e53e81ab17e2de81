/** Signature paths: how they are printed from keys and array steps, and how their
    enclosing paths are read back off the string. */
module Paths {
  import opened Text
  import opened Wrappers

  /** One step down a JSON tree: into a named field, or into an array's elements. */
  datatype Step = Key(name: string) | Element

  /** The path one step below `path`. */
  function Extend(path: string, step: Step): string {
    match step
    case Element => path + "[]"
    case Key(name) => if path == "" then name else path + "." + name
  }

  /** The path reached from `path` by walking `steps`. */
  function RenderFrom(path: string, steps: seq<Step>): string
    decreases |steps|
  {
    if steps == [] then path else RenderFrom(Extend(path, steps[0]), steps[1..])
  }

  function Render(steps: seq<Step>): string {
    RenderFrom("", steps)
  }

  /** Keys the printed form can be read back from. */
  predicate WellFormedKey(name: string) {
    name != "" && '.' !in name && !EndsWith(name, "[]")
  }

  /** Keys that leave the printed form readable below another step; an empty one does. */
  predicate ReadableStep(step: Step) {
    step.Key? ==> '.' !in step.name && !EndsWith(step.name, "[]")
  }

  predicate ReadableSteps(steps: seq<Step>) {
    forall step :: step in steps ==> ReadableStep(step)
  }

  predicate WellFormedStep(step: Step) {
    step.Key? ==> WellFormedKey(step.name)
  }

  predicate WellFormedSteps(steps: seq<Step>) {
    forall step :: step in steps ==> WellFormedStep(step)
  }

  /** The path that directly encloses `path`, read off the string. */
  function Parent(path: string): (r: Option<string>)
    ensures r.Some? ==> |r.value| < |path|
  {
    if EndsWith(path, "[]") then Some(path[..|path| - 2])
    else
      var dot := LastIndexOf(path, '.');
      if dot < 0 then None else Some(path[..dot])
  }

  /** Every enclosing path, innermost first. */
  function Ancestors(path: string): seq<string>
    decreases |path|
  {
    match Parent(path)
    case None => []
    case Some(outer) => [outer] + Ancestors(outer)
  }

  /** `_ancestors_of`: strips one step off the end of the string per turn. */
  method AncestorsOf(path: string) returns (ancestors: seq<string>)
    ensures ancestors == Ancestors(path)
  {
    ancestors := [];
    var rest := path;
    while true
      invariant Ancestors(path) == ancestors + Ancestors(rest)
      decreases |rest|
    {
      if EndsWith(rest, "[]") {
        rest := rest[..|rest| - 2];
      } else {
        var dot := LastIndexOf(rest, '.');
        if dot < 0 {
          return;
        }
        rest := rest[..dot];
      }
      ancestors := ancestors + [rest];
    }
  }

  lemma {:induction false} RenderFromSplit(path: string, front: seq<Step>, back: seq<Step>)
    ensures RenderFrom(path, front + back) == RenderFrom(RenderFrom(path, front), back)
    decreases |front|
  {
    if front == [] {
      assert front + back == back;
    } else {
      assert (front + back)[1..] == front[1..] + back;
      RenderFromSplit(Extend(path, front[0]), front[1..], back);
    }
  }

  lemma RenderLast(steps: seq<Step>)
    requires steps != []
    ensures Render(steps) == Extend(Render(steps[..|steps| - 1]), steps[|steps| - 1])
  {
    var front, last := steps[..|steps| - 1], steps[|steps| - 1];
    assert steps == front + [last];
    RenderFromSplit("", front, [last]);
  }

  lemma RenderOne(step: Step)
    ensures Render([step]) == Extend("", step)
  {
    RenderLast([step]);
    assert [step][..0] == [];
  }

  lemma {:induction false} PrintsSomething(steps: seq<Step>)
    requires steps != [] && steps[0] != Key("")
    ensures Render(steps) != ""
    decreases |steps|
  {
    RenderLast(steps);
    if |steps| > 1 {
      PrintsSomething(steps[..|steps| - 1]);
    }
  }

  /** An empty first key prints nothing at all. */
  lemma EmptyFirstKeyIsLost(rest: seq<Step>)
    ensures Render([Key("")] + rest) == Render(rest)
  {
    RenderFromSplit("", [Key("")], rest);
    RenderOne(Key(""));
  }

  lemma RenderIsEmptyOnlyAtTheRoot(steps: seq<Step>)
    requires WellFormedSteps(steps)
    ensures Render(steps) == "" <==> steps == []
  {
    if steps != [] {
      RenderLast(steps);
      assert steps[|steps| - 1] in steps;
    }
  }

  /** Taking one step and asking for the enclosing path comes back to where it was, exactly
      when the step is readable; a first key has no enclosing path. */
  lemma ParentOfExtend(path: string, step: Step)
    requires path != "" || step != Key("")
    ensures ReadableStep(step) <==>
      Parent(Extend(path, step)) == if step.Key? && path == "" then None else Some(path)
    ensures ReadableStep(step) ==> (EndsWith(Extend(path, step), "[]") <==> step.Element?)
  {
    var whole := Extend(path, step);
    if step.Element? {
      assert whole[|whole| - 2..] == "[]" && whole[..|whole| - 2] == path;
    } else if path != "" {
      KeyBelow(path, step.name);
    }
  }

  lemma KeyBelow(path: string, name: string)
    requires path != ""
    ensures var whole := path + "." + name;
      && (EndsWith(whole, "[]") <==> EndsWith(name, "[]"))
      && ('.' !in name && !EndsWith(name, "[]") <==> Parent(whole) == Some(path))
  {
    var whole := path + "." + name;
    assert whole == path + ['.'] + name;
    assert whole[|path|] == '.' && whole[..|path|] == path && whole[|path| + 1..] == name;
    if |name| >= 2 {
      assert whole[|whole| - 2..] == name[|name| - 2..];
    } else {
      assert whole[|whole| - 2..] != "[]" by {
        assert whole[|whole| - 1 - |name|] == '.';
        assert |name| == 0 ==> whole[|whole| - 2..][1] == '.';
        assert |name| == 1 ==> whole[|whole| - 2..][0] == '.';
      }
    }
    if '.' !in name {
      LastIndexAfterSeparator(path, '.', name);
    } else {
      LastIndexBeyond(path + ['.'], name);
    }
  }

  lemma {:induction false} LastIndexBeyond(head: string, tail: string)
    requires '.' in tail
    ensures LastIndexOf(head + tail, '.') >= |head|
  {
    var whole := head + tail;
    var shorter := tail[..|tail| - 1];
    assert whole[|whole| - 1] == tail[|tail| - 1] && tail == shorter + [tail[|tail| - 1]];
    if tail[|tail| - 1] != '.' {
      assert whole[..|whole| - 1] == head + shorter;
      LastIndexBeyond(head, shorter);
    }
  }

  /** The printed forms of the non-empty proper prefixes of `steps`, longest first. */
  function PrefixesInnermostFirst(steps: seq<Step>): seq<string> {
    if |steps| <= 1 then []
    else [Render(steps[..|steps| - 1])] + PrefixesInnermostFirst(steps[..|steps| - 1])
  }

  /** What reading the enclosing paths off a printed walk should give: the prints of its proper
      non-empty prefixes. Only a walk that starts at an array element also yields the empty
      path, last, and no signature has that path. */
  function EnclosingPrints(steps: seq<Step>): seq<string>
    requires steps != []
  {
    PrefixesInnermostFirst(steps) + if steps[0].Element? then [""] else []
  }

  /** It does give that exactly when no key of the walk holds a `.` or ends in `[]`. An empty
      first key prints nothing, so a walk is taken not to start with one. */
  lemma {:induction false} AncestorsArePrefixes(steps: seq<Step>)
    requires steps != [] && steps[0] != Key("")
    ensures Ancestors(Render(steps)) == EnclosingPrints(steps) <==> ReadableSteps(steps)
    decreases |steps|
  {
    var front, last := steps[..|steps| - 1], steps[|steps| - 1];
    assert steps == front + [last];
    RenderLast(steps);
    if front == [] {
      ParentOfExtend("", last);
      assert Ancestors("") == [];
    } else {
      PrintsSomething(front);
      ParentOfExtend(Render(front), last);
      AncestorsArePrefixes(front);
      EnclosingOneMore(steps);
      assert ReadableSteps(steps) <==> ReadableSteps(front) && ReadableStep(last);
      hide Render, EnclosingPrints, ReadableSteps, ReadableStep, Parent;
      AncestorsFromParent(Render(steps), Render(front), EnclosingPrints(front));
    }
  }

  lemma EnclosingOneMore(steps: seq<Step>)
    requires |steps| > 1
    ensures EnclosingPrints(steps) == [Render(steps[..|steps| - 1])] + EnclosingPrints(steps[..|steps| - 1])
  {
  }

  lemma AncestorsFromParent(path: string, outer: string, rest: seq<string>)
    ensures Ancestors(path) == [outer] + rest <==> Parent(path) == Some(outer) && Ancestors(outer) == rest
  {
    if Parent(path).Some? {
      var up := Parent(path).value;
      assert Ancestors(path) == [up] + Ancestors(up);
      assert ([up] + Ancestors(up))[0] == up && ([outer] + rest)[0] == outer;
      SameTails(outer, Ancestors(outer), rest);
    }
  }

  lemma SameTails(head: string, xs: seq<string>, ys: seq<string>)
    ensures [head] + xs == [head] + ys <==> xs == ys
  {
    assert ([head] + xs)[1..] == xs && ([head] + ys)[1..] == ys;
  }

  /** The same, one path at a time. */
  lemma {:induction false} AncestorIsProperPrefix(steps: seq<Step>, enclosing: string)
    requires WellFormedSteps(steps) && enclosing != ""
    ensures enclosing in Ancestors(Render(steps)) <==>
            exists n :: 0 < n < |steps| && enclosing == Render(steps[..n])
    decreases |steps|
  {
    if steps != [] {
      assert steps[0] in steps;
      assert ReadableSteps(steps);
      AncestorsArePrefixes(steps);
      PrefixMembership(steps, enclosing);
    }
  }

  lemma {:induction false} PrefixMembership(steps: seq<Step>, enclosing: string)
    ensures enclosing in PrefixesInnermostFirst(steps) <==>
            exists n :: 0 < n < |steps| && enclosing == Render(steps[..n])
    decreases |steps|
  {
    if |steps| > 1 {
      var front := steps[..|steps| - 1];
      PrefixMembership(front, enclosing);
      assert forall n :: 0 < n < |front| ==> front[..n] == steps[..n];
    }
  }

  /** A walk that prints something readable: empty keys are no harm below the first step. */
  predicate ReadsBack(steps: seq<Step>) {
    ReadableSteps(steps) && (steps != [] ==> steps[0] != Key(""))
  }

  lemma WellFormedReadsBack(steps: seq<Step>)
    requires WellFormedSteps(steps)
    ensures ReadsBack(steps)
  {
    assert steps != [] ==> steps[0] in steps;
  }

  /** Two such walks print the same only if they are the same walk. */
  lemma {:induction false} RenderIsInjective(a: seq<Step>, b: seq<Step>)
    requires ReadsBack(a) && ReadsBack(b)
    requires Render(a) == Render(b)
    ensures a == b
    decreases |a|
  {
    if a != [] {
      PrintsSomething(a);
    }
    if b != [] {
      PrintsSomething(b);
    }
    if a != [] {
      LastStep(a);
      LastStep(b);
      ExtendIsInjective(Render(a[..|a| - 1]), a[|a| - 1], Render(b[..|b| - 1]), b[|b| - 1]);
      RenderIsInjective(a[..|a| - 1], b[..|b| - 1]);
    }
  }

  lemma LastStep(steps: seq<Step>)
    requires ReadsBack(steps) && steps != []
    ensures var front, last := steps[..|steps| - 1], steps[|steps| - 1];
      && steps == front + [last] && ReadsBack(front) && ReadableStep(last)
      && Render(steps) == Extend(Render(front), last)
      && (Render(front) != "" || last != Key(""))
  {
    RenderLast(steps);
    if |steps| > 1 {
      PrintsSomething(steps[..|steps| - 1]);
    }
  }

  lemma ExtendIsInjective(p: string, s: Step, q: string, t: Step)
    requires ReadableStep(s) && (p != "" || s != Key(""))
    requires ReadableStep(t) && (q != "" || t != Key(""))
    requires Extend(p, s) == Extend(q, t)
    ensures p == q && s == t
  {
    ParentOfExtend(p, s);
    ParentOfExtend(q, t);
    if s.Key? {
      if p != "" { assert Extend(p, s)[|p| + 1..] == s.name; }
      if q != "" { assert Extend(q, t)[|q| + 1..] == t.name; }
    }
  }

  /** A single key is read back as a top-level path exactly when it has no `.` and does
      not end in `[]`. */
  lemma TopLevelKeyHasNoAncestors(name: string)
    ensures Ancestors(Render([Key(name)])) == [] <==> '.' !in name && !EndsWith(name, "[]")
  {
    RenderOne(Key(name));
  }

  /** Without the condition on keys two different walks can print alike. */
  lemma IllFormedKeysCollide(a: string, b: string)
    requires a != ""
    ensures Render([Key(a + "." + b)]) == Render([Key(a), Key(b)])
    ensures Render([Key(a + "[]")]) == Render([Key(a), Element])
    ensures Render([Key(""), Key(a)]) == Render([Key(a)])
  {
    RenderLast([Key(a), Key(b)]);
    RenderLast([Key(a), Element]);
    RenderLast([Key(""), Key(a)]);
    assert [Key(a), Key(b)][..1] == [Key(a)] == [Key(a), Element][..1];
    assert [Key(""), Key(a)][..1] == [Key("")];
    RenderOne(Key(a + "." + b));
    RenderOne(Key(a + "[]"));
    RenderOne(Key(a));
    RenderOne(Key(""));
  }

  /** Enclosing paths are enclosed by the rest of the list: what encloses an ancestor
      encloses the path, for every string. */
  lemma {:induction false} AncestorsAreTransitive(path: string, middle: string, outer: string)
    requires middle in Ancestors(path) && outer in Ancestors(middle)
    ensures outer in Ancestors(path)
    decreases |path|
  {
    var up := Parent(path).value;
    if middle != up {
      AncestorsAreTransitive(up, middle, outer);
    }
  }

  lemma {:induction false} AncestorsAreShorter(path: string, outer: string)
    requires outer in Ancestors(path)
    ensures |outer| < |path|
    decreases |path|
  {
    var up := Parent(path).value;
    if outer != up {
      AncestorsAreShorter(up, outer);
    }
  }

  /** Of two paths that enclose the same path, one encloses the other. */
  lemma {:induction false} AncestorsFormAChain(path: string, a: string, b: string)
    requires a in Ancestors(path) && b in Ancestors(path)
    ensures a == b || a in Ancestors(b) || b in Ancestors(a)
    decreases |path|
  {
    var up := Parent(path).value;
    if a != up && b != up {
      AncestorsFormAChain(up, a, b);
    }
  }
}
