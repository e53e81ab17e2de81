/** The signature of a JSON value: every path in it, with the tokens seen there. */
module Signatures {
  import opened Text
  import opened Sorting
  import opened Paths
  import opened Json

  /** Path to the sorted tokens seen there, joined by `|`. */
  type Signature = map<string, string>

  /** One token seen at one path. */
  datatype Sighting = Sighting(path: string, token: string)

  /** Everything collected from `v` when it sits at `path`. */
  ghost function Sightings(v: Json, path: string): set<Sighting>
    decreases v
  {
    (if path == "" then {} else {Sighting(path, TokenFor(v))}) +
    match v
    case Array(items) =>
      (set c, s | c in items && s in Sightings(c, path + "[]") :: s)
    case Object(fields) =>
      (set f, s | f in fields && s in Sightings(f.value, Extend(path, Key(f.key))) :: s)
    case _ => {}
  }

  ghost function TokensOn(seen: set<Sighting>, path: string): set<string> {
    set s | s in seen && s.path == path :: s.token
  }

  /** `"|".join(sorted(tokens))` */
  ghost function JoinTokens(tokens: set<string>): string {
    Join(Listing(tokens, Itself), '|')
  }

  ghost function Flatten(seen: set<Sighting>): Signature {
    map path | path in (set s | s in seen :: s.path) :: JoinTokens(TokensOn(seen, path))
  }

  ghost function SignatureOf(v: Json): Signature {
    Flatten(Sightings(v, ""))
  }

  /** The dictionary of token sets that the walk fills in place. */
  class TokenTable {
    var tokens: map<string, set<string>>

    ghost predicate Valid() reads this {
      forall path :: path in tokens ==> tokens[path] != {}
    }

    ghost function Contents(): set<Sighting> reads this {
      set path, token | path in tokens && token in tokens[path] :: Sighting(path, token)
    }

    constructor ()
      ensures Valid() && Contents() == {}
    {
      tokens := map[];
    }

    method Record(path: string, token: string)
      requires Valid()
      modifies this
      ensures Valid() && Contents() == old(Contents()) + {Sighting(path, token)}
    {
      var known := if path in tokens then tokens[path] else {};
      tokens := tokens[path := known + {token}];
      assert forall s :: s in Contents() <==> s in old(Contents()) || s == Sighting(path, token);
    }

    /** `_collect` */
    method Collect(v: Json, path: string)
      requires Valid()
      modifies this
      ensures Valid() && Contents() == old(Contents()) + Sightings(v, path)
      decreases v
    {
      hide Valid, Contents, Sightings, SightingsOfItems, SightingsOfFields;
      SightingsByKind(v, path);
      if path != "" {
        Record(path, TokenFor(v));
      }
      ghost var start := Contents();
      if v.Array? {
        for i := 0 to |v.items|
          invariant Valid() && Contents() == start + SightingsOfItems(v.items[..i], path + "[]")
        {
          OneMoreItem(v.items, i, path + "[]");
          Collect(v.items[i], path + "[]");
        }
        assert v.items[..|v.items|] == v.items;
        return;
      }
      if v.Object? {
        for i := 0 to |v.fields|
          invariant Valid() && Contents() == start + SightingsOfFields(v.fields[..i], path)
        {
          OneMoreField(v.fields, i, path);
          Collect(v.fields[i].value, Extend(path, Key(v.fields[i].key)));
        }
        assert v.fields[..|v.fields|] == v.fields;
      }
    }
  }

  ghost function SightingsOfItems(items: seq<Json>, path: string): set<Sighting> {
    set c, s | c in items && s in Sightings(c, path) :: s
  }

  ghost function SightingsOfFields(fields: seq<Field>, path: string): set<Sighting> {
    set f, s | f in fields && s in Sightings(f.value, Extend(path, Key(f.key))) :: s
  }

  lemma SightingsByKind(v: Json, path: string)
    ensures Sightings(v, path) == (if path == "" then {} else {Sighting(path, TokenFor(v))}) +
      (if v.Array? then SightingsOfItems(v.items, path + "[]")
       else if v.Object? then SightingsOfFields(v.fields, path) else {})
    ensures SightingsOfItems([], path + "[]") == {} && SightingsOfFields([], path) == {}
  {
    forall s ensures s in Sightings(v, path) <==>
      (path != "" && s == Sighting(path, TokenFor(v))) ||
      (v.Array? && s in SightingsOfItems(v.items, path + "[]")) ||
      (v.Object? && s in SightingsOfFields(v.fields, path))
    {
    }
  }

  lemma OneMoreItem(items: seq<Json>, i: nat, path: string)
    requires i < |items|
    ensures SightingsOfItems(items[..i + 1], path) == SightingsOfItems(items[..i], path) + Sightings(items[i], path)
  {
    assert forall c :: c in items[..i + 1] <==> c in items[..i] || c == items[i];
  }

  lemma OneMoreField(fields: seq<Field>, i: nat, path: string)
    requires i < |fields|
    ensures SightingsOfFields(fields[..i + 1], path) ==
      SightingsOfFields(fields[..i], path) + Sightings(fields[i].value, Extend(path, Key(fields[i].key)))
  {
    assert forall f :: f in fields[..i + 1] <==> f in fields[..i] || f == fields[i];
  }

  /** `signature_of` */
  method BuildSignature(v: Json) returns (signature: Signature)
    ensures signature == SignatureOf(v)
  {
    hide Flatten, JoinTokens;
    var table := new TokenTable();
    table.Collect(v, "");
    signature := JoinEach(table.tokens);
    FlattenTable(table.tokens, Sightings(v, ""));
  }

  method JoinEach(tokens: map<string, set<string>>) returns (signature: Signature)
    ensures signature.Keys == tokens.Keys
    ensures forall path :: path in tokens ==> signature[path] == JoinTokens(tokens[path])
  {
    signature := map[];
    while tokens.Keys - signature.Keys != {}
      invariant signature.Keys <= tokens.Keys
      invariant forall path :: path in signature ==> signature[path] == JoinTokens(tokens[path])
      decreases tokens.Keys - signature.Keys
    {
      var path :| path in tokens.Keys - signature.Keys;
      var sorted := SortedStrings(tokens[path]);
      signature := signature[path := Join(sorted, '|')];
    }
    assert forall path :: path in tokens ==> path !in tokens.Keys - signature.Keys;
  }

  lemma FlattenTable(tokens: map<string, set<string>>, seen: set<Sighting>)
    requires forall path :: path in tokens ==> tokens[path] != {}
    requires seen == set path, token | path in tokens && token in tokens[path] :: Sighting(path, token)
    ensures Flatten(seen).Keys == tokens.Keys
    ensures forall path :: path in tokens ==> Flatten(seen)[path] == JoinTokens(tokens[path])
  {
    forall path ensures path in Flatten(seen) <==> path in tokens {
      if path in tokens {
        var token :| token in tokens[path];
        assert Sighting(path, token) in seen;
      }
    }
    forall path | path in tokens ensures TokensOn(seen, path) == tokens[path] {
      forall token ensures token in TokensOn(seen, path) <==> token in tokens[path] {
        assert token in tokens[path] ==> Sighting(path, token) in seen;
      }
    }
  }

  ghost predicate NodeSeen(v: Json, path: string, p: string, t: string) {
    exists steps :: RenderFrom(path, steps) == p && t in TokensAt(v, steps)
  }

  /** What is collected is exactly the tokens of the nodes, under the printed walks that
      reach them. */
  lemma SightingsAreNodes(v: Json, path: string, p: string, t: string)
    ensures Sighting(p, t) in Sightings(v, path) <==> p != "" && NodeSeen(v, path, p, t)
  {
    if Sighting(p, t) in Sightings(v, path) {
      SightingIsNode(v, path, p, t);
    }
    if p != "" && NodeSeen(v, path, p, t) {
      var steps: seq<Step> :| RenderFrom(path, steps) == p && t in TokensAt(v, steps);
      NodeIsSighted(v, path, steps, t);
    }
  }

  lemma {:induction false} SightingIsNode(v: Json, path: string, p: string, t: string)
    requires Sighting(p, t) in Sightings(v, path)
    ensures p != "" && NodeSeen(v, path, p, t)
    decreases v
  {
    if path != "" && p == path && t == TokenFor(v) {
      assert v in NodesAt(v, []);
      assert RenderFrom(path, []) == p && t in TokensAt(v, []);
    } else {
      match v
      case Array(items) =>
        var c :| c in items && Sighting(p, t) in Sightings(c, path + "[]");
        SightingIsNode(c, path + "[]", p, t);
        WalkFromChild(v, path, Element, c, p, t);
      case Object(fields) =>
        var f :| f in fields && Sighting(p, t) in Sightings(f.value, Extend(path, Key(f.key)));
        SightingIsNode(f.value, Extend(path, Key(f.key)), p, t);
        WalkFromChild(v, path, Key(f.key), f.value, p, t);
    }
  }

  lemma {:induction false} NodeIsSighted(v: Json, path: string, steps: seq<Step>, t: string)
    requires RenderFrom(path, steps) != "" && t in TokensAt(v, steps)
    ensures Sighting(RenderFrom(path, steps), t) in Sightings(v, path)
    decreases |steps|
  {
    if steps != [] {
      var w :| w in NodesAt(v, steps) && TokenFor(w) == t;
      var c :| c in Children(v, steps[0]) && w in NodesAt(c, steps[1..]);
      assert t in TokensAt(c, steps[1..]);
      NodeIsSighted(c, Extend(path, steps[0]), steps[1..], t);
      if steps[0].Key? {
        var f :| f in v.fields && f.key == steps[0].name && f.value == c;
      }
    }
  }

  lemma WalkFromChild(v: Json, path: string, step: Step, c: Json, p: string, t: string)
    requires c in Children(v, step) && NodeSeen(c, Extend(path, step), p, t)
    ensures NodeSeen(v, path, p, t)
  {
    var rest: seq<Step> :| RenderFrom(Extend(path, step), rest) == p && t in TokensAt(c, rest);
    var steps := [step] + rest;
    assert steps[0] == step && steps[1..] == rest;
    TokenOfChild(v, steps, c, t);
    assert RenderFrom(path, steps) == p;
  }

  /** The token set a signature holds for a path, or none. */
  ghost function TokenSet(signature: Signature, path: string): set<string> {
    if path in signature then set t | t in Split(signature[path], '|') else {}
  }

  lemma JoinTokensRoundTrip(tokens: set<string>)
    requires tokens != {} && forall t :: t in tokens ==> '|' !in t
    ensures Split(JoinTokens(tokens), '|') == Listing(tokens, Itself)
    ensures (set t | t in Split(JoinTokens(tokens), '|')) == tokens
  {
    SplitJoin(Listing(tokens, Itself), '|');
  }

  /** A signature stores, for each path, exactly the tokens of the nodes whose walk prints
      as that path. No condition on the keys. */
  lemma SignatureHoldsNodeTokens(v: Json, path: string, t: string)
    ensures t in TokenSet(SignatureOf(v), path) <==> path != "" && NodeSeen(v, "", path, t)
  {
    SightingsAreNodes(v, "", path, t);
    SignatureTokens(v, path);
    assert t in TokensOn(Sightings(v, ""), path) <==> Sighting(path, t) in Sightings(v, "");
  }

  lemma SignatureTokens(v: Json, path: string)
    ensures TokenSet(SignatureOf(v), path) == TokensOn(Sightings(v, ""), path)
    ensures path in SignatureOf(v) <==> TokensOn(Sightings(v, ""), path) != {}
    ensures path in SignatureOf(v) ==>
      SignatureOf(v)[path] == JoinTokens(TokensOn(Sightings(v, ""), path))
  {
    var seen := Sightings(v, "");
    var tokens := TokensOn(seen, path);
    assert forall s :: s in seen && s.path == path ==> s.token in tokens;
    assert forall t :: t in tokens ==> Sighting(path, t) in seen;
    forall t | t in tokens ensures '|' !in t {
      TokensArePipeFree(v, path, t);
    }
    if path in SignatureOf(v) {
      var s :| s in seen && s.path == path;
      assert s.token in tokens;
      JoinTokensRoundTrip(tokens);
    }
  }

  lemma TokensArePipeFree(v: Json, path: string, t: string)
    requires t in TokensOn(Sightings(v, ""), path)
    ensures '|' !in t
  {
    SightingTokens(v, path, t);
  }

  /** With well-formed keys each path stands for one walk, so the stored token is the joined
      tokens of the nodes there. */
  lemma {:induction false} SignatureAtSteps(v: Json, steps: seq<Step>)
    requires WellFormed(v) && WellFormedSteps(steps) && steps != []
    ensures Render(steps) in SignatureOf(v) <==> NodesAt(v, steps) != {}
    ensures Render(steps) in SignatureOf(v) ==> SignatureOf(v)[Render(steps)] == JoinTokens(TokensAt(v, steps))
    ensures TokenSet(SignatureOf(v), Render(steps)) == TokensAt(v, steps)
  {
    var path := Render(steps);
    var tokens := TokensOn(Sightings(v, ""), path);
    RenderIsEmptyOnlyAtTheRoot(steps);
    forall t ensures t in tokens <==> t in TokensAt(v, steps) {
      SightingTokens(v, path, t);
      if t in TokensAt(v, steps) {
        assert RenderFrom("", steps) == path;
      }
      if t in tokens {
        var other :| RenderFrom("", other) == path && t in TokensAt(v, other);
        WalksOfWellFormedValues(v, other);
        WellFormedReadsBack(other);
        WellFormedReadsBack(steps);
        RenderIsInjective(other, steps);
      }
    }
    assert tokens == TokensAt(v, steps);
    if w :| w in NodesAt(v, steps) {
      assert TokenFor(w) in TokensAt(v, steps);
    }
    SignatureTokens(v, path);
  }

  /** What the tokens stored for a walk say about the values there: a token is there exactly
      when some value there is of the kind it names. */
  lemma {:induction false} TokensTellKinds(v: Json, steps: seq<Step>, token: string)
    requires WellFormed(v) && WellFormedSteps(steps) && steps != [] && !("digits:" <= token)
    ensures token in TokenSet(SignatureOf(v), Render(steps)) <==> exists u :: u in NodesAt(v, steps) && Claims(token, u)
  {
    SignatureAtSteps(v, steps);
    hide SignatureOf, TokenSet, Render, WellFormed, NodesAt, Claims;
    if token in TokensAt(v, steps) {
      var u :| u in NodesAt(v, steps) && TokenFor(u) == token;
      TokenClaimsItsValue(u, u);
    }
    if u :| u in NodesAt(v, steps) && Claims(token, u) {
      ClaimedToken(token, u);
      assert TokenFor(u) in TokensAt(v, steps);
    }
  }

  /** The digits tokens are those of the strings of digit groups there, the lengths of the
      groups being read off them. */
  lemma {:induction false} DigitsTokensTellGroups(v: Json, steps: seq<Step>, lengths: seq<int>)
    requires WellFormed(v) && WellFormedSteps(steps) && steps != []
    ensures var tokens, nodes := TokenSet(SignatureOf(v), Render(steps)), NodesAt(v, steps);
      (exists t :: t in tokens && "digits:" <= t && ReadLengths(t[7..]) == lengths) <==>
      (exists u :: u in nodes && IsDigits(u) && u.form.groups == lengths)
  {
    SignatureAtSteps(v, steps);
    hide SignatureOf, TokenSet, Render, WellFormed, NodesAt, ReadLengths;
    if t :| t in TokensAt(v, steps) && "digits:" <= t && ReadLengths(t[7..]) == lengths {
      var u :| u in NodesAt(v, steps) && TokenFor(u) == t;
      DigitsToken(u);
    }
    if u :| u in NodesAt(v, steps) && IsDigits(u) && u.form.groups == lengths {
      DigitsToken(u);
      assert TokenFor(u) in TokensAt(v, steps);
    }
  }

  /** With well-formed keys, every path of a signature is the print of a walk. */
  lemma StepsOfPath(v: Json, path: string) returns (steps: seq<Step>)
    requires WellFormed(v) && path in SignatureOf(v)
    ensures steps != [] && WellFormedSteps(steps) && Render(steps) == path && NodesAt(v, steps) != {}
  {
    SignatureTokens(v, path);
    var t :| t in TokensOn(Sightings(v, ""), path);
    SightingTokens(v, path, t);
    steps :| RenderFrom("", steps) == path && t in TokensAt(v, steps);
    WalksOfWellFormedValues(v, steps);
  }

  /** A signature depends only on which tokens sit where. */
  lemma SameTokensSameSignature(v: Json, w: Json)
    requires forall steps :: TokensAt(v, steps) == TokensAt(w, steps)
    ensures SignatureOf(v) == SignatureOf(w)
  {
    forall s: Sighting ensures s in Sightings(v, "") <==> s in Sightings(w, "") {
      SightingsAreNodes(v, "", s.path, s.token);
      SightingsAreNodes(w, "", s.path, s.token);
    }
    assert Sightings(v, "") == Sightings(w, "");
  }

  // Arrays merge: a batch describes one record shape.

  ghost function Merge(a: Signature, b: Signature): Signature {
    map path | path in a.Keys + b.Keys :: JoinTokens(TokenSet(a, path) + TokenSet(b, path))
  }

  /** `v` with every node at `steps` replaced by `c`. */
  function Put(v: Json, steps: seq<Step>, c: Json): Json {
    Edit(v, steps, _ => c)
  }

  lemma PutTokens(v: Json, steps: seq<Step>, c: Json, q: seq<Step>, t: string)
    ensures t in TokensAt(Put(v, steps, c), q) <==>
            if steps <= q
            then NodesAt(v, steps) != {} && t in TokensAt(c, q[|steps|..])
            else t in TokensAt(v, q)
  {
    var f := _ => c;
    if steps <= q {
      var rest := q[|steps|..];
      assert q == steps + rest;
      forall w ensures w in NodesAt(Put(v, steps, c), q) <==>
                       NodesAt(v, steps) != {} && w in NodesAt(c, rest)
      {
        EditedNodes(v, steps, f, rest, w);
        if NodesAt(v, steps) != {} {
          var u :| u in NodesAt(v, steps);
          assert f(u) == c;
        }
      }
    } else {
      UneditedTokens(v, steps, f, q, t);
    }
  }

  ghost predicate NodesMerge(both: Json, left: Json, right: Json) {
    forall q, t :: t in TokensAt(both, q) <==> t in TokensAt(left, q) || t in TokensAt(right, q)
  }

  lemma PutArrayTokens(v: Json, steps: seq<Step>, xs: seq<Json>, ys: seq<Json>)
    ensures NodesMerge(Put(v, steps, Array(xs + ys)), Put(v, steps, Array(xs)), Put(v, steps, Array(ys)))
  {
    hide TokensAt, Put;
    forall q, t
      ensures t in TokensAt(Put(v, steps, Array(xs + ys)), q) <==>
              t in TokensAt(Put(v, steps, Array(xs)), q) || t in TokensAt(Put(v, steps, Array(ys)), q)
    {
      PutTokens(v, steps, Array(xs + ys), q, t);
      PutTokens(v, steps, Array(xs), q, t);
      PutTokens(v, steps, Array(ys), q, t);
      if steps <= q {
        ArrayTokens(xs, ys, q[|steps|..], t);
      }
    }
  }

  lemma SightedTokensMerge(both: Json, left: Json, right: Json, path: string)
    requires NodesMerge(both, left, right)
    ensures TokensOn(Sightings(both, ""), path) ==
            TokensOn(Sightings(left, ""), path) + TokensOn(Sightings(right, ""), path)
  {
    forall t ensures t in TokensOn(Sightings(both, ""), path) <==>
                     t in TokensOn(Sightings(left, ""), path) + TokensOn(Sightings(right, ""), path)
    {
      SightingTokens(both, path, t);
      SightingTokens(left, path, t);
      SightingTokens(right, path, t);
    }
  }

  lemma SignaturesMerge(both: Json, left: Json, right: Json)
    requires NodesMerge(both, left, right)
    ensures SignatureOf(both) == Merge(SignatureOf(left), SignatureOf(right))
  {
    hide NodesMerge, Sightings, TokensOn, SignatureOf, TokenSet;
    forall path ensures path in SignatureOf(both) <==> path in SignatureOf(left) || path in SignatureOf(right)
      ensures path in SignatureOf(both) ==>
        SignatureOf(both)[path] == JoinTokens(TokenSet(SignatureOf(left), path) + TokenSet(SignatureOf(right), path))
    {
      SightedTokensMerge(both, left, right, path);
      SignatureTokens(both, path);
      SignatureTokens(left, path);
      SignatureTokens(right, path);
    }
  }

  /** Whatever the envelope around it, the signature of an array of `xs + ys` is the
      pointwise union of the signatures with `xs` and with `ys`. */
  lemma {:induction false} ConcatenationMerges(v: Json, steps: seq<Step>, xs: seq<Json>, ys: seq<Json>)
    ensures SignatureOf(Put(v, steps, Array(xs + ys))) ==
            Merge(SignatureOf(Put(v, steps, Array(xs))), SignatureOf(Put(v, steps, Array(ys))))
  {
    PutArrayTokens(v, steps, xs, ys);
    SignaturesMerge(Put(v, steps, Array(xs + ys)), Put(v, steps, Array(xs)), Put(v, steps, Array(ys)));
  }

  lemma SightingTokens(v: Json, path: string, t: string)
    ensures t in TokensOn(Sightings(v, ""), path) <==>
            path != "" && NodeSeen(v, "", path, t)
  {
    SightingsAreNodes(v, "", path, t);
    assert t in TokensOn(Sightings(v, ""), path) <==> Sighting(path, t) in Sightings(v, "");
  }

  lemma ArrayTokens(xs: seq<Json>, ys: seq<Json>, rest: seq<Step>, t: string)
    ensures t in TokensAt(Array(xs + ys), rest) <==>
            t in TokensAt(Array(xs), rest) || t in TokensAt(Array(ys), rest)
  {
    if rest == [] {
      assert forall items :: NodesAt(Array(items), rest) == {Array(items)};
      assert t in TokensAt(Array(xs + ys), rest) <==> t == "array";
    } else {
      forall w ensures w in NodesAt(Array(xs + ys), rest) <==>
                       w in NodesAt(Array(xs), rest) || w in NodesAt(Array(ys), rest)
      {
      }
    }
  }

  /** Replacing a node by one with the same token and the same children changes nothing. */
  lemma SameChildrenSameSignature(v: Json, steps: seq<Step>, a: Json, b: Json)
    requires TokenFor(a) == TokenFor(b)
    requires forall step, c :: c in Children(a, step) <==> c in Children(b, step)
    ensures SignatureOf(Put(v, steps, a)) == SignatureOf(Put(v, steps, b))
  {
    forall q ensures TokensAt(Put(v, steps, a), q) == TokensAt(Put(v, steps, b), q) {
      forall t ensures t in TokensAt(Put(v, steps, a), q) <==> t in TokensAt(Put(v, steps, b), q) {
        PutTokens(v, steps, a, q, t);
        PutTokens(v, steps, b, q, t);
        if steps <= q {
          SameChildrenSameTokens(a, b, q[|steps|..]);
        }
      }
    }
    SameTokensSameSignature(Put(v, steps, a), Put(v, steps, b));
  }

  lemma SameChildrenSameTokens(a: Json, b: Json, rest: seq<Step>)
    requires TokenFor(a) == TokenFor(b)
    requires forall step, c :: c in Children(a, step) <==> c in Children(b, step)
    ensures TokensAt(a, rest) == TokensAt(b, rest)
  {
    if rest == [] {
      assert NodesAt(a, rest) == {a} && NodesAt(b, rest) == {b};
    } else {
      assert NodesAt(a, rest) == NodesAt(b, rest);
    }
  }

  /** Permuting or repeating the elements of an array, or reordering the fields of an
      object, anywhere in a value, leaves its signature as it was. */
  lemma {:induction false} OrderAndRepetitionAreIrrelevant(v: Json, steps: seq<Step>, xs: seq<Json>, ys: seq<Json>,
                                        fs: seq<Field>, gs: seq<Field>)
    requires forall x :: x in xs <==> x in ys
    requires forall f :: f in fs <==> f in gs
    ensures SignatureOf(Put(v, steps, Array(xs))) == SignatureOf(Put(v, steps, Array(ys)))
    ensures SignatureOf(Put(v, steps, Object(fs))) == SignatureOf(Put(v, steps, Object(gs)))
  {
    SameChildrenSameSignature(v, steps, Array(xs), Array(ys));
    SameChildrenSameSignature(v, steps, Object(fs), Object(gs));
  }
}
