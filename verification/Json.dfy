/** Parsed JSON values, the token of a node, and the nodes found by walking a tree. */
module Json {
  import opened Text
  import opened Paths

  /** The form a string value takes. How a string is sorted into one of these is not
      modelled; only the tokens are. */
  datatype Form = Blank | ApiDate | IsoDate | Digits(groups: seq<nat>) | Url | OfacSentence | FreeText

  datatype Json =
    | Null
    | Bool(flag: bool)
    | Number(value: real)
    | String(form: Form)
    | Array(items: seq<Json>)
    | Object(fields: seq<Field>)

  datatype Field = Field(key: string, value: Json)

  function Decimal(n: nat): (digits: string)
    ensures forall c :: c in digits ==> '0' <= c <= '9'
  {
    if n < 10 then [(n + 48) as char]
    else Decimal(n / 10) + [(n % 10 + 48) as char]
  }

  function GroupLengths(groups: seq<nat>): (text: string)
    ensures '|' !in text
  {
    if groups == [] then ""
    else if |groups| == 1 then Decimal(groups[0])
    else Decimal(groups[0]) + "-" + GroupLengths(groups[1..])
  }

  function FormToken(form: Form): (token: string)
    ensures '|' !in token
    ensures token !in {"null", "array", "object"}
  {
    match form
    case Blank => "empty"
    case ApiDate => "date"
    case IsoDate => "date:iso"
    case Digits(groups) =>
      assert ("digits:" + GroupLengths(groups))[0] == 'd';
      "digits:" + GroupLengths(groups)
    case Url => "url"
    case OfacSentence => "ofac-sentence"
    case FreeText => "text"
  }

  function TokenFor(v: Json): (token: string)
    ensures '|' !in token
    ensures token == "null" <==> v.Null?
    ensures token == "array" <==> v.Array?
    ensures token == "object" <==> v.Object?
  {
    match v
    case Null => "null"
    case Bool(_) => "boolean"
    case Number(_) => "number"
    case String(form) => FormToken(form)
    case Array(_) => "array"
    case Object(_) => "object"
  }

  // What a token says, read off the token.

  function ReadDecimal(digits: string): int {
    if digits == "" then 0 else 10 * ReadDecimal(digits[..|digits| - 1]) + (digits[|digits| - 1] as int - '0' as int)
  }

  /** The lengths in the hyphenated part of a digits token. */
  function ReadLengths(text: string): seq<int> {
    if text == "" then [] else Readings(Split(text, '-'))
  }

  function Readings(parts: seq<string>): seq<int> {
    seq(|parts|, i requires 0 <= i < |parts| => ReadDecimal(parts[i]))
  }

  /** The values a token is written for. */
  predicate Claims(token: string, v: Json) {
    if token == "null" then v.Null?
    else if token == "boolean" then v.Bool?
    else if token == "number" then v.Number?
    else if token == "array" then v.Array?
    else if token == "object" then v.Object?
    else if token == "empty" then v == String(Blank)
    else if token == "date" then v == String(ApiDate)
    else if token == "date:iso" then v == String(IsoDate)
    else if token == "url" then v == String(Url)
    else if token == "ofac-sentence" then v == String(OfacSentence)
    else if token == "text" then v == String(FreeText)
    else "digits:" <= token && v.String? && v.form.Digits? && ReadLengths(token[7..]) == v.form.groups
  }

  lemma {:induction false} DecimalReadsBack(n: nat)
    ensures Decimal(n) != "" && ReadDecimal(Decimal(n)) == n
  {
    if n < 10 {
      assert [(n + 48) as char][..0] == "";
      assert ReadDecimal([(n + 48) as char]) == 10 * ReadDecimal("") + n;
    } else {
      DecimalReadsBack(n / 10);
      var last := (n % 10 + 48) as char;
      assert (Decimal(n / 10) + [last])[..|Decimal(n / 10)|] == Decimal(n / 10);
    }
  }

  function Numerals(groups: seq<nat>): (numerals: seq<string>)
    ensures |numerals| == |groups|
    ensures forall i :: 0 <= i < |groups| ==> numerals[i] == Decimal(groups[i])
  {
    seq(|groups|, i requires 0 <= i < |groups| => Decimal(groups[i]))
  }

  lemma {:induction false} GroupLengthsJoin(groups: seq<nat>)
    ensures GroupLengths(groups) == Join(Numerals(groups), '-')
  {
    if |groups| > 1 {
      GroupLengthsJoin(groups[1..]);
      assert Numerals(groups)[1..] == Numerals(groups[1..]);
    }
  }

  lemma GroupLengthsReadBack(groups: seq<nat>)
    ensures ReadLengths(GroupLengths(groups)) == groups
  {
    if groups != [] {
      GroupLengthsJoin(groups);
      forall i | 0 <= i < |groups| ensures ReadDecimal(Numerals(groups)[i]) == groups[i] {
        DecimalReadsBack(groups[i]);
      }
      SplitJoin(Numerals(groups), '-');
      if GroupLengths(groups) == "" {
        assert Split("", '-') == [""];
        DecimalReadsBack(groups[0]);
      }
      assert Readings(Numerals(groups)) == groups;
    }
  }

  /** A value has exactly the token that claims it. */
  lemma TokenClaimsItsValue(v: Json, w: Json)
    ensures Claims(TokenFor(v), v)
    ensures Claims(TokenFor(v), w) ==> TokenFor(w) == TokenFor(v)
  {
    DigitsToken(v);
    DigitsToken(w);
    hide ReadLengths, GroupLengths;
  }

  lemma ClaimedToken(token: string, v: Json)
    requires Claims(token, v) && !("digits:" <= token)
    ensures TokenFor(v) == token
  {
  }

  predicate IsDigits(v: Json) {
    v.String? && v.form.Digits?
  }

  lemma DigitsToken(v: Json)
    ensures IsDigits(v) ==>
      |TokenFor(v)| >= 7 && "digits:" <= TokenFor(v) && TokenFor(v)[0] == 'd' && TokenFor(v)[1] == 'i' &&
      ReadLengths(TokenFor(v)[7..]) == v.form.groups
    ensures !IsDigits(v) ==> !("digits:" <= TokenFor(v))
  {
    if IsDigits(v) {
      GroupLengthsReadBack(v.form.groups);
      var token := "digits:" + GroupLengths(v.form.groups);
      assert token[..7] == "digits:" && token[7..] == GroupLengths(v.form.groups);
      assert token[0] == 'd' && token[1] == 'i';
    } else {
      assert TokenFor(v)[0] != 'd' || TokenFor(v)[1] != 'i';
    }
  }

  function FieldValues(fields: seq<Field>, name: string): (values: seq<Json>)
    ensures forall c :: c in values <==> exists f :: f in fields && f.key == name && f.value == c
  {
    if fields == [] then []
    else
      assert forall f :: f in fields <==> f == fields[0] || f in fields[1..];
      (if fields[0].key == name then [fields[0].value] else []) + FieldValues(fields[1..], name)
  }

  /** The nodes one step below `v`. */
  function Children(v: Json, step: Step): seq<Json> {
    match (v, step)
    case (Array(items), Element) => items
    case (Object(fields), Key(name)) => FieldValues(fields, name)
    case _ => []
  }

  /** Every node reached from `v` by walking `steps`. */
  function NodesAt(v: Json, steps: seq<Step>): set<Json>
    decreases |steps|
  {
    if steps == [] then {v}
    else set c, w | c in Children(v, steps[0]) && w in NodesAt(c, steps[1..]) :: w
  }

  function TokensAt(v: Json, steps: seq<Step>): set<string> {
    set w | w in NodesAt(v, steps) :: TokenFor(w)
  }

  /** Every key, at every depth, can be read back off a path. */
  predicate WellFormed(v: Json) {
    match v
    case Array(items) => forall item :: item in items ==> WellFormed(item)
    case Object(fields) => forall f :: f in fields ==> WellFormedKey(f.key) && WellFormed(f.value)
    case _ => true
  }

  lemma {:induction false} WalksOfWellFormedValues(v: Json, steps: seq<Step>)
    requires WellFormed(v) && NodesAt(v, steps) != {}
    ensures WellFormedSteps(steps)
    decreases |steps|
  {
    if steps != [] {
      var w :| w in NodesAt(v, steps);
      var c :| c in Children(v, steps[0]) && w in NodesAt(c, steps[1..]);
      WalksOfWellFormedValues(c, steps[1..]);
      assert forall step :: step in steps <==> step == steps[0] || step in steps[1..];
    }
  }

  /** Walking on from the nodes at a place. */
  lemma {:induction false} NodesBelow(v: Json, front: seq<Step>, back: seq<Step>, w: Json)
    ensures w in NodesAt(v, front + back) <==>
            exists u :: u in NodesAt(v, front) && w in NodesAt(u, back)
    decreases |front|
  {
    if front == [] {
      assert front + back == back;
    } else {
      var whole := front + back;
      assert whole[0] == front[0] && whole[1..] == front[1..] + back;
      if w in NodesAt(v, whole) {
        var c :| c in Children(v, front[0]) && w in NodesAt(c, front[1..] + back);
        NodesBelow(c, front[1..], back, w);
        var u :| u in NodesAt(c, front[1..]) && w in NodesAt(u, back);
        assert u in NodesAt(v, front);
      }
      if u :| u in NodesAt(v, front) && w in NodesAt(u, back) {
        var c :| c in Children(v, front[0]) && u in NodesAt(c, front[1..]);
        NodesBelow(c, front[1..], back, w);
      }
    }
  }

  lemma NodesOneFurther(v: Json, front: seq<Step>, step: Step)
    ensures NodesAt(v, front + [step]) == set u, c | u in NodesAt(v, front) && c in Children(u, step) :: c
  {
    forall w ensures w in NodesAt(v, front + [step]) <==> exists u :: u in NodesAt(v, front) && w in Children(u, step) {
      NodesBelow(v, front, [step], w);
      assert [step][1..] == [];
      forall u ensures w in NodesAt(u, [step]) <==> w in Children(u, step) {
        assert w in Children(u, step) ==> w in NodesAt(w, [step][1..]);
      }
    }
  }

  /** `v` with every node at `steps` replaced by what `f` makes of it. */
  function Edit(v: Json, steps: seq<Step>, f: Json -> Json): Json
    decreases |steps|
  {
    if steps == [] then f(v)
    else match v
      case Array(items) =>
        if steps[0].Element? then
          Array(seq(|items|, i requires 0 <= i < |items| => Edit(items[i], steps[1..], f)))
        else v
      case Object(fields) =>
        Object(seq(|fields|, i requires 0 <= i < |fields| =>
          if steps[0] == Key(fields[i].key)
          then Field(fields[i].key, Edit(fields[i].value, steps[1..], f))
          else fields[i]))
      case _ => v
  }

  /** Editing below a node leaves its kind alone, and its children elsewhere. */
  lemma EditChildren(v: Json, steps: seq<Step>, f: Json -> Json, step: Step, c: Json)
    requires steps != []
    ensures TokenFor(Edit(v, steps, f)) == TokenFor(v)
    ensures c in Children(Edit(v, steps, f), step) <==>
            if step == steps[0]
            then exists d :: d in Children(v, step) && c == Edit(d, steps[1..], f)
            else c in Children(v, step)
  {
    match (v, step)
    case (Array(items), Element) => EditItems(items, steps, f, c);
    case (Object(fields), Key(name)) => EditFields(fields, steps, f, name, c);
    case _ =>
  }

  lemma EditItems(items: seq<Json>, steps: seq<Step>, f: Json -> Json, c: Json)
    requires steps != []
    ensures c in Children(Edit(Array(items), steps, f), Element) <==>
            if steps[0].Element? then exists d :: d in items && c == Edit(d, steps[1..], f) else c in items
  {
    if steps[0].Element? {
      var edited := Edit(Array(items), steps, f).items;
      if c in edited {
        var i :| 0 <= i < |items| && edited[i] == c;
        assert items[i] in items;
      }
      if d :| d in items && c == Edit(d, steps[1..], f) {
        var i :| 0 <= i < |items| && items[i] == d;
        assert edited[i] == c;
        assert c in edited;
      }
    }
  }

  lemma EditFields(fields: seq<Field>, steps: seq<Step>, f: Json -> Json, name: string, c: Json)
    requires steps != []
    ensures c in FieldValues(Edit(Object(fields), steps, f).fields, name) <==>
            if steps[0] == Key(name)
            then exists d :: d in FieldValues(fields, name) && c == Edit(d, steps[1..], f)
            else c in FieldValues(fields, name)
  {
    if c in FieldValues(Edit(Object(fields), steps, f).fields, name) {
      var d := EditedFieldCameFrom(fields, steps, f, name, c);
    }
    if steps[0] == Key(name) {
      if d :| d in FieldValues(fields, name) && c == Edit(d, steps[1..], f) {
        FieldIsEdited(fields, steps, f, name, d);
      }
    } else if c in FieldValues(fields, name) {
      FieldIsEdited(fields, steps, f, name, c);
    }
  }

  lemma EditedFieldCameFrom(fields: seq<Field>, steps: seq<Step>, f: Json -> Json, name: string, c: Json)
    returns (d: Json)
    requires steps != [] && c in FieldValues(Edit(Object(fields), steps, f).fields, name)
    ensures d in FieldValues(fields, name)
    ensures c == if steps[0] == Key(name) then Edit(d, steps[1..], f) else d
  {
    var edited := Edit(Object(fields), steps, f).fields;
    var g :| g in edited && g.key == name && g.value == c;
    var i :| 0 <= i < |edited| && edited[i] == g;
    d := fields[i].value;
    assert fields[i] in fields;
  }

  lemma FieldIsEdited(fields: seq<Field>, steps: seq<Step>, f: Json -> Json, name: string, d: Json)
    requires steps != [] && d in FieldValues(fields, name)
    ensures (if steps[0] == Key(name) then Edit(d, steps[1..], f) else d) in
      FieldValues(Edit(Object(fields), steps, f).fields, name)
  {
    var edited := Edit(Object(fields), steps, f).fields;
    var i :| 0 <= i < |fields| && fields[i].key == name && fields[i].value == d;
    assert edited[i] in edited && edited[i].key == name;
  }

  /** At and below the edited place: the nodes of what `f` made. */
  lemma {:induction false} EditedNodes(v: Json, steps: seq<Step>, f: Json -> Json, rest: seq<Step>, w: Json)
    ensures w in NodesAt(Edit(v, steps, f), steps + rest) <==>
            exists u :: u in NodesAt(v, steps) && w in NodesAt(f(u), rest)
    decreases |steps|
  {
    if steps == [] {
      assert steps + rest == rest;
    } else {
      var whole := steps + rest;
      assert whole[0] == steps[0] && whole[1..] == steps[1..] + rest;
      var e := Edit(v, steps, f);
      if w in NodesAt(e, whole) {
        var c :| c in Children(e, steps[0]) && w in NodesAt(c, steps[1..] + rest);
        EditChildren(v, steps, f, steps[0], c);
        var d :| d in Children(v, steps[0]) && c == Edit(d, steps[1..], f);
        EditedNodes(d, steps[1..], f, rest, w);
        var u :| u in NodesAt(d, steps[1..]) && w in NodesAt(f(u), rest);
        assert u in NodesAt(v, steps);
      }
      if u :| u in NodesAt(v, steps) && w in NodesAt(f(u), rest) {
        var d :| d in Children(v, steps[0]) && u in NodesAt(d, steps[1..]);
        EditChildren(v, steps, f, steps[0], Edit(d, steps[1..], f));
        EditedNodes(d, steps[1..], f, rest, w);
      }
    }
  }

  /** Everywhere else: the tokens are what they were. */
  lemma {:induction false} UneditedTokens(v: Json, steps: seq<Step>, f: Json -> Json, q: seq<Step>, t: string)
    requires !(steps <= q)
    ensures t in TokensAt(Edit(v, steps, f), q) <==> t in TokensAt(v, q)
    decreases |q|
  {
    var e := Edit(v, steps, f);
    if q == [] {
      EditChildren(v, steps, f, Element, v);
    } else {
      hide Edit;
      if t in TokensAt(e, q) {
        var c := ChildWithToken(e, q, t);
        EditChildren(v, steps, f, q[0], c);
        if q[0] == steps[0] {
          var d :| d in Children(v, q[0]) && c == Edit(d, steps[1..], f);
          UneditedTokens(d, steps[1..], f, q[1..], t);
          TokenOfChild(v, q, d, t);
        } else {
          TokenOfChild(v, q, c, t);
        }
      }
      if t in TokensAt(v, q) {
        var d := ChildWithToken(v, q, t);
        if q[0] == steps[0] {
          var c := Edit(d, steps[1..], f);
          EditChildren(v, steps, f, q[0], c);
          UneditedTokens(d, steps[1..], f, q[1..], t);
          TokenOfChild(e, q, c, t);
        } else {
          EditChildren(v, steps, f, q[0], d);
          TokenOfChild(e, q, d, t);
        }
      }
    }
  }

  lemma ChildWithToken(v: Json, q: seq<Step>, t: string) returns (c: Json)
    requires q != [] && t in TokensAt(v, q)
    ensures c in Children(v, q[0]) && t in TokensAt(c, q[1..])
  {
    var w :| w in NodesAt(v, q) && TokenFor(w) == t;
    c :| c in Children(v, q[0]) && w in NodesAt(c, q[1..]);
  }

  lemma TokenOfChild(v: Json, q: seq<Step>, c: Json, t: string)
    requires q != [] && c in Children(v, q[0]) && t in TokensAt(c, q[1..])
    ensures t in TokensAt(v, q)
  {
    var w :| w in NodesAt(c, q[1..]) && TokenFor(w) == t;
    assert w in NodesAt(v, q);
  }

  lemma {:induction false} EditKeepsKeys(v: Json, steps: seq<Step>, f: Json -> Json)
    requires WellFormed(v)
    requires forall u :: WellFormed(u) ==> WellFormed(f(u))
    ensures WellFormed(Edit(v, steps, f))
    decreases |steps|
  {
    if steps != [] {
      var e := Edit(v, steps, f);
      match v
      case Array(items) =>
        if steps[0].Element? {
          forall i | 0 <= i < |items| ensures WellFormed(e.items[i]) {
            EditKeepsKeys(items[i], steps[1..], f);
          }
        }
      case Object(fields) =>
        forall i | 0 <= i < |fields| ensures WellFormedKey(e.fields[i].key) && WellFormed(e.fields[i].value) {
          assert fields[i] in fields;
          EditKeepsKeys(fields[i].value, steps[1..], f);
        }
      case _ =>
    }
  }
}
