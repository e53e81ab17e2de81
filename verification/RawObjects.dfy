/** JSON values as the decoder hands them over, and the ordered object kept for each record. */
module RawObjects {
  import opened Wrappers
  import opened Repeats

  /** A JSON value with the text it was written as, where the text can be asked for. A number is
      the double its literal is read as; a literal beyond all doubles is read as none. */
  datatype Raw =
    | Null
    | Bool(flag: bool)
    | Number(literal: string, value: real)
    | TooLarge(literal: string)
    | String(chars: string)
    | Array(source: string, items: seq<Raw>)
    | Members(source: string, members: seq<Member>)

  datatype Member = Member(name: string, value: Raw)

  datatype Object = Object(names: seq<string>, values: map<string, Raw>)

  const NO_FIELDS := Object([], map[])

  predicate Has(o: Object, name: string) {
    name in o.values
  }

  predicate IsNull(o: Object, name: string) {
    name in o.values && o.values[name].Null?
  }

  function Get(o: Object, name: string): Option<Raw> {
    if name in o.values then Some(o.values[name]) else None
  }

  function NamesOf(members: seq<Member>): (names: seq<string>)
    ensures |names| == |members|
    ensures forall i :: 0 <= i < |members| ==> names[i] == members[i].name
  {
    seq(|members|, i requires 0 <= i < |members| => members[i].name)
  }

  /** The value of the last member with the name. */
  function LastValue(members: seq<Member>, name: string): Option<Raw> {
    if members == [] then None
    else
      var last := members[|members| - 1];
      if last.name == name then Some(last.value) else LastValue(members[..|members| - 1], name)
  }

  lemma LastValueAfter(front: seq<Member>, last: Member, name: string)
    ensures LastValue(front + [last], name) == if last.name == name then Some(last.value) else LastValue(front, name)
  {
    assert (front + [last])[..|front|] == front;
  }

  lemma SplitLast(members: seq<Member>) returns (front: seq<Member>, last: Member)
    requires members != []
    ensures members == front + [last] && |front| == |members| - 1
    ensures NamesOf(members) == NamesOf(front) + [last.name]
    ensures forall name :: name in NamesOf(members) <==> name in NamesOf(front) || name == last.name
  {
    front, last := members[..|members| - 1], members[|members| - 1];
    assert NamesOf(members) == NamesOf(front) + [last.name];
  }

  /** The last value is the value of the one member no later member has the name of. */
  lemma {:induction false} LastIsLast(members: seq<Member>, name: string)
    ensures LastValue(members, name).Some? <==> name in NamesOf(members)
    ensures LastValue(members, name).Some? ==> IsLast(members, Member(name, LastValue(members, name).value))
  {
    if members != [] {
      var front, last := SplitLast(members);
      LastValueAfter(front, last, name);
      LastIsLast(front, name);
      hide LastValue;
      if last.name == name {
        LastStandsLast(front, last);
      } else if name in NamesOf(front) {
        StaysLast(front, Member(name, LastValue(front, name).value), last);
      }
    }
  }

  ghost predicate IsLast(members: seq<Member>, member: Member) {
    exists i :: 0 <= i < |members| && members[i] == member && NoneNamed(members, i + 1, member.name)
  }

  ghost predicate NoneNamed(members: seq<Member>, from: nat, name: string) {
    forall j :: from <= j < |members| ==> members[j].name != name
  }

  lemma LastStandsLast(front: seq<Member>, last: Member)
    ensures IsLast(front + [last], last)
  {
    assert (front + [last])[|front|] == last;
    assert NoneNamed(front + [last], |front| + 1, last.name);
  }

  lemma StaysLast(front: seq<Member>, member: Member, last: Member)
    requires IsLast(front, member) && last.name != member.name
    ensures IsLast(front + [last], member)
  {
    var i :| 0 <= i < |front| && front[i] == member && NoneNamed(front, i + 1, member.name);
    assert (front + [last])[i] == member && NoneNamed(front + [last], i + 1, member.name);
  }

  function ValuesOf(members: seq<Member>): map<string, Raw> {
    if members == [] then map[]
    else
      var last := members[|members| - 1];
      ValuesOf(members[..|members| - 1])[last.name := last.value]
  }

  function ObjectOf(members: seq<Member>): Object {
    Object(FirstOccurrences(NamesOf(members)), ValuesOf(members))
  }

  /** A field reads as its last occurrence. */
  lemma {:induction false} ReadsLastValue(members: seq<Member>, name: string)
    ensures Get(ObjectOf(members), name) == LastValue(members, name)
  {
    if members != [] {
      ReadsLastValue(members[..|members| - 1], name);
    }
  }

  /** The token loop of `parseObject`. */
  method ParseObject(raw: Raw) returns (r: Option<Object>)
    ensures r == if raw.Members? then Some(ObjectOf(raw.members)) else None
  {
    if !raw.Members? {
      return None;
    }
    var names: seq<string>, values: map<string, Raw> := [], map[];
    for i := 0 to |raw.members|
      invariant names == FirstOccurrences(NamesOf(raw.members)[..i]) && values == ValuesOf(raw.members[..i])
      invariant forall name :: name in values <==> name in NamesOf(raw.members)[..i]
    {
      var member := raw.members[i];
      FirstOccurrencesOneMore(NamesOf(raw.members), i);
      assert raw.members[..i + 1][..i] == raw.members[..i];
      assert NamesOf(raw.members)[..i + 1] == NamesOf(raw.members)[..i] + [member.name];
      if member.name !in values {
        names := names + [member.name];
      }
      values := values[member.name := member.value];
    }
    assert raw.members[..|raw.members|] == raw.members;
    assert NamesOf(raw.members)[..|raw.members|] == NamesOf(raw.members);
    return Some(Object(names, values));
  }

  /** The three queries tell an absent field, a null one and a value apart. */
  lemma QueriesTellFieldsApart(members: seq<Member>, name: string)
    ensures var o := ObjectOf(members);
      && (Has(o, name) <==> name in o.names)
      && (Has(o, name) <==> exists i :: 0 <= i < |members| && members[i].name == name)
      && (IsNull(o, name) <==> IsLast(members, Member(name, Null)))
      && NoRepeats(o.names)
  {
    ReadsLastValue(members, name);
    LastIsLast(members, name);
    FirstOccurrencesNeverRepeat(NamesOf(members));
    SameElements(NamesOf(members), name);
    hide LastValue;
    if IsLast(members, Member(name, Null)) {
      OneIsLast(members, Member(name, Null), Member(name, LastValue(members, name).value));
    }
  }

  lemma OneIsLast(members: seq<Member>, a: Member, b: Member)
    requires IsLast(members, a) && a.name == b.name
    ensures a.name in NamesOf(members)
    ensures IsLast(members, b) ==> a == b
  {
    var i :| 0 <= i < |members| && members[i] == a && NoneNamed(members, i + 1, a.name);
    assert NamesOf(members)[i] == a.name;
  }

  // Objects that differ in one field, or in the order of their fields.

  function Without(members: seq<Member>, name: string): seq<Member> {
    if members == [] then []
    else
      var front, last := members[..|members| - 1], members[|members| - 1];
      Without(front, name) + if last.name == name then [] else [last]
  }

  lemma {:induction false} OtherFieldsStay(members: seq<Member>, name: string, other: string)
    requires other != name
    ensures LastValue(Without(members, name), other) == LastValue(members, other)
  {
    if members != [] {
      var front, last := members[..|members| - 1], members[|members| - 1];
      OtherFieldsStay(front, name, other);
      LastValueAfter(Without(front, name), last, other);
      assert Without(front, name) + [] == Without(front, name);
    }
  }

  /** Objects whose fields all have different names hold the same values when they have the
      same members, whatever the order. */
  lemma ReorderedFieldsReadTheSame(a: seq<Member>, b: seq<Member>)
    requires NoRepeats(NamesOf(a)) && NoRepeats(NamesOf(b))
    requires forall member :: member in a <==> member in b
    ensures ObjectOf(a).values == ObjectOf(b).values
  {
    forall name ensures Get(ObjectOf(a), name) == Get(ObjectOf(b), name) {
      SameValue(a, b, name);
      SameValue(b, a, name);
      ReadsLastValue(a, name);
      ReadsLastValue(b, name);
    }
    SameLookups(ObjectOf(a), ObjectOf(b));
  }

  lemma SameLookups(a: Object, b: Object)
    requires forall name :: Get(a, name) == Get(b, name)
    ensures a.values == b.values
  {
    forall name
      ensures (name in a.values <==> name in b.values) && (name in a.values ==> a.values[name] == b.values[name])
    {
      assert Get(a, name) == Get(b, name);
    }
  }

  lemma SameValue(a: seq<Member>, b: seq<Member>, name: string)
    requires NoRepeats(NamesOf(b)) && forall member :: member in a ==> member in b
    ensures LastValue(a, name).Some? ==> LastValue(b, name) == LastValue(a, name)
  {
    LastIsLast(a, name);
    LastIsLast(b, name);
    hide LastValue;
    if LastValue(a, name).Some? {
      var i :| 0 <= i < |a| && a[i] == Member(name, LastValue(a, name).value);
      assert a[i] in a && a[i] in b;
      var j :| 0 <= j < |b| && b[j] == a[i];
      assert NamesOf(b)[j] == name;
      var k :| 0 <= k < |b| && b[k] == Member(name, LastValue(b, name).value);
      assert NamesOf(b)[k] == name;
    }
  }
}
