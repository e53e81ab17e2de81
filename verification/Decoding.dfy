/** Lenient decoding: filling a model's declared fields from the fields of a record. */
module Decoding {
  import opened Text
  import opened Wrappers
  import opened Repeats
  import opened RawObjects

  datatype Kind =
    | StringPointer
    | PlainString
    | BoolPointer
    | IntPointer
    | Int64Pointer
    | FloatPointer
    | StringList
    | TypeList
    | ErrorList

  /** A declared field: its wire name, empty if it has none, and its type. */
  datatype Column = Column(name: string, kind: Kind)

  /** What a declared field holds. */
  datatype Cell =
    | Unset
    | Text(text: string)
    | Flag(flag: bool)
    | Whole(number: int)
    | Floating(float: real)
    | Strings(strings: seq<string>)
    | Types(types: seq<Option<Row>>)
    | Details(details: seq<Row>)

  datatype Row = Row(cells: seq<Cell>, fields: Object)

  const MIN_INT32 := -0x8000_0000
  const MAX_INT32 := 0x7FFF_FFFF
  const MAX_SAFE := 0x20_0000_0000_0000

  const TYPE_COLUMNS := [
    Column("organization_type", StringPointer),
    Column("deductibility_limitation", StringPointer),
    Column("deductibility_status_description", StringPointer)]

  const ERROR_COLUMNS := [
    Column("resource", PlainString),
    Column("reason", PlainString),
    Column("code", IntPointer),
    Column("eins", StringList)]

  const EINS := 3

  function JsonText(raw: Raw): string {
    match raw
    case Null => "null"
    case Bool(flag) => if flag then "true" else "false"
    case Number(literal, _) => literal
    case TooLarge(literal) => literal
    case String(chars) => chars
    case Array(source, _) => source
    case Members(source, _) => source
  }

  function StringOrJsonText(raw: Raw): string {
    match raw
    case String(chars) => chars
    case Null => ""
    case _ => JsonText(raw)
  }

  function Integral(raw: Raw, min: int, max: int): Option<int> {
    if raw.Number? && raw.value == raw.value.Floor as real && min as real <= raw.value <= max as real
    then Some(raw.value.Floor)
    else None
  }

  // Lists of EINs.

  /** The parts that are not blank, trimmed. */
  function Entries(parts: seq<string>): seq<string> {
    if parts == [] then []
    else
      var part := Trim(parts[|parts| - 1]);
      Entries(parts[..|parts| - 1]) + if part != "" then [part] else []
  }

  /** What decoding each entry into a string keeps: the strings, and "" for a null. */
  function StringEntries(items: seq<Raw>): seq<string> {
    if items == [] then []
    else
      var last := items[|items| - 1];
      StringEntries(items[..|items| - 1]) +
      match last case String(chars) => [chars] case Null => [""] case _ => []
  }

  function EinsIn(raw: Raw): Option<seq<string>> {
    match raw
    case String(joined) => Some(Entries(Split(joined, ',')))
    case Null => Some([])
    case Array(_, items) => Some(StringEntries(items))
    case _ => None
  }

  method EinList(raw: Raw) returns (r: Option<seq<string>>)
    ensures r == EinsIn(raw)
  {
    var list: seq<string> := [];
    if raw.String? || raw.Null? {
      var parts := Split(if raw.String? then raw.chars else "", ',');
      for i := 0 to |parts|
        invariant list == Entries(parts[..i])
      {
        assert parts[..i + 1][..i] == parts[..i];
        var part := Trim(parts[i]);
        if part != "" {
          list := list + [part];
        }
      }
      assert parts[..|parts|] == parts;
      return Some(list);
    }
    if !raw.Array? {
      return None;
    }
    for i := 0 to |raw.items|
      invariant list == StringEntries(raw.items[..i])
    {
      var entry := raw.items[i];
      assert raw.items[..i + 1][..i] == raw.items[..i];
      if entry.String? || entry.Null? {
        list := list + [if entry.String? then entry.chars else ""];
      }
    }
    assert raw.items[..|raw.items|] == raw.items;
    return Some(list);
  }

  // Models.

  predicate IsNested(kind: Kind) {
    kind == TypeList || kind == ErrorList
  }

  predicate Flat(columns: seq<Column>) {
    forall i :: 0 <= i < |columns| ==> !IsNested(columns[i].kind)
  }

  function Default(kind: Kind): Cell {
    if kind == PlainString then Text("") else Unset
  }

  /** The value of a non-null field of a given type, if the type can hold it. */
  function ValueFor(kind: Kind, raw: Raw): Option<Cell>
    decreases if IsNested(kind) then 4 else 0, 0
  {
    match kind
    case StringPointer => Some(Text(StringOrJsonText(raw)))
    case PlainString => Some(Text(StringOrJsonText(raw)))
    case BoolPointer => if raw.Bool? then Some(Flag(raw.flag)) else None
    case IntPointer =>
      var number := Integral(raw, MIN_INT32, MAX_INT32);
      if number.Some? then Some(Whole(number.value)) else None
    case Int64Pointer =>
      var number := Integral(raw, -MAX_SAFE, MAX_SAFE);
      if number.Some? then Some(Whole(number.value)) else None
    case FloatPointer => if raw.Number? then Some(Floating(raw.value)) else None
    case StringList =>
      var list := EinsIn(raw);
      if list.Some? then Some(Strings(list.value)) else None
    case TypeList => if raw.Array? then Some(Types(TypesIn(raw.items))) else None
    case ErrorList => Some(Details(ErrorsIn(raw)))
  }

  /** What the wire fields say about a declared field; nothing if absent, null or unfit. */
  function FieldValue(column: Column, fields: Object): Option<Cell>
    decreases if IsNested(column.kind) then 4 else 0, 1
  {
    if column.name == "" then None
    else
      match Get(fields, column.name)
      case None => None
      case Some(raw) => if raw.Null? then None else ValueFor(column.kind, raw)
  }

  function Settled(column: Column, fields: Object): Cell
    decreases if IsNested(column.kind) then 4 else 0, 2
  {
    match FieldValue(column, fields)
    case None => Default(column.kind)
    case Some(cell) => cell
  }

  function Decoded(columns: seq<Column>, fields: Object): Row
    decreases if Flat(columns) then 1 else 5, 0
  {
    Row(seq(|columns|, i requires 0 <= i < |columns| => Settled(columns[i], fields)), fields)
  }

  function TypesIn(items: seq<Raw>): seq<Option<Row>>
    decreases 2, |items|
  {
    if items == [] then []
    else
      var last := items[|items| - 1];
      TypesIn(items[..|items| - 1]) +
      match last
      case Null => [None]
      case Members(_, members) => [Some(Decoded(TYPE_COLUMNS, ObjectOf(members)))]
      case _ => []
  }

  function DetailsIn(items: seq<Raw>): seq<Row>
    decreases 2, |items|
  {
    if items == [] then []
    else
      var last := items[|items| - 1];
      DetailsIn(items[..|items| - 1]) +
      if last.Members? then [Decoded(ERROR_COLUMNS, ObjectOf(last.members))] else []
  }

  function BareReason(reason: string): Row {
    Row([Text(""), Text(reason), Unset, Unset], Object(["reason"], map["reason" := String(reason)]))
  }

  function ErrorsIn(raw: Raw): seq<Row>
    decreases 3, 0
  {
    match raw
    case String(reason) => if Trim(reason) == "" then [] else [BareReason(reason)]
    case Members(_, members) => [Decoded(ERROR_COLUMNS, ObjectOf(members))]
    case Array(_, items) => DetailsIn(items)
    case _ => []
  }

  method DecodeDeclared(model: array<Cell>, columns: seq<Column>, fields: Object)
    requires model.Length == |columns|
    modifies model
    ensures forall i :: 0 <= i < |columns| ==>
      model[i] == match FieldValue(columns[i], fields) case None => old(model[i]) case Some(cell) => cell
    decreases if Flat(columns) then 1 else 5, 0
  {
    for i := 0 to |columns|
      invariant forall j :: 0 <= j < i ==>
        model[j] == match FieldValue(columns[j], fields) case None => old(model[j]) case Some(cell) => cell
      invariant forall j :: i <= j < |columns| ==> model[j] == old(model[j])
    {
      var name := columns[i].name;
      if name == "" {
        continue;
      }
      if !Has(fields, name) || IsNull(fields, name) {
        continue;
      }
      var decoded := DecodeValue(columns[i].kind, fields.values[name]);
      if decoded.Some? {
        model[i] := decoded.value;
      }
    }
  }

  /** A new model, decoded: `&T{Fields: fields}` and then `decodeDeclared`. */
  method NewModel(columns: seq<Column>, fields: Object) returns (row: Row)
    ensures row == Decoded(columns, fields)
    decreases if Flat(columns) then 1 else 5, 1
  {
    var model := new Cell[|columns|](i requires 0 <= i < |columns| => Default(columns[i].kind));
    DecodeDeclared(model, columns, fields);
    row := Row(model[..], fields);
    assert row.cells == Decoded(columns, fields).cells;
  }

  method DecodeValue(kind: Kind, raw: Raw) returns (r: Option<Cell>)
    requires !raw.Null?
    ensures r == ValueFor(kind, raw)
    decreases if IsNested(kind) then 4 else 0, 0
  {
    match kind
    case StringList =>
      var list := EinList(raw);
      return if list.Some? then Some(Strings(list.value)) else None;
    case TypeList =>
      var types := OrganizationTypes(raw);
      return if types.Some? then Some(Types(types.value)) else None;
    case ErrorList =>
      var details := NormalizeAPIErrors(raw);
      return Some(Details(details));
    case _ =>
      return ValueFor(kind, raw);
  }

  method OrganizationTypes(raw: Raw) returns (r: Option<seq<Option<Row>>>)
    requires !raw.Null?
    ensures r == if raw.Array? then Some(TypesIn(raw.items)) else None
    decreases 3, 0
  {
    if !raw.Array? {
      return None;
    }
    var list: seq<Option<Row>> := [];
    for i := 0 to |raw.items|
      invariant list == TypesIn(raw.items[..i])
    {
      assert raw.items[..i + 1][..i] == raw.items[..i];
      var entry := raw.items[i];
      if entry.Null? {
        list := list + [None];
        continue;
      }
      var fields := ParseObject(entry);
      if fields.Some? {
        var item := NewModel(TYPE_COLUMNS, fields.value);
        list := list + [Some(item)];
      }
    }
    assert raw.items[..|raw.items|] == raw.items;
    return Some(list);
  }

  method NormalizeAPIErrors(raw: Raw) returns (details: seq<Row>)
    ensures details == ErrorsIn(raw)
    decreases 3, 0
  {
    details := [];
    if raw.Null? {
      return;
    }
    if raw.String? {
      return if Trim(raw.chars) == "" then [] else [BareReason(raw.chars)];
    }
    var fields := ParseObject(raw);
    if fields.Some? {
      var detail := NewModel(ERROR_COLUMNS, fields.value);
      return [detail];
    }
    if !raw.Array? {
      return;
    }
    for i := 0 to |raw.items|
      invariant details == DetailsIn(raw.items[..i])
    {
      assert raw.items[..i + 1][..i] == raw.items[..i];
      var entry := ParseObject(raw.items[i]);
      if entry.Some? {
        var detail := NewModel(ERROR_COLUMNS, entry.value);
        details := details + [detail];
      }
    }
    assert raw.items[..|raw.items|] == raw.items;
  }

  // What decoding loses and what it never loses.

  ghost predicate HoldsWhole(x: real, min: int, max: int) {
    exists n: int :: IsWhole(n, x) && min <= n <= max
  }

  predicate IsWhole(n: int, x: real) {
    n as real == x
  }

  /** Which JSON values a declared type can hold. */
  ghost predicate Accepts(kind: Kind, raw: Raw) {
    match kind
    case BoolPointer => raw.Bool?
    case IntPointer => raw.Number? && HoldsWhole(raw.value, -2147483648, 2147483647)
    case Int64Pointer => raw.Number? && HoldsWhole(raw.value, -9007199254740992, 9007199254740992)
    case FloatPointer => raw.Number?
    case StringList => raw.String? || raw.Array?
    case TypeList => raw.Array?
    case _ => true
  }

  ghost predicate Fits(kind: Kind, raw: Raw) {
    !raw.Null? && Accepts(kind, raw)
  }

  lemma IntegralHoldsWhole(raw: Raw, min: int, max: int)
    ensures Integral(raw, min, max).Some? <==> raw.Number? && HoldsWhole(raw.value, min, max)
    ensures Integral(raw, min, max).Some? ==> IsWhole(Integral(raw, min, max).value, raw.value)
  {
    if raw.Number? && raw.value == raw.value.Floor as real {
      assert IsWhole(raw.value.Floor, raw.value);
    }
  }

  lemma TypeAcceptsExactly(kind: Kind, raw: Raw)
    requires !raw.Null?
    ensures ValueFor(kind, raw).Some? <==> Accepts(kind, raw)
  {
    IntegralHoldsWhole(raw, MIN_INT32, MAX_INT32);
    IntegralHoldsWhole(raw, -MAX_SAFE, MAX_SAFE);
  }

  /** A declared field is set exactly when its last occurrence on the wire is a non-null value
      its type can hold. */
  lemma FieldIsSetExactlyWhen(column: Column, members: seq<Member>)
    ensures FieldValue(column, ObjectOf(members)).Some? <==>
      column.name != "" && exists raw :: IsLast(members, Member(column.name, raw)) && Fits(column.kind, raw)
  {
    var name := column.name;
    ReadsLastValue(members, name);
    LastIsLast(members, name);
    var last := LastValue(members, name);
    assert FieldValue(column, ObjectOf(members)).Some? <==>
      name != "" && last.Some? && !last.value.Null? && ValueFor(column.kind, last.value).Some?;
    hide *;
    if last.Some? {
      if !last.value.Null? {
        TypeAcceptsExactly(column.kind, last.value);
      }
      forall raw | IsLast(members, Member(name, raw)) ensures raw == last.value {
        OneIsLast(members, Member(name, raw), Member(name, last.value));
      }
    } else {
      forall raw ensures !IsLast(members, Member(name, raw)) {
        if IsLast(members, Member(name, raw)) {
          OneIsLast(members, Member(name, raw), Member(name, raw));
        }
      }
    }
  }

  /** A string field that arrives as anything but null is kept, whatever its type: as the
      string, or as the text of its JSON. */
  lemma {:induction false} StringFieldsAreNeverLost(columns: seq<Column>, i: nat, members: seq<Member>, raw: Raw)
    requires i < |columns| && columns[i].name != "" && columns[i].kind in {StringPointer, PlainString}
    requires IsLast(members, Member(columns[i].name, raw)) && !raw.Null?
    ensures Decoded(columns, ObjectOf(members)).cells[i] == Text(if raw.String? then raw.chars else JsonText(raw))
  {
    var name := columns[i].name;
    ReadsLastValue(members, name);
    LastIsLast(members, name);
    OneIsLast(members, Member(name, raw), Member(name, raw));
    OneIsLast(members, Member(name, raw), Member(name, LastValue(members, name).value));
    assert Get(ObjectOf(members), name) == Some(raw);
    hide *;
    FieldIsText(columns[i], ObjectOf(members), raw);
    DecodedCell(columns, ObjectOf(members), i);
  }

  /** The JSON text of a value that is no string. */
  lemma TextOf(raw: Raw)
    ensures match raw
      case Bool(flag) => JsonText(raw) == if flag then "true" else "false"
      case Number(literal, _) => JsonText(raw) == literal
      case TooLarge(literal) => JsonText(raw) == literal
      case Array(source, _) => JsonText(raw) == source
      case Members(source, _) => JsonText(raw) == source
      case _ => true
  {
  }

  /** What a set field of each type holds of the value sent. */
  ghost predicate Holds(kind: Kind, raw: Raw, cell: Cell) {
    match kind
    case StringPointer => cell == Text(if raw.String? then raw.chars else JsonText(raw))
    case PlainString => cell == Text(if raw.String? then raw.chars else JsonText(raw))
    case BoolPointer => raw.Bool? && cell == Flag(raw.flag)
    case IntPointer => HoldsNumber(raw, cell, -2147483648, 2147483647)
    case Int64Pointer => HoldsNumber(raw, cell, -9007199254740992, 9007199254740992)
    case FloatPointer => raw.Number? && cell == Floating(raw.value)
    case StringList => cell.Strings? && EinsIn(raw) == Some(cell.strings)
    case TypeList => raw.Array? && cell.Types? && cell.types == TypesIn(raw.items)
    case ErrorList => cell.Details? && ErrorsFrom(raw, cell.details)
  }

  predicate HoldsNumber(raw: Raw, cell: Cell, min: int, max: int) {
    raw.Number? && cell.Whole? && min <= cell.number <= max && cell.number as real == raw.value
  }

  /** Errors in the four shapes they are sent in: one reason, one object, a list of objects with
      anything else skipped; nothing in any other. */
  ghost predicate ErrorsFrom(raw: Raw, details: seq<Row>) {
    match raw
    case String(reason) =>
      if Blank(reason) then details == []
      else
        |details| == 1 && details[0].cells == [Text(""), Text(reason), Unset, Unset] &&
        details[0].fields == Object(["reason"], map["reason" := String(reason)])
    case Members(_, members) => details == [Decoded(ERROR_COLUMNS, ObjectOf(members))]
    case Array(_, items) => details == DetailsIn(items)
    case _ => details == []
  }

  /** A value decoded for a type is the value sent. */
  lemma {:induction false} DecodedValueIsSent(kind: Kind, raw: Raw)
    requires !raw.Null? && ValueFor(kind, raw).Some?
    ensures Holds(kind, raw, ValueFor(kind, raw).value)
  {
    IntegralHoldsWhole(raw, MIN_INT32, MAX_INT32);
    IntegralHoldsWhole(raw, -MAX_SAFE, MAX_SAFE);
    if raw.String? {
      BlankTrimsAway(raw.chars);
    }
  }

  /** A declared field that is set holds what its last occurrence sent; one that is not keeps the
      zero value of its type, empty text or nil. */
  lemma {:induction false} FieldsHoldWhatWasSent(columns: seq<Column>, i: nat, members: seq<Member>, raw: Raw)
    requires i < |columns| && columns[i].name != "" && IsLast(members, Member(columns[i].name, raw))
    ensures var cell := Decoded(columns, ObjectOf(members)).cells[i];
      if Fits(columns[i].kind, raw) then Holds(columns[i].kind, raw, cell)
      else cell == if columns[i].kind == PlainString then Text("") else Unset
  {
    var name, kind := columns[i].name, columns[i].kind;
    assert Fits(kind, raw) <==> !raw.Null? && Accepts(kind, raw);
    hide ValueFor, Settled, FieldValue, Accepts, Holds, Decoded, ObjectOf, Fits;
    ReadsLastValue(members, name);
    LastIsLast(members, name);
    OneIsLast(members, Member(name, raw), Member(name, raw));
    OneIsLast(members, Member(name, raw), Member(name, LastValue(members, name).value));
    DecodedCell(columns, ObjectOf(members), i);
    PresentField(columns[i], ObjectOf(members), raw);
    if !raw.Null? {
      TypeAcceptsExactly(kind, raw);
      if Accepts(kind, raw) {
        DecodedValueIsSent(kind, raw);
      }
    }
  }

  /** A field the record does not have, or that has no wire name, keeps its zero value too. */
  lemma {:induction false} AbsentFieldsAreZero(columns: seq<Column>, i: nat, members: seq<Member>)
    requires i < |columns| && (columns[i].name == "" || columns[i].name !in NamesOf(members))
    ensures Decoded(columns, ObjectOf(members)).cells[i] == if columns[i].kind == PlainString then Text("") else Unset
  {
    ReadsLastValue(members, columns[i].name);
    LastIsLast(members, columns[i].name);
    DecodedCell(columns, ObjectOf(members), i);
  }

  lemma DecodedCell(columns: seq<Column>, fields: Object, i: nat)
    requires i < |columns|
    ensures |Decoded(columns, fields).cells| == |columns| &&
      Decoded(columns, fields).cells[i] == Settled(columns[i], fields)
  {
  }

  /** A declared field whose name the record has. */
  lemma PresentField(column: Column, fields: Object, raw: Raw)
    requires column.name != "" && Get(fields, column.name) == Some(raw)
    ensures Settled(column, fields) ==
      if raw.Null? || ValueFor(column.kind, raw) == None then Default(column.kind) else ValueFor(column.kind, raw).value
  {
    assert FieldValue(column, fields) == if raw.Null? then None else ValueFor(column.kind, raw);
  }

  lemma FieldIsText(column: Column, fields: Object, raw: Raw)
    requires column.name != "" && column.kind in {StringPointer, PlainString}
    requires Get(fields, column.name) == Some(raw) && !raw.Null?
    ensures Settled(column, fields) == Text(if raw.String? then raw.chars else JsonText(raw))
  {
    assert FieldValue(column, fields) == ValueFor(column.kind, raw);
  }

  /** Records that differ only in the occurrences of one field decode alike in every field
      tagged otherwise. */
  lemma {:induction false} FieldsAreIndependent(columns: seq<Column>, a: seq<Member>, b: seq<Member>, name: string,
                                                i: nat)
    requires Without(a, name) == Without(b, name)
    requires i < |columns| && columns[i].name != name
    ensures Decoded(columns, ObjectOf(a)).cells[i] == Decoded(columns, ObjectOf(b)).cells[i]
  {
    var other := columns[i].name;
    ReadsLastValue(a, other);
    ReadsLastValue(b, other);
    OtherFieldsStay(a, name, other);
    OtherFieldsStay(b, name, other);
    SameFieldValue(columns[i], ObjectOf(a), ObjectOf(b));
  }

  lemma SameFieldValue(column: Column, a: Object, b: Object)
    requires Get(a, column.name) == Get(b, column.name)
    ensures Settled(column, a) == Settled(column, b)
  {
  }

  /** With distinct tags at most one declared field can differ, and none when the field is
      one the model does not declare. */
  lemma {:induction false} AtMostOneFieldDiffers(columns: seq<Column>, a: seq<Member>, b: seq<Member>, name: string)
    requires Without(a, name) == Without(b, name)
    requires forall i, j :: 0 <= i < j < |columns| ==> columns[i].name != columns[j].name
    ensures var x, y := Decoded(columns, ObjectOf(a)).cells, Decoded(columns, ObjectOf(b)).cells;
      && ((forall i :: 0 <= i < |columns| ==> columns[i].name != name) ==> x == y)
      && (forall i :: 0 <= i < |columns| && columns[i].name == name ==> y == x[i := y[i]])
  {
    var x, y := Decoded(columns, ObjectOf(a)).cells, Decoded(columns, ObjectOf(b)).cells;
    assert |x| == |columns| == |y|;
    forall i | 0 <= i < |columns| && columns[i].name != name ensures x[i] == y[i] {
      FieldsAreIndependent(columns, a, b, name, i);
    }
    CellsAgree(columns, x, y, name);
  }

  lemma CellsAgree(columns: seq<Column>, x: seq<Cell>, y: seq<Cell>, name: string)
    requires |x| == |columns| == |y|
    requires forall i :: 0 <= i < |columns| && columns[i].name != name ==> x[i] == y[i]
    requires forall i, j :: 0 <= i < j < |columns| ==> columns[i].name != columns[j].name
    ensures (forall i :: 0 <= i < |columns| ==> columns[i].name != name) ==> x == y
    ensures forall i :: 0 <= i < |columns| && columns[i].name == name ==> y == x[i := y[i]]
  {
  }

  /** The order in which a record's fields arrive does not change how it decodes. */
  lemma FieldOrderIsIrrelevant(columns: seq<Column>, a: seq<Member>, b: seq<Member>)
    requires NoRepeats(NamesOf(a)) && NoRepeats(NamesOf(b)) && forall member :: member in a <==> member in b
    ensures Decoded(columns, ObjectOf(a)).cells == Decoded(columns, ObjectOf(b)).cells
  {
    ReorderedFieldsReadTheSame(a, b);
    forall i | 0 <= i < |columns| ensures Settled(columns[i], ObjectOf(a)) == Settled(columns[i], ObjectOf(b)) {
      SameFieldValue(columns[i], ObjectOf(a), ObjectOf(b));
    }
  }

  // Lists: an entry that cannot be read costs only itself.

  lemma {:induction false} TypesReadApart(xs: seq<Raw>, ys: seq<Raw>)
    ensures TypesIn(xs + ys) == TypesIn(xs) + TypesIn(ys)
  {
    if ys == [] {
      assert xs + ys == xs;
    } else {
      var n := |ys| - 1;
      TypesReadApart(xs, ys[..n]);
      hide Decoded, ObjectOf;
      assert (xs + ys)[..|xs + ys| - 1] == xs + ys[..n];
    }
  }

  /** One entry of a list of errors: an object is one detail, anything else none. */
  lemma OneDetailEach(item: Raw)
    ensures DetailsIn([item]) == if item.Members? then [Decoded(ERROR_COLUMNS, ObjectOf(item.members))] else []
  {
    hide Decoded, ObjectOf;
    assert [item][..0] == [] && DetailsIn([]) == [];
  }

  lemma {:induction false} DetailsReadApart(xs: seq<Raw>, ys: seq<Raw>)
    ensures DetailsIn(xs + ys) == DetailsIn(xs) + DetailsIn(ys)
  {
    if ys == [] {
      assert xs + ys == xs;
    } else {
      var n := |ys| - 1;
      DetailsReadApart(xs, ys[..n]);
      hide Decoded, ObjectOf;
      assert (xs + ys)[..|xs + ys| - 1] == xs + ys[..n];
    }
  }

  lemma {:induction false} StringsReadApart(xs: seq<Raw>, ys: seq<Raw>)
    ensures StringEntries(xs + ys) == StringEntries(xs) + StringEntries(ys)
  {
    if ys == [] {
      assert xs + ys == xs;
    } else {
      var n := |ys| - 1;
      StringsReadApart(xs, ys[..n]);
      assert (xs + ys)[..|xs + ys| - 1] == xs + ys[..n];
    }
  }

  predicate IsEntry(item: Raw) {
    item.Null? || item.Members?
  }

  /** `positions` picks, in order, exactly the entries that are null or an object. */
  ghost predicate PicksEntries(items: seq<Raw>, positions: seq<nat>) {
    && (forall k, l :: 0 <= k < l < |positions| ==> positions[k] < positions[l])
    && (forall k :: 0 <= k < |positions| ==> positions[k] < |items|)
    && (forall i :: 0 <= i < |items| ==> (i in positions <==> IsEntry(items[i])))
  }

  ghost predicate ReadsEntry(entry: Option<Row>, item: Raw) {
    match item
    case Null => entry == None
    case Members(_, members) => entry == Some(Decoded(TYPE_COLUMNS, ObjectOf(members)))
    case _ => false
  }

  /** The deductibility entries come out in order: nil for each null, a decoded record for each
      object, and nothing for anything else. */
  lemma {:induction false} TypesKeepOrder(items: seq<Raw>) returns (positions: seq<nat>)
    ensures PicksEntries(items, positions) && ReadsEntries(TypesIn(items), items, positions)
  {
    positions := [];
    if items != [] {
      var n := |items| - 1;
      positions := TypesKeepOrder(items[..n]);
      var entry := TypesOneMore(items);
      hide *;
      PicksOneMoreEntry(items, n, positions);
      ReadsOneMoreEntry(TypesIn(items[..n]), items, n, positions, entry);
      if IsEntry(items[n]) {
        positions := positions + [n];
      }
    }
  }

  ghost predicate ReadsEntries(types: seq<Option<Row>>, items: seq<Raw>, positions: seq<nat>) {
    |types| == |positions| &&
    forall k :: 0 <= k < |positions| ==> positions[k] < |items| && ReadsEntry(types[k], items[positions[k]])
  }

  lemma ReadsOneMoreEntry(types: seq<Option<Row>>, items: seq<Raw>, n: nat, positions: seq<nat>, entry: Option<Row>)
    requires n + 1 == |items| && ReadsEntries(types, items[..n], positions)
    ensures ReadsEntries(types, items, positions)
    ensures ReadsEntry(entry, items[n]) ==> ReadsEntries(types + [entry], items, positions + [n])
  {
    hide ReadsEntry;
    assert forall i :: 0 <= i < n ==> items[..n][i] == items[i];
  }

  lemma TypesOneMore(items: seq<Raw>) returns (entry: Option<Row>)
    requires items != []
    ensures var n := |items| - 1;
      if IsEntry(items[n])
      then ReadsEntry(entry, items[n]) && TypesIn(items) == TypesIn(items[..n]) + [entry]
      else TypesIn(items) == TypesIn(items[..n])
  {
    hide Decoded, ObjectOf;
    var last := items[|items| - 1];
    entry := if last.Members? then Some(Decoded(TYPE_COLUMNS, ObjectOf(last.members))) else None;
  }

  lemma PicksOneMoreEntry(items: seq<Raw>, n: nat, positions: seq<nat>)
    requires n + 1 == |items| && PicksEntries(items[..n], positions)
    ensures PicksEntries(items, if IsEntry(items[n]) then positions + [n] else positions)
  {
    assert forall i :: 0 <= i < n ==> items[..n][i] == items[i];
    assert n !in positions;
    assert forall i :: 0 <= i < n ==> (i in positions + [n] <==> i in positions);
  }

  function StringsOnly(items: seq<Raw>): seq<string> {
    if items == [] then []
    else if items[0].String? then [items[0].chars] + StringsOnly(items[1..])
    else StringsOnly(items[1..])
  }

  /** Skipping the entries that are not strings is what the list reader is documented to do;
      it does so exactly when no entry is null, for a null is read as "". */
  lemma {:induction false} NonStringsAreSkippedUnlessNull(items: seq<Raw>)
    ensures StringEntries(items) == StringsOnly(items) <==> Null !in items
    ensures |StringEntries(items)| >= |StringsOnly(items)|
  {
    if items != [] {
      var head, tail := items[0], items[1..];
      assert items == [head] + tail;
      StringsReadApart([head], tail);
      NonStringsAreSkippedUnlessNull(tail);
      assert [head][..0] == [];
      assert StringEntries([head]) == match head case String(chars) => [chars] case Null => [""] case _ => [];
      assert Null in items <==> head == Null || Null in tail;
      if head.String? {
        assert StringEntries(items)[1..] == StringEntries(tail) && StringsOnly(items)[1..] == StringsOnly(tail);
      } else if head.Null? {
        assert |StringEntries(items)| == 1 + |StringEntries(tail)|;
      }
    }
  }

  lemma {:induction false} NullEntryIsRead()
    ensures StringEntries([String("411787097"), Null]) == ["411787097", ""]
  {
    StringsReadApart([String("411787097")], [Null]);
    assert [String("411787097")] + [Null] == [String("411787097"), Null];
    assert StringEntries([String("411787097")]) == ["411787097"];
    assert StringEntries([Null]) == [""];
  }

  /** A list of strings is read back as it was sent. */
  lemma {:induction false} StringsReadBack(list: seq<string>)
    ensures StringEntries(AsStrings(list)) == list
  {
    if list != [] {
      var front, last := list[..|list| - 1], list[|list| - 1];
      StringsReadBack(front);
      assert AsStrings(list)[..|list| - 1] == AsStrings(front);
      assert front + [last] == list;
    }
  }

  function AsStrings(list: seq<string>): seq<Raw> {
    seq(|list|, i requires 0 <= i < |list| => String(list[i]))
  }

  predicate Clean(entry: string) {
    entry != "" && Trimmed(entry) && ',' !in entry
  }

  lemma {:induction false} EntriesOfClean(list: seq<string>)
    requires forall entry :: entry in list ==> Clean(entry)
    ensures Entries(list) == list
  {
    if list != [] {
      var front, last := list[..|list| - 1], list[|list| - 1];
      assert last in list;
      EntriesOfClean(front);
      TrimmedAlready(last);
      assert front + [last] == list;
    }
  }

  lemma {:induction false} EntriesAreClean(parts: seq<string>)
    requires forall part :: part in parts ==> ',' !in part
    ensures forall entry :: entry in Entries(parts) ==> Clean(entry)
  {
    if parts != [] {
      var front, last := parts[..|parts| - 1], parts[|parts| - 1];
      assert last in parts;
      EntriesAreClean(front);
      var left, right := TrimSplits(last);
      assert forall c :: c in Trim(last) ==> c in last;
    }
  }

  lemma NoEntriesInNothing()
    ensures Entries(Split("", ',')) == []
  {
    assert Split("", ',') == [""];
    assert [""][..0] == [];
    assert Trim("") == "";
  }

  lemma CleanListReadsBack(list: seq<string>)
    requires forall entry :: entry in list ==> Clean(entry)
    ensures Entries(Split(Join(list, ','), ',')) == list
  {
    assert forall entry :: entry in list ==> ',' !in entry;
    assert list == [] ==> Join(list, ',') == "";
    hide Clean, Entries, Split, Join;
    if list == [] {
      NoEntriesInNothing();
    } else {
      SplitJoin(list, ',');
      EntriesOfClean(list);
    }
  }

  /** A list joined with commas is read back as it was sent exactly when every entry is
      non-empty, trimmed and free of commas. */
  lemma {:induction false} JoinedListReadsBack(list: seq<string>)
    ensures EinsIn(String(Join(list, ','))) == Some(list) <==> forall entry :: entry in list ==> Clean(entry)
  {
    var parts := Split(Join(list, ','), ',');
    assert EinsIn(String(Join(list, ','))) == Some(Entries(parts));
    hide Clean, Entries, Split, Join, EinsIn;
    EntriesAreClean(parts);
    if forall entry :: entry in list ==> Clean(entry) {
      CleanListReadsBack(list);
    }
  }
}
