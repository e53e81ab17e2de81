/** A bulk lookup from the server's answer to the caller's result, and what the caller can
    conclude about each submitted EIN. */
module BulkLookup {
  import opened Text
  import opened Wrappers
  import opened Repeats
  import opened RawObjects
  import opened Decoding
  import Sorting
  import Billing
  import Eins

  const ENVELOPE_COLUMNS := [
    Column("code", IntPointer),
    Column("message", StringPointer),
    Column("errors", ErrorList),
    Column("timeTaken", FloatPointer),
    Column("nonprofit_check_count", Int64Pointer)]

  const ERRORS := 2
  const CHECK_COUNT := 4

  const NONPROFIT_COLUMNS := [
    Column("pactman_org_url", StringPointer),
    Column("organization_info_last_modified", StringPointer),
    Column("ein", StringPointer),
    Column("organization_name", StringPointer),
    Column("organization_name_aka", StringPointer),
    Column("address_line1", StringPointer),
    Column("address_line2", StringPointer),
    Column("city", StringPointer),
    Column("state", StringPointer),
    Column("state_name", StringPointer),
    Column("zip", StringPointer),
    Column("filing_req_code", StringPointer),
    Column("pub78_church_message", StringPointer),
    Column("pub78_organization_name", StringPointer),
    Column("pub78_ein", StringPointer),
    Column("pub78_verified", BoolPointer),
    Column("pub78_city", StringPointer),
    Column("pub78_state", StringPointer),
    Column("pub78_indicator", StringPointer),
    Column("organization_types", TypeList),
    Column("most_recent_pub78", StringPointer),
    Column("bmf_church_message", StringPointer),
    Column("bmf_organization_name", StringPointer),
    Column("bmf_ein", StringPointer),
    Column("bmf_status", BoolPointer),
    Column("bmf_subsection", StringPointer),
    Column("most_recent_bmf", StringPointer),
    Column("subsection_description", StringPointer),
    Column("foundation_code", StringPointer),
    Column("foundation_code_description", StringPointer),
    Column("foundation_type_code", StringPointer),
    Column("foundation_type_description", StringPointer),
    Column("foundation_509a_status", StringPointer),
    Column("ruling_month", StringPointer),
    Column("ruling_year", StringPointer),
    Column("group_exemption", StringPointer),
    Column("exempt_status_code", StringPointer),
    Column("ofac_status", StringPointer),
    Column("revocation_code", StringPointer),
    Column("revocation_date", StringPointer),
    Column("reinstatement_date", StringPointer),
    Column("irs_bmf_pub78_conflict", BoolPointer),
    Column("report_date", StringPointer)]

  const EIN := 2

  // Reading a response.

  function EnvelopeOf(body: Option<Raw>): (envelope: Row)
    ensures |envelope.cells| == |ENVELOPE_COLUMNS|
  {
    match body
    case Some(Members(_, members)) => Decoded(ENVELOPE_COLUMNS, ObjectOf(members))
    case _ => Decoded(ENVELOPE_COLUMNS, NO_FIELDS)
  }

  method ReadEnvelope(body: Option<Raw>) returns (envelope: Row)
    ensures envelope == EnvelopeOf(body)
  {
    var fields := NO_FIELDS;
    if body.Some? {
      var parsed := ParseObject(body.value);
      if parsed.Some? {
        fields := parsed.value;
      }
    }
    envelope := NewModel(ENVELOPE_COLUMNS, fields);
  }

  function Nonprofits(items: seq<Raw>): seq<Row> {
    if items == [] then []
    else
      var last := items[|items| - 1];
      Nonprofits(items[..|items| - 1]) +
      if last.Members? then [Decoded(NONPROFIT_COLUMNS, ObjectOf(last.members))] else []
  }

  /** The records under `data`, which holds a list or an object wrapping one. */
  function OrganizationsIn(fields: Object): seq<Row> {
    match Get(fields, "data")
    case Some(Array(_, items)) => Nonprofits(items)
    case Some(Members(_, wrapped)) =>
      (match Get(ObjectOf(wrapped), "organizations")
       case Some(Array(_, items)) => Nonprofits(items)
       case _ => [])
    case _ => []
  }

  method ExtractOrganizations(envelope: Row) returns (organizations: seq<Row>)
    ensures organizations == OrganizationsIn(envelope.fields)
  {
    organizations := [];
    var data := Get(envelope.fields, "data");
    if data == None {
      return;
    }
    var wrapped := ParseObject(data.value);
    if wrapped.Some? {
      data := Get(wrapped.value, "organizations");
      if data == None {
        return;
      }
    }
    if !data.value.Array? {
      return;
    }
    var list := data.value.items;
    for i := 0 to |list|
      invariant organizations == Nonprofits(list[..i])
    {
      assert list[..i + 1][..i] == list[..i];
      var fields := ParseObject(list[i]);
      if fields.Some? {
        var nonprofit := NewModel(NONPROFIT_COLUMNS, fields.value);
        organizations := organizations + [nonprofit];
      }
    }
    assert list[..|list|] == list;
  }

  /** The EINs an error names; none if the field is nil. */
  function EinsNamed(detail: Row): seq<string> {
    if |detail.cells| > EINS && detail.cells[EINS].Strings? then detail.cells[EINS].strings else []
  }

  function NotFoundIn(details: seq<Row>): seq<string> {
    if details == [] then []
    else NotFoundIn(details[..|details| - 1]) + EinsNamed(details[|details| - 1])
  }

  method ExtractNotFoundEINs(details: seq<Row>) returns (found: seq<string>)
    ensures found == NotFoundIn(details)
  {
    found := [];
    for i := 0 to |details|
      invariant found == NotFoundIn(details[..i])
    {
      assert details[..i + 1][..i] == details[..i];
      found := found + EinsNamed(details[i]);
    }
    assert details[..|details|] == details;
  }

  datatype BulkCheckResult = BulkCheckResult(organizations: seq<Row>, notFoundEINs: seq<string>,
                                             checkCount: Option<int>)

  function ErrorsOf(envelope: Row): seq<Row> {
    if |envelope.cells| > ERRORS && envelope.cells[ERRORS].Details? then envelope.cells[ERRORS].details else []
  }

  function CheckCountOf(envelope: Row): Option<int> {
    if |envelope.cells| > CHECK_COUNT && envelope.cells[CHECK_COUNT].Whole?
    then Some(envelope.cells[CHECK_COUNT].number)
    else None
  }

  function ResultOf(body: Option<Raw>): BulkCheckResult {
    var envelope := EnvelopeOf(body);
    BulkCheckResult(OrganizationsIn(envelope.fields), NotFoundIn(ErrorsOf(envelope)), CheckCountOf(envelope))
  }

  /** What `CheckBulk` does with the body of a successful response. */
  method ReadBulkResponse(body: Option<Raw>) returns (result: BulkCheckResult)
    ensures result == ResultOf(body)
  {
    var envelope := ReadEnvelope(body);
    var organizations := ExtractOrganizations(envelope);
    var notFound := ExtractNotFoundEINs(ErrorsOf(envelope));
    return BulkCheckResult(organizations, notFound, CheckCountOf(envelope));
  }

  // What a server sends: any object with these fields, whatever else it holds.

  ghost predicate IsRecordOf(raw: Raw, ein: string) {
    raw.Members? && IsLast(raw.members, Member("ein", String(ein)))
  }

  ghost predicate RecordsOf(items: seq<Raw>, eins: seq<string>) {
    |items| == |eins| && forall i :: 0 <= i < |eins| ==> IsRecordOf(items[i], eins[i])
  }

  ghost predicate DataLists(data: Raw, eins: seq<string>) {
    match data
    case Array(_, items) => RecordsOf(items, eins)
    case Members(_, wrapped) => exists list ::
      IsLast(wrapped, Member("organizations", list)) && list.Array? && RecordsOf(list.items, eins)
    case _ => false
  }

  /** A list of strings, or one comma-joined string. */
  ghost predicate Carries(raw: Raw, eins: seq<string>) {
    match raw
    case Array(_, items) => items == AsStrings(eins)
    case String(chars) => chars == Join(eins, ',')
    case _ => false
  }

  ghost predicate ErrorsName(errors: Raw, notFound: seq<string>) {
    match errors
    case Null => notFound == []
    case Array(_, items) => OneErrorNames(items, notFound)
    case _ => false
  }

  ghost predicate OneErrorNames(items: seq<Raw>, notFound: seq<string>) {
    |items| == 1 && items[0].Members? && exists eins ::
      IsLast(items[0].members, Member("eins", eins)) && Carries(eins, notFound)
  }

  /** The missing EINs travel as one string rather than as a list. */
  ghost predicate InOneString(errors: Raw) {
    errors.Array? && |errors.items| == 1 && errors.items[0].Members? &&
    exists joined :: IsLast(errors.items[0].members, Member("eins", String(joined)))
  }

  ghost predicate MissingInOneString(body: Raw) {
    body.Members? && exists errors :: IsLast(body.members, Member("errors", errors)) && InOneString(errors)
  }

  ghost predicate AllClean(eins: seq<string>) {
    forall ein :: ein in eins ==> Clean(ein)
  }

  ghost predicate Answers(body: Raw, reply: Billing.BulkReply) {
    body.Members? && reply.Served? &&
    (exists data :: IsLast(body.members, Member("data", data)) && DataLists(data, reply.matched)) &&
    (exists errors :: IsLast(body.members, Member("errors", errors)) && ErrorsName(errors, reply.notFound))
  }

  // What the client reads back.

  function EinsReturned(organizations: seq<Row>): seq<Cell> {
    seq(|organizations|, i requires 0 <= i < |organizations| =>
      if |organizations[i].cells| > EIN then organizations[i].cells[EIN] else Unset)
  }

  function Texts(eins: seq<string>): seq<Cell> {
    seq(|eins|, i requires 0 <= i < |eins| => Text(eins[i]))
  }

  lemma LastReads(members: seq<Member>, member: Member)
    requires IsLast(members, member)
    ensures Get(ObjectOf(members), member.name) == Some(member.value)
  {
    ReadsLastValue(members, member.name);
    LastIsLast(members, member.name);
    OneIsLast(members, member, member);
    OneIsLast(members, member, Member(member.name, LastValue(members, member.name).value));
  }

  lemma {:induction false} RecordsRead(items: seq<Raw>, eins: seq<string>)
    requires RecordsOf(items, eins)
    ensures EinsReturned(Nonprofits(items)) == Texts(eins)
  {
    if items != [] {
      var n := |items| - 1;
      RecordsRead(items[..n], eins[..n]);
      RecordReads(items[n], eins[n]);
      hide Decoded, ObjectOf, IsRecordOf, Nonprofits;
      NonprofitsOneMore(items);
      assert Texts(eins) == Texts(eins[..n]) + [Text(eins[n])];
      assert EinsReturned(Nonprofits(items)) ==
        EinsReturned(Nonprofits(items[..n])) + [Decoded(NONPROFIT_COLUMNS, ObjectOf(items[n].members)).cells[EIN]];
    }
  }

  lemma NonprofitsOneMore(items: seq<Raw>)
    requires items != [] && items[|items| - 1].Members?
    ensures Nonprofits(items) ==
      Nonprofits(items[..|items| - 1]) + [Decoded(NONPROFIT_COLUMNS, ObjectOf(items[|items| - 1].members))]
  {
  }

  lemma RecordReads(raw: Raw, ein: string)
    requires IsRecordOf(raw, ein)
    ensures |Decoded(NONPROFIT_COLUMNS, ObjectOf(raw.members)).cells| > EIN
    ensures Decoded(NONPROFIT_COLUMNS, ObjectOf(raw.members)).cells[EIN] == Text(ein)
  {
    assert NONPROFIT_COLUMNS[EIN] == Column("ein", StringPointer);
    StringFieldsAreNeverLost(NONPROFIT_COLUMNS, EIN, raw.members, String(ein));
  }

  /** Records are read one by one in order, an object each, anything else skipped. */
  lemma {:induction false} NonprofitsReadApart(xs: seq<Raw>, ys: seq<Raw>)
    ensures Nonprofits(xs + ys) == Nonprofits(xs) + Nonprofits(ys)
    ensures |xs| == 1 ==>
      Nonprofits(xs) == if xs[0].Members? then [Decoded(NONPROFIT_COLUMNS, ObjectOf(xs[0].members))] else []
  {
    if |xs| == 1 {
      assert xs[..0] == [] && Nonprofits([]) == [];
    }
    if ys == [] {
      assert xs + ys == xs;
    } else {
      var n := |ys| - 1;
      NonprofitsReadApart(xs, ys[..n]);
      hide Decoded, ObjectOf;
      assert (xs + ys)[..|xs + ys| - 1] == xs + ys[..n];
    }
  }

  /** Errors name their EINs one after the other. */
  lemma {:induction false} NotFoundReadsApart(xs: seq<Row>, ys: seq<Row>)
    ensures NotFoundIn(xs + ys) == NotFoundIn(xs) + NotFoundIn(ys)
    ensures |xs| == 1 ==> NotFoundIn(xs) == EinsNamed(xs[0])
  {
    if |xs| == 1 {
      assert xs[..0] == [] && NotFoundIn([]) == [];
    }
    if ys == [] {
      assert xs + ys == xs;
    } else {
      var n := |ys| - 1;
      NotFoundReadsApart(xs, ys[..n]);
      assert (xs + ys)[..|xs + ys| - 1] == xs + ys[..n];
    }
  }

  /** Where there are no records to read: `data` absent, null, or neither a list nor an object
      wrapping one. */
  lemma NoRecords(members: seq<Member>)
    ensures !(exists data :: IsLast(members, Member("data", data)) && (data.Array? || data.Members?)) ==>
      OrganizationsIn(ObjectOf(members)) == []
  {
    ReadsLastValue(members, "data");
    LastIsLast(members, "data");
    hide LastValue, ObjectOf, IsLast;
  }

  /** The declared fields of a record that are no text: three flags and the deductibility entries. */
  lemma FlagColumns()
    ensures |NONPROFIT_COLUMNS| == 43
    ensures NONPROFIT_COLUMNS[15] == Column("pub78_verified", BoolPointer)
    ensures NONPROFIT_COLUMNS[19] == Column("organization_types", TypeList)
    ensures NONPROFIT_COLUMNS[24] == Column("bmf_status", BoolPointer)
    ensures NONPROFIT_COLUMNS[41] == Column("irs_bmf_pub78_conflict", BoolPointer)
  {
  }

  lemma DataReads(members: seq<Member>, data: Raw, eins: seq<string>)
    requires IsLast(members, Member("data", data)) && DataLists(data, eins)
    ensures EinsReturned(OrganizationsIn(ObjectOf(members))) == Texts(eins)
  {
    LastReads(members, Member("data", data));
    hide ObjectOf, IsLast, Nonprofits, EinsReturned, Texts, RecordsOf, OrganizationsIn;
    if data.Array? {
      ListedOrganizations(ObjectOf(members), data);
      RecordsRead(data.items, eins);
    } else {
      var list :| IsLast(data.members, Member("organizations", list)) && list.Array? && RecordsOf(list.items, eins);
      LastReads(data.members, Member("organizations", list));
      WrappedOrganizations(ObjectOf(members), data, list);
      RecordsRead(list.items, eins);
    }
  }

  lemma ListedOrganizations(fields: Object, data: Raw)
    requires Get(fields, "data") == Some(data) && data.Array?
    ensures OrganizationsIn(fields) == Nonprofits(data.items)
  {
  }

  lemma WrappedOrganizations(fields: Object, data: Raw, list: Raw)
    requires Get(fields, "data") == Some(data) && data.Members?
    requires Get(ObjectOf(data.members), "organizations") == Some(list) && list.Array?
    ensures OrganizationsIn(fields) == Nonprofits(list.items)
  {
    hide ObjectOf;
  }

  lemma CarriedReadsBack(raw: Raw, eins: seq<string>) returns (list: seq<string>)
    requires Carries(raw, eins)
    ensures EinsIn(raw) == Some(list)
    ensures list == eins <==> raw.Array? || AllClean(eins)
  {
    list := EinsIn(raw).value;
    if raw.Array? {
      StringsReadBack(eins);
    } else {
      JoinedListReadsBack(eins);
    }
  }

  lemma DetailReads(members: seq<Member>, raw: Raw, eins: seq<string>)
    requires IsLast(members, Member("eins", raw)) && !raw.Null? && EinsIn(raw) == Some(eins)
    ensures EinsNamed(Decoded(ERROR_COLUMNS, ObjectOf(members))) == eins
  {
    assert ERROR_COLUMNS[EINS] == Column("eins", StringList) && |ERROR_COLUMNS| > EINS;
    assert ValueFor(StringList, raw) == Some(Strings(eins));
    hide Decoded, ObjectOf, IsLast, Settled, ValueFor, FieldValue, EinsIn;
    LastReads(members, Member("eins", raw));
    DecodedCell(ERROR_COLUMNS, ObjectOf(members), EINS);
    PresentField(ERROR_COLUMNS[EINS], ObjectOf(members), raw);
  }

  lemma ErrorsCell(members: seq<Member>, errors: Raw)
    requires IsLast(members, Member("errors", errors))
    ensures ErrorsOf(Decoded(ENVELOPE_COLUMNS, ObjectOf(members))) == if errors.Null? then [] else ErrorsIn(errors)
  {
    assert ENVELOPE_COLUMNS[ERRORS] == Column("errors", ErrorList) && |ENVELOPE_COLUMNS| > ERRORS;
    assert ValueFor(ErrorList, errors) == Some(Details(ErrorsIn(errors)));
    hide Decoded, ObjectOf, IsLast, Settled, ValueFor, FieldValue, ErrorsIn;
    LastReads(members, Member("errors", errors));
    DecodedCell(ENVELOPE_COLUMNS, ObjectOf(members), ERRORS);
    PresentField(ENVELOPE_COLUMNS[ERRORS], ObjectOf(members), errors);
  }

  lemma ErrorsRead(members: seq<Member>, errors: Raw, notFound: seq<string>)
    requires IsLast(members, Member("errors", errors)) && ErrorsName(errors, notFound)
    ensures NotFoundIn(ErrorsOf(Decoded(ENVELOPE_COLUMNS, ObjectOf(members)))) == notFound <==>
      (InOneString(errors) ==> AllClean(notFound))
  {
    ErrorsCell(members, errors);
    hide Decoded, ObjectOf, ErrorsOf;
    if errors.Array? {
      assert ErrorsIn(errors) == DetailsIn(errors.items);
      ListedErrorsRead(errors, notFound);
    }
  }

  lemma ListedErrorsRead(errors: Raw, notFound: seq<string>)
    requires errors.Array? && OneErrorNames(errors.items, notFound)
    ensures NotFoundIn(DetailsIn(errors.items)) == notFound <==> (InOneString(errors) ==> AllClean(notFound))
  {
    var members := errors.items[0].members;
    var eins :| IsLast(members, Member("eins", eins)) && Carries(eins, notFound);
    assert eins.Array? || eins.String?;
    assert InOneString(errors) <==> eins.String? by {
      if joined :| IsLast(members, Member("eins", String(joined))) {
        OneIsLast(members, Member("eins", eins), Member("eins", String(joined)));
      }
      if eins.String? {
        assert IsLast(members, Member("eins", String(eins.chars)));
      }
    }
    hide *;
    var list := CarriedReadsBack(eins, notFound);
    DetailReads(members, eins, list);
    OneDetail(errors.items);
  }

  lemma OneDetail(items: seq<Raw>)
    requires |items| == 1 && items[0].Members?
    ensures NotFoundIn(DetailsIn(items)) == EinsNamed(Decoded(ERROR_COLUMNS, ObjectOf(items[0].members)))
  {
    hide Decoded, ObjectOf, EinsNamed;
    var detail := Decoded(ERROR_COLUMNS, ObjectOf(items[0].members));
    assert items[..0] == [];
    assert DetailsIn([]) == [];
    assert DetailsIn(items) == [detail];
    assert [detail][..0] == [];
    assert NotFoundIn([]) == [];
  }

  // Reconciliation.

  lemma ResultReads(body: Raw, reply: Billing.BulkReply)
    requires Answers(body, reply)
    ensures EinsReturned(ResultOf(Some(body)).organizations) == Texts(reply.matched)
    ensures ResultOf(Some(body)).notFoundEINs == reply.notFound <==>
      (MissingInOneString(body) ==> AllClean(reply.notFound))
  {
    var data :| IsLast(body.members, Member("data", data)) && DataLists(data, reply.matched);
    var errors :| IsLast(body.members, Member("errors", errors)) && ErrorsName(errors, reply.notFound);
    EnvelopeFields(body);
    OneErrorsField(body, errors);
    hide *;
    DataReads(body.members, data, reply.matched);
    ErrorsRead(body.members, errors, reply.notFound);
  }

  lemma OneErrorsField(body: Raw, errors: Raw)
    requires body.Members? && IsLast(body.members, Member("errors", errors))
    ensures MissingInOneString(body) <==> InOneString(errors)
  {
    hide IsLast, InOneString;
    forall other | IsLast(body.members, Member("errors", other)) ensures other == errors {
      OneIsLast(body.members, Member("errors", errors), Member("errors", other));
    }
  }

  lemma EnvelopeFields(body: Raw)
    requires body.Members?
    ensures var envelope := Decoded(ENVELOPE_COLUMNS, ObjectOf(body.members));
      ResultOf(Some(body)) ==
        BulkCheckResult(OrganizationsIn(ObjectOf(body.members)), NotFoundIn(ErrorsOf(envelope)), CheckCountOf(envelope))
  {
    hide ObjectOf, OrganizationsIn, NotFoundIn, ErrorsOf, CheckCountOf;
  }

  /** `value` can be the double a whole number is read as: itself up to 2^53, and from there on
      nothing nearer to zero than 2^53. */
  predicate ReadAsDouble(count: int, value: real) {
    if count > MAX_SAFE then value >= MAX_SAFE as real
    else if count < -MAX_SAFE then value <= -MAX_SAFE as real
    else value == count as real
  }

  function Clamped(count: int): int {
    if count > MAX_SAFE then MAX_SAFE else if count < -MAX_SAFE then -MAX_SAFE else count
  }

  /** The check count is the number sent up to 2^53; a larger one is dropped, unless its double
      is 2^53 itself, as that of 2^53 + 1 is, and then it is read as that. */
  lemma {:induction false} CheckCountReads(body: Raw, literal: string, count: int, value: real)
    requires body.Members? && IsLast(body.members, Member("nonprofit_check_count", Number(literal, value)))
    requires ReadAsDouble(count, value)
    ensures ResultOf(Some(body)).checkCount == if value == Clamped(count) as real then Some(Clamped(count)) else None
    ensures -MAX_SAFE <= count <= MAX_SAFE ==> ResultOf(Some(body)).checkCount == Some(count)
  {
    var sent := Number(literal, value);
    assert ENVELOPE_COLUMNS[CHECK_COUNT] == Column("nonprofit_check_count", Int64Pointer);
    assert |ENVELOPE_COLUMNS| > CHECK_COUNT;
    WholeReads(count, sent);
    EnvelopeFields(body);
    hide Decoded, ObjectOf, IsLast, Settled, ValueFor, FieldValue, ResultOf, OrganizationsIn, NotFoundIn;
    LastReads(body.members, Member("nonprofit_check_count", sent));
    DecodedCell(ENVELOPE_COLUMNS, ObjectOf(body.members), CHECK_COUNT);
    PresentField(ENVELOPE_COLUMNS[CHECK_COUNT], ObjectOf(body.members), sent);
  }

  lemma WholeReads(count: int, sent: Raw)
    requires sent.Number? && ReadAsDouble(count, sent.value)
    ensures ValueFor(Int64Pointer, sent) ==
      if sent.value == Clamped(count) as real then Some(Whole(Clamped(count))) else None
  {
    if sent.value == Clamped(count) as real {
      assert sent.value.Floor == Clamped(count);
    }
  }

  lemma {:induction false} MissingKeepsCounts(eins: seq<string>, fixtures: set<string>, ein: string)
    ensures multiset(Billing.Missing(eins, fixtures))[ein] == if ein in fixtures then 0 else multiset(eins)[ein]
  {
    if eins != [] {
      hide *;
      var front, last := eins[..|eins| - 1], eins[|eins| - 1];
      MissingKeepsCounts(front, fixtures, ein);
      MissingKeepsOneMore(front, last, fixtures, ein);
      assert eins == front + [last];
    }
  }

  lemma MissingKeepsOneMore(front: seq<string>, last: string, fixtures: set<string>, ein: string)
    requires multiset(Billing.Missing(front, fixtures))[ein] == if ein in fixtures then 0 else multiset(front)[ein]
    ensures multiset(Billing.Missing(front + [last], fixtures))[ein] ==
      if ein in fixtures then 0 else multiset(front + [last])[ein]
  {
    hide *;
    var missing := Billing.Missing(front, fixtures);
    LookupOneMore(front, last, fixtures);
    CountAppend(front, last, ein);
    if last in fixtures {
      assert missing + [] == missing;
    } else {
      CountAppend(missing, last, ein);
    }
  }

  lemma CountAppend(front: seq<string>, last: string, ein: string)
    ensures multiset(front + [last])[ein] == multiset(front)[ein] + if last == ein then 1 else 0
  {
  }

  ghost predicate Returned(organizations: seq<Row>, ein: string) {
    Text(ein) in EinsReturned(organizations)
  }

  /** The organizations and the not-found list split a batch: each submitted EIN is on exactly
      one side, the organizations hold each of theirs once in ascending order, and the not-found
      list keeps the submitted order and every duplicate. */
  ghost predicate Reconciles(result: BulkCheckResult, eins: seq<string>, fixtures: set<string>) {
    && (forall ein :: Returned(result.organizations, ein) <==> ein in eins && ein in fixtures)
    && (forall ein :: ein in result.notFoundEINs <==> ein in eins && ein !in fixtures)
    && NoRepeats(EinsReturned(result.organizations))
    && |EinsReturned(result.organizations)| == |result.organizations| == |Billing.FoundIn(eins, fixtures)|
    && result.notFoundEINs == Billing.Missing(eins, fixtures)
    && (forall ein :: ein in result.notFoundEINs ==> multiset(result.notFoundEINs)[ein] == multiset(eins)[ein])
  }

  /** Every batch of strings the service answers with at least one record is reconciled in full
      by the client when the missing EINs travel as a list; when they travel as one joined
      string, exactly when each of the missing ones is non-empty, trimmed and free of commas. */
  lemma {:induction false} BatchIsReconciled(eins: seq<string>, fixtures: set<string>, count: int, body: Raw)
    requires Answers(body, Billing.ReplyTo(eins, fixtures, count))
    ensures Reconciles(ResultOf(Some(body)), eins, fixtures) <==>
      (MissingInOneString(body) ==> forall ein :: ein in eins && ein !in fixtures ==> Clean(ein))
  {
    var reply := Billing.ReplyTo(eins, fixtures, count);
    var found := Billing.FoundIn(eins, fixtures);
    assert reply.matched == Sorting.Listing(found, Sorting.Itself) && reply.notFound == Billing.Missing(eins, fixtures);
    forall ein ensures ein in reply.notFound <==> ein in eins && ein !in fixtures {
      Billing.MissingAreUnmatched(eins, fixtures, ein);
    }
    assert AllClean(reply.notFound) <==> forall ein :: ein in eins && ein !in fixtures ==> Clean(ein);
    assert Reconciles(ResultOf(Some(body)), eins, fixtures) ==> ResultOf(Some(body)).notFoundEINs == reply.notFound;
    hide *;
    ResultReads(body, reply);
    Sorting.ListingExists(found, Sorting.Itself);
    if ResultOf(Some(body)).notFoundEINs == reply.notFound {
      ReadsReconcile(ResultOf(Some(body)), eins, fixtures, reply.matched);
    }
  }

  lemma ReadsReconcile(result: BulkCheckResult, eins: seq<string>, fixtures: set<string>, matched: seq<string>)
    requires Sorting.Lists(matched, Billing.FoundIn(eins, fixtures), Sorting.Itself)
    requires EinsReturned(result.organizations) == Texts(matched)
    requires result.notFoundEINs == Billing.Missing(eins, fixtures)
    ensures Reconciles(result, eins, fixtures)
  {
    var found := Billing.FoundIn(eins, fixtures);
    Sorting.ListingHasSizeOf(matched, found, Sorting.Itself);
    TextsOfListing(matched, found);
    forall ein
      ensures multiset(result.notFoundEINs)[ein] == if ein in fixtures then 0 else multiset(eins)[ein]
      ensures ein in result.notFoundEINs <==> ein in eins && ein !in fixtures
    {
      MissingKeepsCounts(eins, fixtures, ein);
      Billing.MissingAreUnmatched(eins, fixtures, ein);
    }
    hide Billing.Missing, Sorting.Lists;
  }

  lemma TextsOfListing(matched: seq<string>, found: set<string>)
    requires Sorting.Lists(matched, found, Sorting.Itself)
    ensures NoRepeats(Texts(matched))
    ensures forall ein :: Text(ein) in Texts(matched) <==> ein in found
  {
    forall i, j | 0 <= i < j < |matched| ensures matched[i] != matched[j] {
      Text.LessIsIrreflexive(matched[i]);
    }
    forall ein ensures Text(ein) in Texts(matched) <==> ein in found {
      if ein in matched {
        var i :| 0 <= i < |matched| && matched[i] == ein;
        assert Texts(matched)[i] == Text(ein);
      }
    }
  }

  // The mock service's own answer.

  const RESOURCE := "nonprofitcheckbulk"
  const NO_MATCHES := "There are no matching nonprofits in our records for this set of EINs"

  function ErrorEntry(notFound: seq<string>): seq<Member> {
    [Member("resource", String(RESOURCE)), Member("reason", String(NO_MATCHES)),
     Member("code", Number("404", 404.0)), Member("eins", Array("", AsStrings(notFound)))]
  }

  function ErrorsFor(notFound: seq<string>): Raw {
    if notFound == [] then Null else Array("", [Members("", ErrorEntry(notFound))])
  }

  function Success(data: Raw, errors: Raw, timeTaken: Raw, count: Raw): seq<Member> {
    [Member("code", Number("200", 200.0)), Member("message", String("OK")), Member("errors", errors),
     Member("data", data), Member("timeTaken", timeTaken), Member("nonprofit_check_count", count)]
  }

  function MockBody(reply: Billing.BulkReply, records: seq<Raw>, timeTaken: Raw, count: Raw): Raw
    requires reply.Served?
  {
    Members("", Success(Array("", records), ErrorsFor(reply.notFound), timeTaken, count))
  }

  /** The envelope the mock service builds is one of the answers covered here. */
  lemma MockAnswers(reply: Billing.BulkReply, records: seq<Raw>, timeTaken: Raw, count: Raw)
    requires reply.Served? && RecordsOf(records, reply.matched)
    ensures Answers(MockBody(reply, records, timeTaken, count), reply)
  {
    var data, errors := Array("", records), ErrorsFor(reply.notFound);
    var members := Success(data, errors, timeTaken, count);
    assert members[3] == Member("data", data) && NoneNamed(members, 4, "data");
    assert members[2] == Member("errors", errors) && NoneNamed(members, 3, "errors");
    assert IsLast(members, Member("data", data)) && DataLists(data, reply.matched);
    if reply.notFound != [] {
      var entry := ErrorEntry(reply.notFound);
      var eins := Array("", AsStrings(reply.notFound));
      assert entry[3] == Member("eins", eins) && NoneNamed(entry, 4, "eins");
      assert IsLast(entry, Member("eins", eins)) && Carries(eins, reply.notFound);
      assert errors.items[0].members == entry;
      assert OneErrorNames(errors.items, reply.notFound);
    }
    assert IsLast(members, Member("errors", errors)) && ErrorsName(errors, reply.notFound);
  }

  // The whole lookup, from the caller's list to the caller's result.

  lemma DigitsAreClean(ein: string)
    requires |ein| == 9 && Eins.Digits(ein)
    ensures Clean(ein)
  {
    assert !IsSpace(ein[0]) && !IsSpace(ein[8]);
  }

  /** A valid batch is sent, matched and read back with nothing lost: every input's EIN is
      either returned or reported missing, never both, and nothing else is. */
  lemma {:induction false} EveryInputIsAccountedFor(inputs: seq<string>, dedupe: bool, fixtures: set<string>,
                                                    count: int, body: Raw)
    requires Eins.AllValid(inputs)
    requires Answers(body, Billing.ReplyTo(Eins.Payload(inputs, dedupe), fixtures, count))
    ensures var result := ResultOf(Some(body));
      && Reconciles(result, Eins.Payload(inputs, dedupe), fixtures)
      && (forall ein :: Returned(result.organizations, ein) || ein in result.notFoundEINs <==> Asked(inputs, ein))
      && (forall ein :: !(Returned(result.organizations, ein) && ein in result.notFoundEINs))
  {
    var payload := Eins.Payload(inputs, dedupe);
    forall ein ensures (ein in payload <==> Asked(inputs, ein)) && (ein in payload ==> Clean(ein)) {
      Eins.PayloadAsksForTheInput(inputs, dedupe, ein);
      if ein in payload {
        DigitsAreClean(ein);
      }
    }
    hide Asked, Clean, Answers, Eins.Payload;
    BatchIsReconciled(payload, fixtures, count, body);
    hide Returned, ResultOf;
  }

  ghost predicate Asked(inputs: seq<string>, ein: string) {
    exists i :: 0 <= i < |inputs| && Eins.NormalizeEIN(inputs[i]) == Some(ein)
  }

  lemma LookupOneMore(front: seq<string>, last: string, fixtures: set<string>)
    ensures Billing.Missing(front + [last], fixtures) ==
      Billing.Missing(front, fixtures) + if last in fixtures then [] else [last]
    ensures Billing.Matches(front + [last], fixtures) ==
      Billing.Matches(front, fixtures) + if last in fixtures then 1 else 0
  {
    assert (front + [last])[..|front|] == front;
  }

  lemma FoundOneMore(front: seq<string>, last: string, fixtures: set<string>)
    ensures var found := Billing.FoundIn(front + [last], fixtures);
      if last in fixtures && last !in front
      then found == Billing.FoundIn(front, fixtures) + {last} && |found| == |Billing.FoundIn(front, fixtures)| + 1
      else found == Billing.FoundIn(front, fixtures)
  {
  }

  lemma {:induction false} DedupeKeepsWhatIsMissing(eins: seq<string>, fixtures: set<string>)
    ensures Billing.Missing(FirstOccurrences(eins), fixtures) == FirstOccurrences(Billing.Missing(eins, fixtures))
  {
    if eins != [] {
      var front, last := eins[..|eins| - 1], eins[|eins| - 1];
      DedupeKeepsWhatIsMissing(front, fixtures);
      hide *;
      DedupeKeepsOneMoreMissing(front, last, fixtures);
      assert eins == front + [last];
    }
  }

  lemma DedupeKeepsOneMoreMissing(front: seq<string>, last: string, fixtures: set<string>)
    requires Billing.Missing(FirstOccurrences(front), fixtures) == FirstOccurrences(Billing.Missing(front, fixtures))
    ensures Billing.Missing(FirstOccurrences(front + [last]), fixtures) ==
      FirstOccurrences(Billing.Missing(front + [last], fixtures))
  {
    hide *;
    FirstOccurrencesAppend(front, last);
    LookupOneMore(front, last, fixtures);
    Billing.MissingAreUnmatched(front, fixtures, last);
    var missing := Billing.Missing(front, fixtures);
    if last in fixtures {
      assert missing + [] == missing;
      if last !in front {
        LookupOneMore(FirstOccurrences(front), last, fixtures);
        assert Billing.Missing(FirstOccurrences(front) + [last], fixtures) == FirstOccurrences(missing) + [];
      }
    } else {
      FirstOccurrencesAppend(missing, last);
      LookupOneMore(FirstOccurrences(front), last, fixtures);
    }
  }

  lemma {:induction false} DedupeMatchesEachOnce(eins: seq<string>, fixtures: set<string>)
    ensures Billing.Matches(FirstOccurrences(eins), fixtures) == |Billing.FoundIn(eins, fixtures)|
    ensures |Billing.FoundIn(eins, fixtures)| <= Billing.Matches(eins, fixtures)
  {
    if eins != [] {
      var front, last := eins[..|eins| - 1], eins[|eins| - 1];
      assert eins == front + [last];
      DedupeMatchesEachOnce(front, fixtures);
      FirstOccurrencesAppend(front, last);
      LookupOneMore(front, last, fixtures);
      LookupOneMore(FirstOccurrences(front), last, fixtures);
      FoundOneMore(front, last, fixtures);
    }
  }

  /** De-duplicating changes neither what is found nor what is missing, and it is charged one
      check for each record found; without it the charge can only be larger. */
  lemma DedupePaysPerRecord(eins: seq<string>, fixtures: set<string>)
    ensures var unique := FirstOccurrences(eins);
      && Billing.FoundIn(unique, fixtures) == Billing.FoundIn(eins, fixtures)
      && Billing.Missing(unique, fixtures) == FirstOccurrences(Billing.Missing(eins, fixtures))
      && Billing.Matches(unique, fixtures) == |Billing.FoundIn(eins, fixtures)| <= Billing.Matches(eins, fixtures)
  {
    DedupeKeepsWhatIsMissing(eins, fixtures);
    DedupeMatchesEachOnce(eins, fixtures);
    forall ein
      ensures ein in Billing.FoundIn(FirstOccurrences(eins), fixtures) <==> ein in Billing.FoundIn(eins, fixtures)
    {
      SameElements(eins, ein);
    }
  }

  /** With de-duplication a successful lookup is charged exactly the organizations it returns. */
  lemma {:induction false} DedupedChargeIsReturned(inputs: seq<string>, fixtures: set<string>, count: int, body: Raw)
    requires Eins.AllValid(inputs)
    requires Answers(body, Billing.ReplyTo(Eins.Payload(inputs, true), fixtures, count))
    ensures var result, payload := ResultOf(Some(body)), Eins.Payload(inputs, true);
      && Billing.Matches(payload, fixtures) == |result.organizations|
      && |result.organizations| + |result.notFoundEINs| == |payload|
      && NoRepeats(result.notFoundEINs)
      && Billing.Matches(payload, fixtures) <= Billing.Matches(Eins.Payload(inputs, false), fixtures)
  {
    var all, payload := Eins.Payload(inputs, false), Eins.Payload(inputs, true);
    EveryInputIsAccountedFor(inputs, true, fixtures, count, body);
    DedupePaysPerRecord(all, fixtures);
    Billing.MatchesAndMissing(payload, fixtures);
    FirstOccurrencesNeverRepeat(Billing.Missing(all, fixtures));
  }
}
