/** EINs: their accepted spellings, normalization of a list, and what `CheckBulk` settles
    before it sends anything. */
module Eins {
  import opened Text
  import opened Wrappers
  import opened Repeats
  import opened RetryPolicies

  const MAX_BULK_EINS := 50

  predicate Digits(s: string) {
    forall i :: 0 <= i < |s| ==> '0' <= s[i] <= '9'
  }

  /** The accepted pattern: nine digits, or two, a hyphen and seven. */
  predicate IsShaped(s: string) {
    (|s| == 9 && Digits(s)) || (|s| == 10 && Digits(s[..2]) && s[2] == '-' && Digits(s[3..]))
  }

  datatype Complaint = Empty | Misshapen

  datatype Issue = Issue(complaint: Complaint, index: int, value: string)

  function IssueOf(input: string, index: int): Option<Issue> {
    var trimmed := Trim(input);
    if trimmed == "" then Some(Issue(Empty, index, input))
    else if !IsShaped(trimmed) then Some(Issue(Misshapen, index, input))
    else None
  }

  predicate IsValidEIN(input: string) {
    IssueOf(input, -1) == None
  }

  /** `s` without its first `c`, if it has one. */
  function WithoutFirst(s: string, c: char): string {
    if s == "" then ""
    else if s[0] == c then s[1..]
    else [s[0]] + WithoutFirst(s[1..], c)
  }

  function NormalizeEIN(input: string): Option<string> {
    if IssueOf(input, -1).Some? then None else Some(WithoutFirst(Trim(input), '-'))
  }

  lemma {:induction false} WithoutFirstHyphen(s: string)
    requires IsShaped(s)
    ensures WithoutFirst(s, '-') == if |s| == 9 then s else s[..2] + s[3..]
  {
    if |s| == 9 {
      NothingToRemove(s, '-');
    } else {
      assert s[1..][1..] == s[2..] && s[2..][1..] == s[3..];
      assert WithoutFirst(s[2..], '-') == s[3..];
      assert WithoutFirst(s[1..], '-') == [s[1]] + s[3..];
    }
  }

  lemma {:induction false} NothingToRemove(s: string, c: char)
    requires c !in s
    ensures WithoutFirst(s, c) == s
  {
    if s != "" {
      NothingToRemove(s[1..], c);
      assert s == [s[0]] + s[1..];
    }
  }

  /** An EIN is read from exactly two spellings, each with any surrounding whitespace. */
  lemma NormalizesExactlyItsSpellings(input: string, ein: string)
    ensures NormalizeEIN(input) == Some(ein) <==>
      |ein| == 9 && (forall i :: 0 <= i < |ein| ==> '0' <= ein[i] <= '9') &&
      Trim(input) in {ein, ein[..2] + "-" + ein[2..]}
  {
    var trimmed := Trim(input);
    assert NormalizeEIN(input) == if IsShaped(trimmed) then Some(WithoutFirst(trimmed, '-')) else None;
    hide *;
    if IsShaped(trimmed) {
      WithoutFirstHyphen(trimmed);
      ShapedSpells(trimmed);
    }
    if |ein| == 9 && Digits(ein) && trimmed in {ein, ein[..2] + "-" + ein[2..]} {
      SpellingsAreShaped(ein, trimmed);
      WithoutFirstHyphen(trimmed);
    }
  }

  lemma ShapedSpells(s: string)
    requires IsShaped(s)
    ensures var ein := if |s| == 9 then s else s[..2] + s[3..];
      |ein| == 9 && Digits(ein) && s in {ein, ein[..2] + "-" + ein[2..]}
  {
    if |s| == 10 {
      var ein := s[..2] + s[3..];
      assert ein[..2] == s[..2] && ein[2..] == s[3..];
      assert s == ein[..2] + "-" + ein[2..];
    }
  }

  lemma SpellingsAreShaped(ein: string, s: string)
    requires |ein| == 9 && Digits(ein) && s in {ein, ein[..2] + "-" + ein[2..]}
    ensures IsShaped(s) && ein == if |s| == 9 then s else s[..2] + s[3..]
  {
    if s != ein {
      assert s[..2] == ein[..2] && s[3..] == ein[2..];
      assert ein == ein[..2] + ein[2..];
    }
  }

  /** Both spellings of an EIN are accepted, whatever whitespace surrounds them. */
  lemma {:induction false} SpellingsAreAccepted(left: string, spelled: string, right: string, ein: string)
    requires Blank(left) && Blank(right) && |ein| == 9 && forall i :: 0 <= i < |ein| ==> '0' <= ein[i] <= '9'
    requires spelled in {ein, ein[..2] + "-" + ein[2..]}
    ensures NormalizeEIN(left + spelled + right) == Some(ein)
  {
    assert !IsSpace(spelled[0]) && !IsSpace(spelled[|spelled| - 1]);
    hide NormalizeEIN, Trim, IsSpace;
    TrimPadded(left, spelled, right);
    NormalizesExactlyItsSpellings(left + spelled + right, ein);
  }

  /** What is wrong with a value that is no EIN: that it is blank, or that it is not; and which
      value it is, and where. */
  lemma IssueNamesTheFault(input: string, index: int)
    ensures IssueOf(input, index).Some? <==> !IsValidEIN(input)
    ensures IssueOf(input, index).Some? ==>
      var issue := IssueOf(input, index).value;
      issue.value == input && issue.index == index && (issue.complaint == Empty <==> Blank(input))
  {
    BlankTrimsAway(input);
  }

  lemma NormalizationIsIdempotent(input: string)
    requires NormalizeEIN(input).Some?
    ensures NormalizeEIN(NormalizeEIN(input).value) == NormalizeEIN(input)
  {
    var ein := NormalizeEIN(input).value;
    NormalizesExactlyItsSpellings(input, ein);
    NormalizesExactlyItsSpellings(ein, ein);
    hide NormalizeEIN, IsShaped, WithoutFirst;
    assert !IsSpace(ein[0]) && !IsSpace(ein[8]);
    TrimmedAlready(ein);
  }

  // A list.

  datatype Normalization = Normalized(eins: seq<string>) | Invalid(issues: seq<Issue>)

  ghost predicate AllValid(inputs: seq<string>) {
    forall i :: 0 <= i < |inputs| ==> IsValidEIN(inputs[i])
  }

  ghost predicate Reported(issues: seq<Issue>, i: nat) {
    exists k :: 0 <= k < |issues| && issues[k].index == i
  }

  /** The issues are those of exactly the failing positions, in increasing order. */
  ghost predicate ReportsFailures(issues: seq<Issue>, inputs: seq<string>) {
    && (forall k :: 0 <= k < |issues| ==>
      0 <= issues[k].index < |inputs| && IssueOf(inputs[issues[k].index], issues[k].index) == Some(issues[k]))
    && (forall k, l :: 0 <= k < l < |issues| ==> issues[k].index < issues[l].index)
    && (forall i :: 0 <= i < |inputs| && !IsValidEIN(inputs[i]) ==> Reported(issues, i))
  }

  function PointwiseNormalized(inputs: seq<string>): (eins: seq<string>)
    ensures |eins| == |inputs|
  {
    seq(|inputs|, i requires 0 <= i < |inputs| => WithoutFirst(Trim(inputs[i]), '-'))
  }

  method NormalizeEINs(inputs: seq<string>) returns (r: Normalization)
    ensures r.Normalized? <==> AllValid(inputs)
    ensures r.Normalized? ==> r.eins == PointwiseNormalized(inputs)
    ensures r.Invalid? ==> ReportsFailures(r.issues, inputs)
  {
    var issues: seq<Issue>, normalized: seq<string> := [], [];
    for i := 0 to |inputs|
      invariant ReportsFailures(issues, inputs[..i])
      invariant |normalized| + |issues| == i
      invariant issues == [] ==> normalized == PointwiseNormalized(inputs[..i])
    {
      assert inputs[..i + 1][..i] == inputs[..i];
      var issue := IssueOf(inputs[i], i);
      if issue.Some? {
        assert ReportsFailures(issues + [issue.value], inputs[..i + 1]) by {
          OneMoreFailure(issues, inputs, i);
        }
        issues := issues + [issue.value];
        continue;
      }
      NoFurtherFailure(issues, inputs, i);
      normalized := normalized + [WithoutFirst(Trim(inputs[i]), '-')];
    }
    assert inputs[..|inputs|] == inputs;
    if issues != [] {
      assert !IsValidEIN(inputs[issues[0].index]);
    }
    return if issues != [] then Invalid(issues) else Normalized(normalized);
  }

  lemma OneMoreFailure(issues: seq<Issue>, inputs: seq<string>, i: nat)
    requires i < |inputs| && ReportsFailures(issues, inputs[..i]) && IssueOf(inputs[i], i).Some?
    ensures ReportsFailures(issues + [IssueOf(inputs[i], i).value], inputs[..i + 1])
  {
    var more := issues + [IssueOf(inputs[i], i).value];
    forall j | 0 <= j < i + 1 && !IsValidEIN(inputs[..i + 1][j]) ensures Reported(more, j) {
      if j < i {
        assert inputs[..i][j] == inputs[..i + 1][j];
        var k :| 0 <= k < |issues| && issues[k].index == j;
        assert more[k].index == j;
      } else {
        assert more[|issues|].index == j;
      }
    }
  }

  lemma NoFurtherFailure(issues: seq<Issue>, inputs: seq<string>, i: nat)
    requires i < |inputs| && ReportsFailures(issues, inputs[..i]) && IsValidEIN(inputs[i])
    ensures ReportsFailures(issues, inputs[..i + 1])
  {
    forall j | 0 <= j < i + 1 && !IsValidEIN(inputs[..i + 1][j]) ensures Reported(issues, j) {
      assert inputs[..i][j] == inputs[..i + 1][j];
    }
  }

  /** Each place of the normalized list holds the EIN its input spells. */
  lemma PointwiseIsNormalization(inputs: seq<string>, i: nat)
    requires i < |inputs| && IsValidEIN(inputs[i])
    ensures NormalizeEIN(inputs[i]) == Some(PointwiseNormalized(inputs)[i])
  {
  }

  method Dedupe(eins: seq<string>) returns (unique: seq<string>)
    ensures unique == FirstOccurrences(eins)
  {
    var seen: map<string, bool> := map[];
    unique := [];
    for i := 0 to |eins|
      invariant forall ein :: ein in seen <==> ein in eins[..i]
      invariant unique == FirstOccurrences(eins[..i])
    {
      FirstOccurrencesOneMore(eins, i);
      assert forall ein :: ein in eins[..i + 1] <==> ein in eins[..i] || ein == eins[i];
      if eins[i] !in seen {
        seen := seen[eins[i] := true];
        unique := unique + [eins[i]];
      }
    }
    assert eins[..|eins|] == eins;
  }

  // Before the request.

  datatype PreFlight =
    | NoContext
    | NoEins
    | BadEins(issues: seq<Issue>)
    | BadOptions(problem: Problem)
    | TooMany(count: nat)
    | Send(payload: seq<string>, settings: Settings)

  /** What a batch is sent as. */
  function Payload(eins: seq<string>, dedupe: bool): seq<string> {
    if dedupe then FirstOccurrences(PointwiseNormalized(eins)) else PointwiseNormalized(eins)
  }

  ghost predicate OptionsAreValid(requests: seq<Request>) {
    forall i :: 0 <= i < |requests| ==> Rejection(requests[i]) == None
  }

  /** Everything `CheckBulk` does before it sends a request: a request goes out exactly when
      nothing is wrong with the call, and the first thing wrong decides the error. */
  method CheckBulk(hasContext: bool, client: Settings, eins: seq<string>, requests: seq<Request>) returns (r: PreFlight)
    requires Usable(client)
    ensures r.Send? <==>
      hasContext && eins != [] && AllValid(eins) && OptionsAreValid(requests) &&
      |Payload(eins, ApplyOptions(client, requests).dedupe)| <= 50
    ensures r.Send? ==>
      r.settings == ApplyOptions(client, requests) && Usable(r.settings) &&
      r.payload == Payload(eins, r.settings.dedupe)
    ensures r.NoContext? <==> !hasContext
    ensures r.NoEins? <==> hasContext && eins == []
    ensures r.BadEins? <==> hasContext && !AllValid(eins)
    ensures r.BadEins? ==> ReportsFailures(r.issues, eins)
    ensures r.BadOptions? <==> hasContext && eins != [] && AllValid(eins) && !OptionsAreValid(requests)
    ensures r.BadOptions? ==> exists i :: FirstRejected(requests, i, r.problem)
    ensures r.TooMany? ==> r.count == |Payload(eins, ApplyOptions(client, requests).dedupe)| > 50
  {
    if !hasContext {
      return NoContext;
    }
    if |eins| == 0 {
      return NoEins;
    }
    var normalization := NormalizeEINs(eins);
    if normalization.Invalid? {
      return BadEins(normalization.issues);
    }
    var resolved := RequestSettings(client, requests);
    if resolved.Refused? {
      return BadOptions(resolved.problem);
    }
    var normalized := normalization.eins;
    if resolved.settings.dedupe {
      normalized := Dedupe(normalized);
    }
    if |normalized| > MAX_BULK_EINS {
      return TooMany(|normalized|);
    }
    return Send(normalized, resolved.settings);
  }

  /** The payload asks for every submitted EIN and for nothing else, each as nine digits. */
  lemma PayloadAsksForTheInput(eins: seq<string>, dedupe: bool, ein: string)
    requires AllValid(eins)
    ensures ein in Payload(eins, dedupe) <==> exists i :: 0 <= i < |eins| && NormalizeEIN(eins[i]) == Some(ein)
    ensures ein in Payload(eins, dedupe) ==> |ein| == 9 && Digits(ein)
  {
    var all := PointwiseNormalized(eins);
    SameElements(all, ein);
    if ein in all {
      var i :| 0 <= i < |all| && all[i] == ein;
      PointwiseIsNormalization(eins, i);
      NormalizesExactlyItsSpellings(eins[i], ein);
    }
    if i :| 0 <= i < |eins| && NormalizeEIN(eins[i]) == Some(ein) {
      assert all[i] == ein;
    }
  }

  /** Without de-duplication the payload is the input place by place, repeats and all; with it no
      EIN is repeated, and each comes where it came first. */
  lemma {:induction false} PayloadKeepsPlaces(eins: seq<string>)
    requires AllValid(eins)
    ensures |Payload(eins, false)| == |eins|
    ensures forall i :: 0 <= i < |eins| ==> NormalizeEIN(eins[i]) == Some(Payload(eins, false)[i])
    ensures NoRepeats(Payload(eins, true))
    ensures exists positions ::
      PicksFirsts(Payload(eins, false), positions) && Selects(Payload(eins, true), Payload(eins, false), positions)
  {
    FirstOccurrencesNeverRepeat(PointwiseNormalized(eins));
    var positions := FirstOccurrencesInOrder(PointwiseNormalized(eins));
    forall i | 0 <= i < |eins| ensures NormalizeEIN(eins[i]) == Some(Payload(eins, false)[i]) {
      PointwiseIsNormalization(eins, i);
    }
  }

  /** Submitting a payload again sends that payload. */
  lemma ResubmittingSendsTheSame(eins: seq<string>, dedupe: bool)
    requires AllValid(eins)
    ensures var payload := Payload(eins, dedupe);
      AllValid(payload) && Payload(payload, dedupe) == payload
  {
    var payload := Payload(eins, dedupe);
    forall i | 0 <= i < |payload| ensures IsValidEIN(payload[i]) && PointwiseNormalized(payload)[i] == payload[i] {
      PayloadAsksForTheInput(eins, dedupe, payload[i]);
      var j :| 0 <= j < |eins| && NormalizeEIN(eins[j]) == Some(payload[i]);
      NormalizationIsIdempotent(eins[j]);
    }
    assert PointwiseNormalized(payload) == payload;
    FirstOccurrencesNeverRepeat(PointwiseNormalized(eins));
    NothingToDrop(payload);
  }
}
