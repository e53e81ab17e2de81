/** The check counter of the mock service, shared by handlers on many threads. */
module Billing {
  import opened Text
  import opened Sorting
  import opened Repeats
  import opened Sums

  const MAX_BULK_EINS := 50
  const TRANSIENT_FAILURES := 2

  const RATE_LIMITED := "900000429"
  const TRANSIENT_FAILURE := "900000503"
  const SLOW := "900000408"

  /** The counter and the budget of transient failures; each method is one lock section. */
  class Cycle {
    var checksUsedThisCycle: int
    var transientFailuresLeft: nat

    constructor ()
      ensures checksUsedThisCycle == 0 && transientFailuresLeft == TRANSIENT_FAILURES
    {
      checksUsedThisCycle := 0;
      transientFailuresLeft := TRANSIENT_FAILURES;
    }

    method Consume(count: nat) returns (total: int)
      modifies this`checksUsedThisCycle
      ensures checksUsedThisCycle == total == old(checksUsedThisCycle) + count
    {
      checksUsedThisCycle := checksUsedThisCycle + count;
      return checksUsedThisCycle;
    }

    method Refund(count: nat) returns (total: int)
      modifies this`checksUsedThisCycle
      ensures checksUsedThisCycle == total == old(checksUsedThisCycle) - count
    {
      checksUsedThisCycle := checksUsedThisCycle - count;
      return checksUsedThisCycle;
    }

    method TakeTransientFailure() returns (failing: bool)
      modifies this`transientFailuresLeft
      ensures (failing, transientFailuresLeft) == TakeTransient(old(transientFailuresLeft))
    {
      if transientFailuresLeft > 0 {
        transientFailuresLeft := transientFailuresLeft - 1;
        return true;
      }
      transientFailuresLeft := TRANSIENT_FAILURES;
      return false;
    }

    /** `_handle_single`, run with no other handler beside it. */
    method HandleSingle(ein: string, fixtures: set<string>) returns (status: int, count: int)
      modifies this
      ensures Server(checksUsedThisCycle, transientFailuresLeft,
                     [Handler(Single(ein), Replied(status, count, [], []))]) ==
        Alone(Server(old(checksUsedThisCycle), old(transientFailuresLeft), [Handler(Single(ein), Arrived)]), fixtures)
      ensures status ==
        if ein == "900000429" then 429
        else if ein == "900000503" then (if old(transientFailuresLeft) > 0 then 503 else 200)
        else if ein == "900000408" || ein in fixtures then 200
        else 404
      ensures checksUsedThisCycle == count == old(checksUsedThisCycle) + if status == 200 then 1 else 0
      ensures transientFailuresLeft ==
        if ein != "900000503" then old(transientFailuresLeft)
        else if old(transientFailuresLeft) > 0 then old(transientFailuresLeft) - 1
        else 2
    {
      if ein == RATE_LIMITED {
        return 429, checksUsedThisCycle;
      }
      if ein == TRANSIENT_FAILURE {
        var failing := TakeTransientFailure();
        ghost var taken := AdvanceOne(
          Server(checksUsedThisCycle, old(transientFailuresLeft), [Handler(Single(ein), Arrived)]), 0, fixtures);
        assert taken.handlers == [Handler(Single(ein), if failing then TookFailure else TookSuccess)];
        ghost var replied := AdvanceOne(taken, 0, fixtures);
        assert replied.handlers[0].phase.Replied? && Alone(taken, fixtures) == Alone(replied, fixtures) == replied;
        if failing {
          return 503, checksUsedThisCycle;
        }
        count := Consume(1);
        return 200, count;
      }
      if ein == SLOW {
        count := Consume(1);
        return 200, count;
      }
      if ein !in fixtures {
        return 404, checksUsedThisCycle;
      }
      count := Consume(1);
      return 200, count;
    }

    /** `_handle_bulk`, run with no other handler beside it. */
    method HandleBulk(eins: seq<string>, fixtures: set<string>) returns (reply: BulkReply)
      modifies this
      ensures reply == ReplyTo(eins, fixtures, checksUsedThisCycle)
      ensures checksUsedThisCycle ==
        old(checksUsedThisCycle) + if |eins| > 50 then 0 else Matches(eins, fixtures)
      ensures transientFailuresLeft == old(transientFailuresLeft)
      ensures Server(checksUsedThisCycle, transientFailuresLeft, [Handler(Bulk(eins), Sent(reply))]) ==
        Alone(Server(old(checksUsedThisCycle), old(transientFailuresLeft), [Handler(Bulk(eins), Arrived)]), fixtures)
    {
      BulkAlone(checksUsedThisCycle, transientFailuresLeft, eins, fixtures);
      if |eins| > MAX_BULK_EINS {
        return Rejected(checksUsedThisCycle);
      }
      var _ := Consume(|eins|);
      var found: set<string>, notFound: seq<string> := {}, [];
      for i := 0 to |eins|
        invariant checksUsedThisCycle == old(checksUsedThisCycle) + |eins|
        invariant transientFailuresLeft == old(transientFailuresLeft)
        invariant found == FoundIn(eins[..i], fixtures)
        invariant notFound == Missing(eins[..i], fixtures)
      {
        MissingOneMore(eins, i, fixtures);
        if eins[i] in fixtures {
          found := found + {eins[i]};
        } else {
          notFound := notFound + [eins[i]];
        }
      }
      assert eins[..|eins|] == eins;
      var matched := SortedStrings(found);
      var count := Refund(|notFound|);
      MatchesAndMissing(eins, fixtures);
      assert matched == [] <==> found == {};
      return if matched == [] then NothingFound(count) else Served(matched, notFound, count);
    }
  }

  function TakeTransient(left: nat): (bool, nat) {
    if left > 0 then (true, left - 1) else (false, TRANSIENT_FAILURES)
  }

  // One bulk request.

  datatype BulkReply =
    | Rejected(count: int)
    | NothingFound(count: int)
    | Served(matched: seq<string>, notFound: seq<string>, count: int)

  /** How many of the submitted EINs, duplicates included, have a record. */
  function Matches(eins: seq<string>, fixtures: set<string>): nat {
    if eins == [] then 0
    else (if eins[|eins| - 1] in fixtures then 1 else 0) + Matches(eins[..|eins| - 1], fixtures)
  }

  ghost function FoundIn(eins: seq<string>, fixtures: set<string>): set<string> {
    set ein | ein in eins && ein in fixtures
  }

  /** The submitted EINs without a record, in order, duplicates included. */
  function Missing(eins: seq<string>, fixtures: set<string>): seq<string> {
    if eins == [] then []
    else
      Missing(eins[..|eins| - 1], fixtures) +
      if eins[|eins| - 1] in fixtures then [] else [eins[|eins| - 1]]
  }

  lemma {:induction false} MissingAreUnmatched(eins: seq<string>, fixtures: set<string>, ein: string)
    ensures ein in Missing(eins, fixtures) <==> ein in eins && ein !in fixtures
  {
    if eins != [] {
      var front, last := eins[..|eins| - 1], eins[|eins| - 1];
      MissingAreUnmatched(front, fixtures, ein);
      assert eins == front + [last];
    }
  }

  lemma MissingOneMore(eins: seq<string>, i: nat, fixtures: set<string>)
    requires i < |eins|
    ensures Missing(eins[..i + 1], fixtures) ==
      Missing(eins[..i], fixtures) + if eins[i] in fixtures then [] else [eins[i]]
    ensures FoundIn(eins[..i + 1], fixtures) ==
      FoundIn(eins[..i], fixtures) + if eins[i] in fixtures then {eins[i]} else {}
  {
    assert eins[..i + 1][..i] == eins[..i];
    assert forall ein :: ein in eins[..i + 1] <==> ein in eins[..i] || ein == eins[i];
  }

  lemma {:induction false} MatchesAndMissing(eins: seq<string>, fixtures: set<string>)
    ensures Matches(eins, fixtures) + |Missing(eins, fixtures)| == |eins|
    ensures FoundIn(eins, fixtures) == {} <==> Matches(eins, fixtures) == 0
  {
    if eins != [] {
      var front := eins[..|eins| - 1];
      MatchesAndMissing(front, fixtures);
      assert forall ein :: ein in eins <==> ein in front || ein == eins[|eins| - 1];
      assert FoundIn(front, fixtures) <= FoundIn(eins, fixtures);
      if eins[|eins| - 1] in fixtures {
        assert eins[|eins| - 1] in FoundIn(eins, fixtures);
      } else {
        assert FoundIn(eins, fixtures) == FoundIn(front, fixtures);
      }
    }
  }

  /** The reply to a bulk request, given the count it reports. */
  ghost function ReplyTo(eins: seq<string>, fixtures: set<string>, count: int): BulkReply {
    if |eins| > MAX_BULK_EINS then Rejected(count)
    else if FoundIn(eins, fixtures) == {} then NothingFound(count)
    else Served(Listing(FoundIn(eins, fixtures), Itself), Missing(eins, fixtures), count)
  }

  // Many handlers. A step is one lock section, or the unlocked read of the counter that an
  // error reply makes; any handler may take the next one.

  datatype Request = Single(ein: string) | Bulk(eins: seq<string>) | NotAList

  datatype Phase =
    | Arrived
    | TookFailure
    | TookSuccess
    | Charged
    | Replied(status: int, count: int, matched: seq<string>, notFound: seq<string>)

  datatype Handler = Handler(request: Request, phase: Phase)

  datatype Server = Server(checks: int, transientLeft: nat, handlers: seq<Handler>)

  datatype Step = Arrive(request: Request) | Advance(i: nat)

  const START := Server(0, TRANSIENT_FAILURES, [])

  predicate Enabled(s: Server, step: Step) {
    step.Advance? ==> step.i < |s.handlers| && !s.handlers[step.i].phase.Replied?
  }

  function Reply(s: Server, i: nat, charge: int, status: int): Server
    requires i < |s.handlers|
  {
    Move(s, i, charge, Replied(status, s.checks + charge, [], []))
  }

  function Move(s: Server, i: nat, charge: int, phase: Phase): Server
    requires i < |s.handlers|
  {
    s.(checks := s.checks + charge, handlers := s.handlers[i := s.handlers[i].(phase := phase)])
  }

  /** What a handler does next. */
  ghost function AdvanceOne(s: Server, i: nat, fixtures: set<string>): Server
    requires i < |s.handlers|
  {
    var h := s.handlers[i];
    match h.request
    case NotAList => Reply(s, i, 0, 400)
    case Bulk(eins) =>
      if h.phase == Charged then
        var matched, notFound := Listing(FoundIn(eins, fixtures), Itself), Missing(eins, fixtures);
        if matched == [] then Reply(s, i, -|notFound|, 404)
        else Move(s, i, -|notFound|, Replied(200, s.checks - |notFound|, matched, notFound))
      else if |eins| > MAX_BULK_EINS then Reply(s, i, 0, 400)
      else Move(s, i, |eins|, Charged)
    case Single(ein) =>
      if ein == RATE_LIMITED then Reply(s, i, 0, 429)
      else if ein == TRANSIENT_FAILURE then
        if h.phase == Arrived then
          var (failing, left) := TakeTransient(s.transientLeft);
          Move(s.(transientLeft := left), i, 0, if failing then TookFailure else TookSuccess)
        else if h.phase == TookFailure then Reply(s, i, 0, 503)
        else Reply(s, i, 1, 200)
      else if ein == SLOW then Reply(s, i, 1, 200)
      else if ein !in fixtures then Reply(s, i, 0, 404)
      else Reply(s, i, 1, 200)
  }

  /** The only handler of a server, run from its arrival to its reply. */
  ghost function Alone(s: Server, fixtures: set<string>): Server
    requires |s.handlers| == 1 && Legal(s.handlers[0])
    decreases match s.handlers[0].phase case Replied(_, _, _, _) => 0 case Arrived => 2 case _ => 1
  {
    if s.handlers[0].phase.Replied? then s else Alone(AdvanceOne(s, 0, fixtures), fixtures)
  }

  lemma BulkAlone(checks: int, left: nat, eins: seq<string>, fixtures: set<string>)
    ensures var total := checks + if |eins| > MAX_BULK_EINS then 0 else Matches(eins, fixtures);
      Alone(Server(checks, left, [Handler(Bulk(eins), Arrived)]), fixtures) ==
        Server(total, left, [Handler(Bulk(eins), Sent(ReplyTo(eins, fixtures, total)))])
  {
    var start := Server(checks, left, [Handler(Bulk(eins), Arrived)]);
    var next := AdvanceOne(start, 0, fixtures);
    if |eins| > MAX_BULK_EINS {
      assert Alone(start, fixtures) == Alone(next, fixtures) == next;
    } else {
      var end := AdvanceOne(next, 0, fixtures);
      MatchesAndMissing(eins, fixtures);
      BulkStepSendsReply(next, 0, fixtures);
      assert Alone(start, fixtures) == Alone(next, fixtures) == Alone(end, fixtures) == end;
    }
  }

  /** A bulk reply as its handler sends it: status, count and the two lists. */
  function Sent(reply: BulkReply): Phase {
    match reply
    case Rejected(count) => Replied(400, count, [], [])
    case NothingFound(count) => Replied(404, count, [], [])
    case Served(matched, notFound, count) => Replied(200, count, matched, notFound)
  }

  /** A bulk handler that replies sends the reply of the whole request, lists and all, with
      the counter as its refund left it. */
  lemma BulkStepSendsReply(s: Server, i: nat, fixtures: set<string>)
    requires i < |s.handlers| && s.handlers[i].request.Bulk?
    requires Legal(s.handlers[i]) && !s.handlers[i].phase.Replied?
    requires AdvanceOne(s, i, fixtures).handlers[i].phase.Replied?
    ensures var next := AdvanceOne(s, i, fixtures);
      next.handlers[i].phase == Sent(ReplyTo(s.handlers[i].request.eins, fixtures, next.checks))
  {
    var found := FoundIn(s.handlers[i].request.eins, fixtures);
    assert |Listing(found, Itself)| == |found|;
  }

  ghost function Next(s: Server, step: Step, fixtures: set<string>): Server
    requires Enabled(s, step)
  {
    match step
    case Arrive(request) => s.(handlers := s.handlers + [Handler(request, Arrived)])
    case Advance(i) => AdvanceOne(s, i, fixtures)
  }

  ghost predicate Follows(s: Server, next: Server, fixtures: set<string>) {
    exists step :: Enabled(s, step) && next == Next(s, step, fixtures)
  }

  ghost predicate Run(states: seq<Server>, fixtures: set<string>) {
    states != [] && states[0] == START &&
    forall k :: 0 <= k < |states| - 1 ==> Follows(states[k], states[k + 1], fixtures)
  }

  /** What a request was served: one record for a single success, the matched occurrences of a
      bulk request that was accepted. */
  function ServedBy(request: Request, status: int, fixtures: set<string>): nat {
    match request
    case Single(_) => if status == 200 then 1 else 0
    case Bulk(eins) => if status == 400 then 0 else Matches(eins, fixtures)
    case NotAList => 0
  }

  /** What the counter holds on behalf of a handler. */
  function Owed(fixtures: set<string>): Handler -> int {
    (h: Handler) =>
      match h.phase
      case Replied(status, _, _, _) => ServedBy(h.request, status, fixtures)
      case Charged => if h.request.Bulk? then |h.request.eins| else 0
      case _ => 0
  }

  function Failures(): Handler -> int {
    (h: Handler) =>
      if h.request == Single(TRANSIENT_FAILURE) &&
        (h.phase == TookFailure || (h.phase.Replied? && h.phase.status == 503)) then 1 else 0
  }

  function Successes(): Handler -> int {
    (h: Handler) =>
      if h.request == Single(TRANSIENT_FAILURE) &&
        (h.phase == TookSuccess || (h.phase.Replied? && h.phase.status == 200)) then 1 else 0
  }

  /** Which phases a request can be in. */
  predicate Legal(h: Handler) {
    match h.phase
    case Arrived => true
    case TookFailure => h.request == Single(TRANSIENT_FAILURE)
    case TookSuccess => h.request == Single(TRANSIENT_FAILURE)
    case Charged => h.request.Bulk? && |h.request.eins| <= MAX_BULK_EINS
    case Replied(status, _, _, _) => h.request == Single(TRANSIENT_FAILURE) ==> status == 200 || status == 503
  }

  ghost predicate Balanced(s: Server, fixtures: set<string>) {
    && (forall i :: 0 <= i < |s.handlers| ==> Legal(s.handlers[i]))
    && s.checks == Total(s.handlers, Owed(fixtures))
    && s.transientLeft + Total(s.handlers, Failures()) ==
      TRANSIENT_FAILURES * (Total(s.handlers, Successes()) + 1)
    && s.transientLeft <= TRANSIENT_FAILURES
  }

  ghost predicate SendsWhole(h: Handler, fixtures: set<string>) {
    h.request.Bulk? && h.phase.Replied? ==> h.phase == Sent(ReplyTo(h.request.eins, fixtures, h.phase.count))
  }

  lemma StepSendsWhole(s: Server, step: Step, fixtures: set<string>, i: nat)
    requires Balanced(s, fixtures) && Enabled(s, step) && i < |Next(s, step, fixtures).handlers|
    requires i < |s.handlers| ==> SendsWhole(s.handlers[i], fixtures)
    ensures SendsWhole(Next(s, step, fixtures).handlers[i], fixtures)
  {
    if step.Advance? {
      StepPaysItsWay(s, step.i, fixtures);
      var after := AdvanceOne(s, step.i, fixtures).handlers[step.i];
      if after.request.Bulk? && after.phase.Replied? {
        BulkStepSendsReply(s, step.i, fixtures);
      }
      hide AdvanceOne, ReplyTo, Owed, Failures, Successes;
    }
  }

  /** However handlers interleave, every bulk request that has its reply was sent the reply of
      the whole request: the same status and the same lists as with no other handler beside it. */
  lemma {:induction false} BulkRepliesAsAWhole(states: seq<Server>, fixtures: set<string>, k: nat, i: nat)
    requires Run(states, fixtures) && k < |states| && i < |states[k].handlers|
    ensures SendsWhole(states[k].handlers[i], fixtures)
  {
    if k > 0 {
      assert Follows(states[k - 1], states[k - 1 + 1], fixtures);
      RunsStayBalanced(states, fixtures, k - 1);
      hide Balanced, Next, SendsWhole;
      var step :| Enabled(states[k - 1], step) && states[k] == Next(states[k - 1], step, fixtures);
      if i < |states[k - 1].handlers| {
        BulkRepliesAsAWhole(states, fixtures, k - 1, i);
      }
      StepSendsWhole(states[k - 1], step, fixtures, i);
    }
  }

  /** The status a single request gets: the first two control EINs fail as they are there to, the
      slow one and every EIN with a record succeed, any other is not found. */
  predicate AnsweredBy(ein: string, status: int, fixtures: set<string>) {
    if ein == "900000429" then status == 429
    else if ein == "900000503" then status == 503 || status == 200
    else if ein == "900000408" then status == 200
    else if ein in fixtures then status == 200
    else status == 404
  }

  /** The status a bulk request gets: refused if too long, and otherwise 200 exactly when some EIN
      in it has a record. */
  ghost predicate BulkAnsweredBy(eins: seq<string>, status: int, fixtures: set<string>) {
    if |eins| > 50 then status == 400
    else if exists ein :: ein in eins && ein in fixtures then status == 200
    else status == 404
  }

  ghost predicate AnsweredRight(h: Handler, fixtures: set<string>) {
    match h.request
    case NotAList => h.phase.Replied? ==> h.phase.status == 400
    case Bulk(eins) => h.phase.Replied? ==> BulkAnsweredBy(eins, h.phase.status, fixtures)
    case Single(ein) =>
      (match h.phase
       case TookFailure => ein == "900000503"
       case TookSuccess => ein == "900000503"
       case Replied(status, _, matched, notFound) =>
         AnsweredBy(ein, status, fixtures) && matched == [] && notFound == []
       case _ => true)
  }

  lemma StepAnswersRight(s: Server, i: nat, fixtures: set<string>)
    requires i < |s.handlers| && !s.handlers[i].phase.Replied?
    requires Legal(s.handlers[i]) && AnsweredRight(s.handlers[i], fixtures)
    ensures |AdvanceOne(s, i, fixtures).handlers| == |s.handlers|
    ensures AnsweredRight(AdvanceOne(s, i, fixtures).handlers[i], fixtures)
  {
    if s.handlers[i].request.Bulk? {
      var eins := s.handlers[i].request.eins;
      assert |Listing(FoundIn(eins, fixtures), Itself)| == |FoundIn(eins, fixtures)|;
      if ein :| ein in eins && ein in fixtures {
        assert ein in FoundIn(eins, fixtures);
      }
    }
  }

  lemma StepKeepsAnswers(s: Server, step: Step, fixtures: set<string>, i: nat)
    requires Balanced(s, fixtures) && Enabled(s, step) && i < |Next(s, step, fixtures).handlers|
    requires i < |s.handlers| ==> AnsweredRight(s.handlers[i], fixtures)
    ensures AnsweredRight(Next(s, step, fixtures).handlers[i], fixtures)
  {
    if step.Advance? {
      StepPaysItsWay(s, step.i, fixtures);
      if step.i == i {
        StepAnswersRight(s, i, fixtures);
      }
      hide AdvanceOne, AnsweredRight, Owed, Failures, Successes;
    }
  }

  /** However handlers interleave, every request that has its reply got the status its own EINs
      call for: a single one 200 exactly for a known EIN, the control EINs apart. */
  lemma {:induction false} RequestsAreAnsweredRight(states: seq<Server>, fixtures: set<string>, k: nat, i: nat)
    requires Run(states, fixtures) && k < |states| && i < |states[k].handlers|
    ensures AnsweredRight(states[k].handlers[i], fixtures)
  {
    if k > 0 {
      assert Follows(states[k - 1], states[k - 1 + 1], fixtures);
      RunsStayBalanced(states, fixtures, k - 1);
      hide Balanced, Next, AnsweredRight;
      var step :| Enabled(states[k - 1], step) && states[k] == Next(states[k - 1], step, fixtures);
      if i < |states[k - 1].handlers| {
        RequestsAreAnsweredRight(states, fixtures, k - 1, i);
      }
      StepKeepsAnswers(states[k - 1], step, fixtures, i);
    }
  }

  /** A refused body, and a bulk request, by what they hold. */
  lemma BulkReplyMeans(eins: seq<string>, fixtures: set<string>, count: int)
    ensures var reply := ReplyTo(eins, fixtures, count);
      && (reply.Rejected? <==> |eins| > 50)
      && (reply.NothingFound? <==> |eins| <= 50 && forall ein :: ein in eins ==> ein !in fixtures)
      && reply.count == count
      && (reply.Served? ==>
        (forall ein :: ein in reply.matched <==> ein in eins && ein in fixtures) &&
        (forall i, j :: 0 <= i < j < |reply.matched| ==> Less(reply.matched[i], reply.matched[j])) &&
        reply.notFound == Missing(eins, fixtures))
  {
    if ein :| ein in eins && ein in fixtures {
      assert ein in FoundIn(eins, fixtures);
    }
  }

  /** `positions` picks, in order, exactly the submitted EINs that have no record. */
  ghost predicate PicksUnmatched(eins: seq<string>, fixtures: set<string>, positions: seq<nat>) {
    && (forall k, l :: 0 <= k < l < |positions| ==> positions[k] < positions[l])
    && (forall k :: 0 <= k < |positions| ==> positions[k] < |eins|)
    && (forall i :: 0 <= i < |eins| ==> (i in positions <==> eins[i] !in fixtures))
  }

  lemma PicksOneMoreUnmatched(eins: seq<string>, fixtures: set<string>, n: nat, positions: seq<nat>)
    requires n + 1 == |eins| && PicksUnmatched(eins[..n], fixtures, positions)
    ensures PicksUnmatched(eins, fixtures, if eins[n] in fixtures then positions else positions + [n])
  {
    assert forall i :: 0 <= i < n ==> eins[..n][i] == eins[i];
    assert n !in positions;
    assert forall i :: 0 <= i < n ==> (i in positions + [n] <==> i in positions);
  }

  /** The missing EINs keep the submitted order and every duplicate. */
  lemma {:induction false} MissingKeepOrder(eins: seq<string>, fixtures: set<string>) returns (positions: seq<nat>)
    ensures PicksUnmatched(eins, fixtures, positions) && Selects(Missing(eins, fixtures), eins, positions)
  {
    positions := [];
    if eins != [] {
      var n := |eins| - 1;
      positions := MissingKeepOrder(eins[..n], fixtures);
      MissingOneMore(eins, n, fixtures);
      assert eins[..n + 1] == eins;
      hide *;
      PicksOneMoreUnmatched(eins, fixtures, n, positions);
      SelectsOneMore(Missing(eins[..n], fixtures), eins, n, positions);
      assert Missing(eins[..n], fixtures) + [] == Missing(eins[..n], fixtures);
      if eins[n] !in fixtures {
        positions := positions + [n];
      }
    }
  }

  /** One step of a handler pays for what its new phase owes. */
  lemma StepPaysItsWay(s: Server, i: nat, fixtures: set<string>)
    requires i < |s.handlers| && !s.handlers[i].phase.Replied?
    requires Legal(s.handlers[i]) && s.transientLeft <= TRANSIENT_FAILURES
    ensures var next, before := AdvanceOne(s, i, fixtures), s.handlers[i];
      |next.handlers| == |s.handlers| &&
      var after := next.handlers[i];
      && next.handlers == s.handlers[i := after]
      && Legal(after) && next.transientLeft <= TRANSIENT_FAILURES
      && next.checks - s.checks == Owed(fixtures)(after) - Owed(fixtures)(before)
      && next.transientLeft + Failures()(after) - TRANSIENT_FAILURES * Successes()(after) ==
        s.transientLeft + Failures()(before) - TRANSIENT_FAILURES * Successes()(before)
  {
    if s.handlers[i].request.Bulk? {
      MatchesAndMissing(s.handlers[i].request.eins, fixtures);
    }
  }

  lemma StepKeepsBalance(s: Server, step: Step, fixtures: set<string>)
    requires Balanced(s, fixtures) && Enabled(s, step)
    ensures Balanced(Next(s, step, fixtures), fixtures)
  {
    match step
    case Arrive(request) =>
      var more := s.handlers + [Handler(request, Arrived)];
      assert more[..|more| - 1] == s.handlers;
    case Advance(i) =>
      var next := AdvanceOne(s, i, fixtures);
      StepPaysItsWay(s, i, fixtures);
      hide AdvanceOne, Owed, Failures, Successes, Legal;
      TotalAfterUpdate(s.handlers, Owed(fixtures), i, next.handlers[i]);
      TotalAfterUpdate(s.handlers, Failures(), i, next.handlers[i]);
      TotalAfterUpdate(s.handlers, Successes(), i, next.handlers[i]);
  }

  lemma {:induction false} RunsStayBalanced(states: seq<Server>, fixtures: set<string>, k: nat)
    requires Run(states, fixtures) && k < |states|
    ensures Balanced(states[k], fixtures)
  {
    if k > 0 {
      RunsStayBalanced(states, fixtures, k - 1);
      assert Follows(states[k - 1], states[k - 1 + 1], fixtures);
      hide Balanced, Next;
      var step :| Enabled(states[k - 1], step) && states[k] == Next(states[k - 1], step, fixtures);
      StepKeepsBalance(states[k - 1], step, fixtures);
    }
  }

  /** In every state of every interleaving the counter is exactly what finished requests were
      served plus the full batches of bulk requests between their charge and their refund, so
      it is never negative. */
  lemma CounterIsConserved(states: seq<Server>, fixtures: set<string>, k: nat)
    requires Run(states, fixtures) && k < |states|
    ensures states[k].checks == Total(states[k].handlers, Owed(fixtures))
    ensures states[k].checks >= 0
  {
    RunsStayBalanced(states, fixtures, k);
    TotalIsNonNegative(states[k].handlers, Owed(fixtures));
  }

  ghost predicate Quiet(handlers: seq<Handler>) {
    forall i :: 0 <= i < |handlers| ==> handlers[i].phase.Replied?
  }

  /** The records served by finished requests. */
  function ServedTotal(handlers: seq<Handler>, fixtures: set<string>): int
    requires Quiet(handlers)
  {
    if handlers == [] then 0
    else
      var last := handlers[|handlers| - 1];
      ServedTotal(handlers[..|handlers| - 1], fixtures) + ServedBy(last.request, last.phase.status, fixtures)
  }

  lemma {:induction false} OwedWhenQuiet(handlers: seq<Handler>, fixtures: set<string>)
    requires Quiet(handlers)
    ensures Total(handlers, Owed(fixtures)) == ServedTotal(handlers, fixtures)
  {
    if handlers != [] {
      OwedWhenQuiet(handlers[..|handlers| - 1], fixtures);
    }
  }

  /** Once every request has its reply, the counter is the records served: single successes
      plus matched bulk occurrences, duplicates included. */
  lemma QuietCounter(states: seq<Server>, fixtures: set<string>, k: nat)
    requires Run(states, fixtures) && k < |states|
    requires Quiet(states[k].handlers)
    ensures states[k].checks == ServedTotal(states[k].handlers, fixtures)
  {
    CounterIsConserved(states, fixtures, k);
    OwedWhenQuiet(states[k].handlers, fixtures);
  }

  /** Whichever threads draw on it, the transient budget gives two failures for each success,
      the failures of a round first. */
  lemma TwoFailuresPerSuccess(states: seq<Server>, fixtures: set<string>, k: nat)
    requires Run(states, fixtures) && k < |states|
    ensures var failures, successes := Total(states[k].handlers, Failures()), Total(states[k].handlers, Successes());
      2 * successes <= failures <= 2 * successes + 2 && states[k].transientLeft == 2 * successes + 2 - failures
  {
    RunsStayBalanced(states, fixtures, k);
  }

  /** A handler that replies reports a count that includes its own records, and reports
      exactly the records served so far when every other request has its reply. */
  lemma ReportedCount(states: seq<Server>, fixtures: set<string>, k: nat, i: nat)
    requires Run(states, fixtures) && k + 1 < |states|
    requires i < |states[k].handlers| && !states[k].handlers[i].phase.Replied?
    requires states[k + 1] == AdvanceOne(states[k], i, fixtures) && states[k + 1].handlers[i].phase.Replied?
    ensures var h := states[k + 1].handlers[i];
      && h.phase.count >= ServedBy(h.request, h.phase.status, fixtures)
      && (Quiet(states[k + 1].handlers) ==> h.phase.count == ServedTotal(states[k + 1].handlers, fixtures))
  {
    var s := states[k + 1];
    ReplyReportsCounter(states[k], i, fixtures);
    CounterIsConserved(states, fixtures, k + 1);
    TotalIsAtLeast(s.handlers, Owed(fixtures), i);
    if Quiet(s.handlers) {
      OwedWhenQuiet(s.handlers, fixtures);
    }
  }

  lemma ReplyReportsCounter(s: Server, i: nat, fixtures: set<string>)
    requires i < |s.handlers| && !s.handlers[i].phase.Replied?
    ensures var next := AdvanceOne(s, i, fixtures);
      |next.handlers| == |s.handlers| &&
      (next.handlers[i].phase.Replied? ==> next.handlers[i].phase.count == next.checks)
  {
  }
}
