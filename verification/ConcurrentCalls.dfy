/** Any number of calls, each in its own sending loop, drawing on one rate scheduler. */
module ConcurrentCalls {
  import opened Wrappers
  import opened Sums
  import opened RetryPolicies
  import opened RetryLoop
  import Rate = RateScheduler

  /** Where a call is: about to reserve, asleep until its slot, waiting for an answer, backing
      off, or back with its caller. */
  datatype Stage = AtTop | Holding(ticket: nat) | InFlight | Pausing | Done(outcome: Outcome)

  /** A request that was started, on which reservation and when. */
  datatype Start = Start(ticket: nat, at: int)

  datatype Call = Call(policy: RetryPolicy, world: World, attempt: nat, stage: Stage, reserved: nat, starts: seq<Start>)

  /** One client: the scheduler all its calls share, and the calls made so far. */
  datatype Client = Client(scheduler: Rate.State, calls: seq<Call>)

  datatype Step = Begin(policy: RetryPolicy, world: World) | Advance(i: nat, clock: nat)

  const IDLE := Client(Rate.START, [])

  /** What a call's next move asks of the scheduler, if anything. */
  function Asks(call: Call, clock: nat): Option<Rate.Step> {
    match call.stage
    case AtTop => if Ended(call.world, call.attempt, LoopTop) then None else Some(Rate.Reserve(clock))
    case Holding(k) =>
      Some(if ThrottleFails(call.world, call.attempt) then Rate.Cancel(k) else Rate.Send(k, clock))
    case _ => None
  }

  /** A call after its next move, `ticket` being the number of its reservation if it makes one. */
  function Moved(call: Call, ticket: nat, clock: nat): Call
    requires call.attempt >= 1
  {
    var policy, world, attempt := call.policy, call.world, call.attempt;
    match call.stage
    case AtTop =>
      if Ended(world, attempt, LoopTop) then call.(stage := Done(Aborted(attempt - 1)))
      else call.(stage := Holding(ticket), reserved := call.reserved + 1)
    case Holding(k) =>
      if ThrottleFails(world, attempt) then call.(stage := Done(Aborted(attempt - 1)))
      else call.(stage := InFlight, starts := call.starts + [Start(k, clock)])
    case InFlight =>
      (match StopsAfter(policy, world, attempt)
       case Some(outcome) => call.(stage := Done(outcome))
       case None => call.(stage := Pausing))
    case Pausing =>
      if WaitFails(policy, world, attempt) then call.(stage := Done(Aborted(attempt)))
      else call.(stage := AtTop, attempt := attempt + 1)
    case Done(_) => call
  }

  predicate Enabled(s: Client, step: Step) {
    match step
    case Begin(policy, _) => Sound(policy)
    case Advance(i, clock) =>
      i < |s.calls| && s.calls[i].attempt >= 1 && !s.calls[i].stage.Done? &&
      var asked := Asks(s.calls[i], clock);
      asked.Some? ==> Rate.Enabled(s.scheduler, asked.value)
  }

  function Scheduled(scheduler: Rate.State, asked: Option<Rate.Step>, interval: nat): Rate.State
    requires asked.Some? ==> Rate.Enabled(scheduler, asked.value)
  {
    if asked.Some? then Rate.Next(scheduler, asked.value, interval) else scheduler
  }

  function Next(s: Client, step: Step, interval: nat): Client
    requires Enabled(s, step)
  {
    match step
    case Begin(policy, world) => s.(calls := s.calls + [NewCall(policy, world)])
    case Advance(i, clock) =>
      Client(Scheduled(s.scheduler, Asks(s.calls[i], clock), interval),
             s.calls[i := Moved(s.calls[i], |s.scheduler.slots|, clock)])
  }

  ghost predicate Follows(s: Client, next: Client, interval: nat) {
    exists step :: Enabled(s, step) && next == Next(s, step, interval)
  }

  ghost predicate Run(states: seq<Client>, interval: nat) {
    states != [] && states[0] == IDLE &&
    forall k :: 0 <= k < |states| - 1 ==> Follows(states[k], states[k + 1], interval)
  }

  // Each call follows the sending loop.

  /** How a call goes on from its stage, in the terms of the sending loop. */
  function Remaining(call: Call): Log
    requires call.attempt >= 1
  {
    match call.stage
    case AtTop => RunFrom(call.policy, call.world, call.attempt)
    case Holding(_) => RunFrom(call.policy, call.world, call.attempt)
    case InFlight =>
      (match StopsAfter(call.policy, call.world, call.attempt)
       case Some(outcome) => Log(outcome, [], [])
       case None => Paused(call))
    case Pausing => Paused(call)
    case Done(outcome) => Log(outcome, [], [])
  }

  function Paused(call: Call): Log
    requires call.attempt >= 1
  {
    if WaitFails(call.policy, call.world, call.attempt) then Log(Aborted(call.attempt), [], [])
    else RunFrom(call.policy, call.world, call.attempt + 1)
  }

  ghost predicate OnTrack(call: Call) {
    && call.attempt >= 1
    && (call.stage.Holding? ==> !Ended(call.world, call.attempt, LoopTop))
    && RunFrom(call.policy, call.world, 1).outcome == Remaining(call).outcome
    && |RunFrom(call.policy, call.world, 1).starts| == |call.starts| + |Remaining(call).starts|
  }

  lemma MoveStaysOnTrack(call: Call, ticket: nat, clock: nat)
    requires OnTrack(call)
    ensures OnTrack(Moved(call, ticket, clock))
  {
    var run := RunFrom(call.policy, call.world, 1);
    assert run.outcome == Remaining(call).outcome && |run.starts| == |call.starts| + |Remaining(call).starts|;
    RemainingAfterMove(call, ticket, clock);
  }

  lemma RemainingAfterMove(call: Call, ticket: nat, clock: nat)
    requires call.attempt >= 1 && (call.stage.Holding? ==> !Ended(call.world, call.attempt, LoopTop))
    ensures var next := Moved(call, ticket, clock);
      && next.attempt >= 1 && next.policy == call.policy && next.world == call.world
      && (next.stage.Holding? ==> !Ended(next.world, next.attempt, LoopTop))
      && Remaining(next).outcome == Remaining(call).outcome
      && |next.starts| + |Remaining(next).starts| == |call.starts| + |Remaining(call).starts|
  {
  }

  // What a call has reserved and started.

  /** The counts that belong to a stage. */
  ghost predicate InStep(call: Call) {
    && Sound(call.policy) && 1 <= call.attempt <= call.policy.maxRetries + 1
    && match call.stage
       case AtTop => call.reserved == |call.starts| == call.attempt - 1
       case Holding(_) => call.reserved == call.attempt && |call.starts| == call.attempt - 1
       case InFlight => call.reserved == |call.starts| == call.attempt
       case Pausing =>
         call.reserved == |call.starts| == call.attempt && StopsAfter(call.policy, call.world, call.attempt).None?
       case Done(outcome) => outcome.attempts == |call.starts| <= call.reserved <= call.attempt
  }

  lemma MoveStaysInStep(call: Call, ticket: nat, clock: nat)
    requires InStep(call)
    ensures InStep(Moved(call, ticket, clock))
  {
  }

  /** Its reservations are as the scheduler has them: one it holds is waiting, and those it
      started requests on are sent. */
  ghost predicate Known(call: Call, scheduler: Rate.State) {
    && (call.stage.Holding? ==> IsTicket(scheduler, call.stage.ticket, Rate.Waiting))
    && forall j :: 0 <= j < |call.starts| ==> IsTicket(scheduler, call.starts[j].ticket, Rate.Sent(call.starts[j].at))
  }

  predicate IsTicket(scheduler: Rate.State, k: nat, ticket: Rate.Ticket) {
    k < |scheduler.tickets| && scheduler.tickets[k] == ticket
  }

  ghost predicate HeldByOne(calls: seq<Call>) {
    forall i, j :: 0 <= i < j < |calls| && calls[i].stage.Holding? && calls[j].stage.Holding? ==>
      calls[i].stage.ticket != calls[j].stage.ticket
  }

  function Reserved(): Call -> int {
    (call: Call) => call.reserved
  }

  function Allowed(): Call -> int {
    (call: Call) => call.policy.maxRetries + 1
  }

  /** How many of the requests were started by `time`. */
  function CountBy(starts: seq<Start>, time: int): nat {
    if starts == [] then 0
    else CountBy(starts[..|starts| - 1], time) + if starts[|starts| - 1].at <= time then 1 else 0
  }

  function StartedBy(time: int): Call -> int {
    (call: Call) => CountBy(call.starts, time)
  }

  ghost predicate Counted(s: Client) {
    && Total(s.calls, Reserved()) == |s.scheduler.slots|
    && forall time :: Total(s.calls, StartedBy(time)) == |Rate.SentBy(s.scheduler, time)|
  }

  ghost predicate Consistent(s: Client, interval: nat) {
    && Rate.Invariant(s.scheduler, interval)
    && (forall i :: 0 <= i < |s.calls| ==> Sane(s.calls[i], s.scheduler))
    && HeldByOne(s.calls)
    && Counted(s)
  }

  /** The reservation a scheduler step is about, if it already exists. */
  function Touched(asked: Option<Rate.Step>): Option<nat> {
    match asked
    case Some(Send(k, _)) => Some(k)
    case Some(Cancel(k)) => Some(k)
    case _ => None
  }

  lemma OtherTicketsStay(scheduler: Rate.State, asked: Option<Rate.Step>, interval: nat, k: nat, ticket: Rate.Ticket)
    requires asked.Some? ==> Rate.Enabled(scheduler, asked.value)
    requires IsTicket(scheduler, k, ticket) && Touched(asked) != Some(k)
    ensures IsTicket(Scheduled(scheduler, asked, interval), k, ticket)
  {
  }

  lemma SentTicketsStay(scheduler: Rate.State, asked: Option<Rate.Step>, interval: nat, k: nat, at: int)
    requires asked.Some? ==> Rate.Enabled(scheduler, asked.value)
    requires IsTicket(scheduler, k, Rate.Sent(at))
    ensures IsTicket(Scheduled(scheduler, asked, interval), k, Rate.Sent(at))
  {
  }

  lemma OthersStayKnown(call: Call, scheduler: Rate.State, asked: Option<Rate.Step>, interval: nat)
    requires asked.Some? ==> Rate.Enabled(scheduler, asked.value)
    requires Known(call, scheduler) && (call.stage.Holding? ==> Touched(asked) != Some(call.stage.ticket))
    ensures Known(call, Scheduled(scheduler, asked, interval))
  {
    hide Scheduled, IsTicket;
    if call.stage.Holding? {
      OtherTicketsStay(scheduler, asked, interval, call.stage.ticket, Rate.Waiting);
    }
    forall j | 0 <= j < |call.starts|
      ensures IsTicket(Scheduled(scheduler, asked, interval), call.starts[j].ticket, Rate.Sent(call.starts[j].at))
    {
      SentTicketsStay(scheduler, asked, interval, call.starts[j].ticket, call.starts[j].at);
    }
  }

  lemma MoverStaysKnown(call: Call, scheduler: Rate.State, clock: nat, interval: nat)
    requires call.attempt >= 1 && |scheduler.tickets| == |scheduler.slots| && Known(call, scheduler)
    requires Asks(call, clock).Some? ==> Rate.Enabled(scheduler, Asks(call, clock).value)
    ensures Known(Moved(call, |scheduler.slots|, clock), Scheduled(scheduler, Asks(call, clock), interval))
  {
    var asked := Asks(call, clock);
    forall j | 0 <= j < |call.starts|
      ensures IsTicket(Scheduled(scheduler, asked, interval), call.starts[j].ticket, Rate.Sent(call.starts[j].at))
    {
      SentTicketsStay(scheduler, asked, interval, call.starts[j].ticket, call.starts[j].at);
    }
  }

  lemma SentByAfter(scheduler: Rate.State, asked: Option<Rate.Step>, interval: nat, time: int)
    requires asked.Some? ==> Rate.Enabled(scheduler, asked.value)
    ensures |Rate.SentBy(Scheduled(scheduler, asked, interval), time)| == |Rate.SentBy(scheduler, time)| +
      match asked case Some(Send(_, at)) => (if at <= time then 1 else 0) case _ => 0
  {
    var before, after := Rate.SentBy(scheduler, time), Rate.SentBy(Scheduled(scheduler, asked, interval), time);
    match asked
    case Some(Send(k, at)) =>
      assert k !in before && after == if at <= time then before + {k} else before;
    case _ =>
      assert after == before;
  }

  lemma MoveIsCounted(s: Client, i: nat, clock: nat, interval: nat)
    requires i < |s.calls| && s.calls[i].attempt >= 1 && Enabled(s, Advance(i, clock)) && Counted(s)
    ensures Counted(Next(s, Advance(i, clock), interval))
  {
    var call, asked := s.calls[i], Asks(s.calls[i], clock);
    var moved := Moved(call, |s.scheduler.slots|, clock);
    TotalAfterUpdate(s.calls, Reserved(), i, moved);
    forall time
      ensures Total(s.calls[i := moved], StartedBy(time)) ==
        |Rate.SentBy(Scheduled(s.scheduler, asked, interval), time)|
    {
      TotalAfterUpdate(s.calls, StartedBy(time), i, moved);
      SentByAfter(s.scheduler, asked, interval, time);
      StartIsCounted(call, |s.scheduler.slots|, clock, time);
      hide Total, Rate.SentBy, Scheduled, StartedBy, Asks, Moved;
    }
  }

  lemma StartIsCounted(call: Call, ticket: nat, clock: nat, time: int)
    requires call.attempt >= 1
    ensures StartedBy(time)(Moved(call, ticket, clock)) == StartedBy(time)(call) +
      match Asks(call, clock) case Some(Send(_, at)) => (if at <= time then 1 else 0) case _ => 0
  {
    if call.stage.Holding? {
      var start := Start(call.stage.ticket, clock);
      assert (call.starts + [start])[..|call.starts|] == call.starts;
    }
  }

  ghost predicate Sane(call: Call, scheduler: Rate.State) {
    OnTrack(call) && InStep(call) && Known(call, scheduler)
  }

  lemma MoverStaysSane(s: Client, i: nat, clock: nat, interval: nat)
    requires Enabled(s, Advance(i, clock)) && |s.scheduler.tickets| == |s.scheduler.slots|
    requires Sane(s.calls[i], s.scheduler)
    ensures Sane(Moved(s.calls[i], |s.scheduler.slots|, clock),
                 Scheduled(s.scheduler, Asks(s.calls[i], clock), interval))
  {
    hide OnTrack, InStep, Known, Moved, Scheduled, Asks;
    MoveStaysOnTrack(s.calls[i], |s.scheduler.slots|, clock);
    MoveStaysInStep(s.calls[i], |s.scheduler.slots|, clock);
    MoverStaysKnown(s.calls[i], s.scheduler, clock, interval);
  }

  lemma OtherStaysSane(s: Client, i: nat, clock: nat, interval: nat, j: nat)
    requires Enabled(s, Advance(i, clock)) && j < |s.calls| && j != i
    requires HeldByOne(s.calls) && Sane(s.calls[j], s.scheduler)
    ensures Sane(s.calls[j], Scheduled(s.scheduler, Asks(s.calls[i], clock), interval))
  {
    hide OnTrack, InStep, Known, Scheduled;
    OthersStayKnown(s.calls[j], s.scheduler, Asks(s.calls[i], clock), interval);
  }

  lemma StepKeepsConsistent(s: Client, step: Step, interval: nat)
    requires Consistent(s, interval) && Enabled(s, step)
    ensures Consistent(Next(s, step, interval), interval)
  {
    match step
    case Begin(policy, world) => BeginKeepsConsistent(s, policy, world, interval);
    case Advance(i, clock) => AdvanceKeepsConsistent(s, i, clock, interval);
  }

  lemma AdvanceKeepsConsistent(s: Client, i: nat, clock: nat, interval: nat)
    requires Consistent(s, interval) && Enabled(s, Advance(i, clock))
    ensures Consistent(Next(s, Advance(i, clock), interval), interval)
  {
    var asked, next := Asks(s.calls[i], clock), Next(s, Advance(i, clock), interval);
    assert |s.scheduler.tickets| == |s.scheduler.slots|;
    assert forall j :: 0 <= j < |s.calls| ==> Known(s.calls[j], s.scheduler);
    if asked.Some? {
      Rate.StepKeepsInvariant(s.scheduler, asked.value, interval);
    }
    assert Rate.Invariant(next.scheduler, interval);
    hide Sane, Moved, Asks, Counted, HeldByOne, Known, Rate.Invariant, Scheduled;
    HeldByOneAfter(s, i, clock);
    MoveIsCounted(s, i, clock, interval);
    MoverStaysSane(s, i, clock, interval);
    forall j | 0 <= j < |s.calls| ensures Sane(next.calls[j], next.scheduler) {
      if j != i {
        OtherStaysSane(s, i, clock, interval, j);
      }
    }
  }

  lemma HeldByOneAfter(s: Client, i: nat, clock: nat)
    requires i < |s.calls| && s.calls[i].attempt >= 1 && HeldByOne(s.calls)
    requires |s.scheduler.tickets| == |s.scheduler.slots|
    requires forall j :: 0 <= j < |s.calls| ==> Known(s.calls[j], s.scheduler)
    ensures HeldByOne(s.calls[i := Moved(s.calls[i], |s.scheduler.slots|, clock)])
  {
    var moved := Moved(s.calls[i], |s.scheduler.slots|, clock);
    assert moved.stage.Holding? ==> moved.stage.ticket == |s.scheduler.slots|;
    hide Moved;
    assert forall j :: 0 <= j < |s.calls| && s.calls[j].stage.Holding? ==>
      s.calls[j].stage.ticket < |s.scheduler.slots|;
  }

  function NewCall(policy: RetryPolicy, world: World): Call {
    Call(policy, world, 1, AtTop, 0, [])
  }

  lemma NewCallIsSane(policy: RetryPolicy, world: World, scheduler: Rate.State)
    requires Sound(policy)
    ensures Sane(NewCall(policy, world), scheduler)
  {
    hide RunFrom;
  }

  lemma BeginIsCounted(s: Client, policy: RetryPolicy, world: World)
    requires Counted(s)
    ensures Counted(s.(calls := s.calls + [NewCall(policy, world)]))
  {
    var call := NewCall(policy, world);
    TotalAfterAppend(s.calls, Reserved(), call);
    forall time ensures Total(s.calls + [call], StartedBy(time)) == |Rate.SentBy(s.scheduler, time)| {
      TotalAfterAppend(s.calls, StartedBy(time), call);
    }
  }

  lemma BeginKeepsConsistent(s: Client, policy: RetryPolicy, world: World, interval: nat)
    requires Consistent(s, interval) && Sound(policy)
    ensures Consistent(s.(calls := s.calls + [NewCall(policy, world)]), interval)
  {
    assert NewCall(policy, world).stage == AtTop;
    hide Sane, Counted, Rate.Invariant, NewCall;
    NewCallIsSane(policy, world, s.scheduler);
    BeginIsCounted(s, policy, world);
  }

  lemma {:induction false} RunsStayConsistent(states: seq<Client>, interval: nat, k: nat)
    requires Run(states, interval) && k < |states|
    ensures Consistent(states[k], interval)
  {
    if k == 0 {
      forall time ensures Rate.SentBy(Rate.START, time) == {} {
      }
    } else {
      RunsStayConsistent(states, interval, k - 1);
      assert Follows(states[k - 1], states[k - 1 + 1], interval);
      hide Consistent, Next;
      var step :| Enabled(states[k - 1], step) && states[k] == Next(states[k - 1], step, interval);
      StepKeepsConsistent(states[k - 1], step, interval);
    }
  }

  // What the calls of a client can rely on, and its server.

  /** However calls interleave, retry and give up, the requests they start by any time stay
      within the allowance of their shared scheduler. */
  lemma {:induction false} StartsAreLimited(states: seq<Client>, interval: nat, k: nat, time: int)
    requires Run(states, interval) && k < |states| && interval > 0
    ensures var slots := states[k].scheduler.slots;
      Total(states[k].calls, StartedBy(time)) <= if slots == [] then 0 else Rate.Allowance(slots[0], interval, time)
  {
    RunsStayConsistent(states, interval, k);
    Rate.SentWithinAllowance(states[k].scheduler, interval, time);
  }

  /** In terms of the configured ceiling, the requests all calls start nearly keep it. */
  lemma {:induction false} StartsNearlyKeepCeiling(states: seq<Client>, limit: real, k: nat, time: int)
    requires 0.0 < limit <= Rate.NANOSECONDS && Rate.Interval(limit) <= MAX_INT64
    requires Run(states, Rate.Interval(limit)) && k < |states|
    requires states[k].scheduler.slots != [] && time >= states[k].scheduler.slots[0]
    ensures Rate.NearlyKept(Total(states[k].calls, StartedBy(time)), limit, time - states[k].scheduler.slots[0])
  {
    var s := states[k];
    RunsStayConsistent(states, Rate.Interval(limit), k);
    assert Total(s.calls, StartedBy(time)) == |Rate.SentBy(s.scheduler, time)|;
    assert Rate.Invariant(s.scheduler, Rate.Interval(limit));
    hide *;
    Rate.NearlyWithinCeiling(s.scheduler, limit, time);
  }

  /** Every request is started on a reservation of its own call, at or after its slot. */
  lemma {:induction false} EveryStartHasItsSlot(states: seq<Client>, interval: nat, k: nat, i: nat, j: nat)
    requires Run(states, interval) && k < |states|
    requires i < |states[k].calls| && j < |states[k].calls[i].starts|
    ensures var start, scheduler := states[k].calls[i].starts[j], states[k].scheduler;
      IsTicket(scheduler, start.ticket, Rate.Sent(start.at)) &&
      start.ticket < |scheduler.slots| && scheduler.slots[start.ticket] <= start.at
  {
    RunsStayConsistent(states, interval, k);
    assert Sane(states[k].calls[i], states[k].scheduler);
  }

  /** A call makes at most MaxRetries + 1 reservations, and all reservations belong to calls. */
  lemma {:induction false} ReservationsAreBounded(states: seq<Client>, interval: nat, k: nat)
    requires Run(states, interval) && k < |states|
    ensures forall i :: 0 <= i < |states[k].calls| ==>
      |states[k].calls[i].starts| <= states[k].calls[i].reserved <= states[k].calls[i].policy.maxRetries + 1
    ensures |states[k].scheduler.slots| == Total(states[k].calls, Reserved()) <= Total(states[k].calls, Allowed())
  {
    RunsStayConsistent(states, interval, k);
    assert forall i :: 0 <= i < |states[k].calls| ==> Sane(states[k].calls[i], states[k].scheduler);
    hide OnTrack, Known;
    TotalGrows(states[k].calls, Reserved(), Allowed());
  }

  /** And each call that is back with its caller did what the sending loop does alone: the same
      outcome after as many requests, which is what it reports. */
  lemma {:induction false} CallsFollowTheLoop(states: seq<Client>, interval: nat, k: nat, i: nat)
    requires Run(states, interval) && k < |states| && i < |states[k].calls| && states[k].calls[i].stage.Done?
    ensures var call := states[k].calls[i];
      var run := RunFrom(call.policy, call.world, 1);
      run.outcome == call.stage.outcome && |run.starts| == |call.starts| == call.stage.outcome.attempts
  {
    RunsStayConsistent(states, interval, k);
    assert Sane(states[k].calls[i], states[k].scheduler);
  }
}
