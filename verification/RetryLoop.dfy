/** The sending loop: attempts, retries and cancellation, against an arbitrary world. */
module RetryLoop {
  import opened Wrappers
  import opened RetryPolicies

  /** What one HTTP request comes to. An answer counts even if the caller's context ended before
      it was read; when there is none, the error depends on whether the context has ended. */
  datatype Tried = Answered(status: int, retryAfter: Option<Duration>) | TimedOut | Unreached

  /** Everything the world decides during one turn of the loop: whether the throttle's sleep
      gives up if the caller has, what the request comes to, the jitter, and whether the timer
      wins when it and the end of the context are both due. */
  datatype Turn = Turn(throttleGivesUp: bool, tried: Tried, random: real, timerWins: bool)

  /** The turns, and the instant at which the caller's context ends, if it does. */
  datatype World = World(turn: nat -> Turn, endsAt: Option<nat>)

  /** The moments of a turn, in order. */
  datatype Moment = LoopTop | ThrottleDone | RequestStart | RequestDone | AfterFailure | WaitDone

  function Instant(attempt: nat, moment: Moment): nat {
    6 * attempt + match moment
      case LoopTop => 0
      case ThrottleDone => 1
      case RequestStart => 2
      case RequestDone => 3
      case AfterFailure => 4
      case WaitDone => 5
  }

  /** The context has ended by this moment; once ended it stays so. */
  predicate Ended(world: World, attempt: nat, moment: Moment) {
    world.endsAt.Some? && world.endsAt.value <= Instant(attempt, moment)
  }

  datatype Outcome =
    | Succeeded(status: int, attempts: nat)
    | ApiFailed(status: int, attempts: nat)
    | Aborted(attempts: nat)
    | TimedOutAfter(attempts: nat)
    | NetworkFailed(attempts: nat)

  /** How a call ended, when each request was started, and how long each wait was to be. */
  datatype Log = Log(outcome: Outcome, starts: seq<nat>, waits: seq<Duration>)

  predicate Is2xx(status: int) {
    200 <= status < 300
  }

  /** `throttle` fails only by its sleep ending with the context. */
  predicate ThrottleFails(world: World, attempt: nat) {
    world.turn(attempt).throttleGivesUp && Ended(world, attempt, ThrottleDone)
  }

  /** The error `attempt` returns: the caller's giving up is looked at first. */
  function FailureOf(world: World, attempt: nat): Outcome {
    if Ended(world, attempt, RequestDone) then Aborted(attempt)
    else if world.turn(attempt).tried.TimedOut? then TimedOutAfter(attempt)
    else NetworkFailed(attempt)
  }

  function DelayAfter(policy: RetryPolicy, world: World, attempt: nat): Duration
    requires attempt >= 1
  {
    var turn := world.turn(attempt);
    RetryDelay(attempt, policy, if turn.tried.Answered? then turn.tried.retryAfter else None, turn.random)
  }

  /** `sleepContext`: without a delay it only looks at the context; with one, timer and context race. */
  predicate WaitFails(policy: RetryPolicy, world: World, attempt: nat)
    requires attempt >= 1
  {
    Ended(world, attempt, WaitDone) && (DelayAfter(policy, world, attempt) <= 0 || !world.turn(attempt).timerWins)
  }

  /** The attempt's outcome when the loop returns right after it, or nothing when it goes on to wait. */
  function StopsAfter(policy: RetryPolicy, world: World, attempt: nat): Option<Outcome> {
    match world.turn(attempt).tried
    case Answered(status, _) =>
      if Is2xx(status) then Some(Succeeded(status, attempt))
      else if attempt > policy.maxRetries || !Retries(policy, status) then Some(ApiFailed(status, attempt))
      else None
    case _ =>
      if attempt > policy.maxRetries || Ended(world, attempt, AfterFailure) then Some(FailureOf(world, attempt))
      else None
  }

  /** The rest of a call from the top of the given turn. */
  function RunFrom(policy: RetryPolicy, world: World, attempt: nat): Log
    requires attempt >= 1
    decreases if attempt <= policy.maxRetries then policy.maxRetries + 1 - attempt else 0
  {
    if Ended(world, attempt, LoopTop) || ThrottleFails(world, attempt) then Log(Aborted(attempt - 1), [], [])
    else
      var start := Instant(attempt, RequestStart);
      match StopsAfter(policy, world, attempt)
      case Some(outcome) => Log(outcome, [start], [])
      case None =>
        var wait := DelayAfter(policy, world, attempt);
        if WaitFails(policy, world, attempt) then Log(Aborted(attempt), [start], [wait])
        else
          After([start], [wait], RunFrom(policy, world, attempt + 1))
  }

  /** A run that goes on as `rest` after these starts and waits. */
  function After(starts: seq<nat>, waits: seq<Duration>, rest: Log): Log {
    Log(rest.outcome, starts + rest.starts, waits + rest.waits)
  }

  lemma AfterOneMore(starts: seq<nat>, waits: seq<Duration>, start: nat, wait: Duration, rest: Log)
    ensures After(starts, waits, After([start], [wait], rest)) == After(starts + [start], waits + [wait], rest)
  {
  }

  /** `send` */
  method Send(policy: RetryPolicy, world: World) returns (log: Log)
    ensures log == RunFrom(policy, world, 1)
  {
    var attempt := 1;
    var starts: seq<nat>, waits: seq<Duration> := [], [];
    while true
      invariant attempt >= 1
      invariant RunFrom(policy, world, 1) == After(starts, waits, RunFrom(policy, world, attempt))
      decreases if attempt <= policy.maxRetries then policy.maxRetries + 1 - attempt else 0
    {
      ghost var before := (starts, waits);
      if Ended(world, attempt, LoopTop) {
        return Log(Aborted(attempt - 1), starts, waits);
      }
      if ThrottleFails(world, attempt) {
        return Log(Aborted(attempt - 1), starts, waits);
      }
      starts := starts + [Instant(attempt, RequestStart)];
      var tried := world.turn(attempt).tried;
      if !tried.Answered? {
        if attempt > policy.maxRetries || Ended(world, attempt, AfterFailure) {
          return Log(FailureOf(world, attempt), starts, waits);
        }
      } else {
        if 200 <= tried.status < 300 {
          return Log(Succeeded(tried.status, attempt), starts, waits);
        }
        if attempt > policy.maxRetries || !Retries(policy, tried.status) {
          return Log(ApiFailed(tried.status, attempt), starts, waits);
        }
      }
      waits := waits + [DelayAfter(policy, world, attempt)];
      if WaitFails(policy, world, attempt) {
        return Log(Aborted(attempt), starts, waits);
      }
      AfterOneMore(before.0, before.1, Instant(attempt, RequestStart), DelayAfter(policy, world, attempt),
        RunFrom(policy, world, attempt + 1));
      attempt := attempt + 1;
    }
  }

  // What the loop promises.

  /** Whatever happens, the reported attempts are the requests started, and there are at most
      MaxRetries + 1 of them. */
  lemma {:induction false} AttemptsAreCounted(policy: RetryPolicy, world: World, attempt: nat)
    requires attempt >= 1
    ensures var log := RunFrom(policy, world, attempt);
      log.outcome.attempts == attempt - 1 + |log.starts| &&
      (attempt <= policy.maxRetries + 1 ==> log.outcome.attempts <= policy.maxRetries + 1) &&
      forall i :: 0 <= i < |log.starts| ==> log.starts[i] == Instant(attempt + i, RequestStart)
    decreases if attempt <= policy.maxRetries then policy.maxRetries + 1 - attempt else 0
  {
    var log := RunFrom(policy, world, attempt);
    if |log.starts| > 1 || (log.starts != [] && log.outcome.attempts > attempt) {
      AttemptsAreCounted(policy, world, attempt + 1);
      var rest := RunFrom(policy, world, attempt + 1);
      assert forall i :: 0 < i < |log.starts| ==> log.starts[i] == rest.starts[i - 1];
    }
  }

  /** An attempt the loop ends on whatever the caller's context does: a success, a status not
      to be retried, or the last one allowed. */
  predicate Final(policy: RetryPolicy, world: World, attempt: nat) {
    var tried := world.turn(attempt).tried;
    attempt > policy.maxRetries || (tried.Answered? && (Is2xx(tried.status) || !Retries(policy, tried.status)))
  }

  ghost predicate LeastFinal(policy: RetryPolicy, world: World, from: nat, attempt: nat) {
    from <= attempt && Final(policy, world, attempt) && forall k :: from <= k < attempt ==> !Final(policy, world, k)
  }

  function OutcomeOf(world: World, attempt: nat): Outcome {
    match world.turn(attempt).tried
    case Answered(status, _) => if Is2xx(status) then Succeeded(status, attempt) else ApiFailed(status, attempt)
    case TimedOut => TimedOutAfter(attempt)
    case Unreached => NetworkFailed(attempt)
  }

  /** Absent cancellation a call returns the outcome of its least final attempt, and it made
      exactly the attempts up to that one. */
  lemma {:induction false} UncancelledRunEndsAtLeastFinal(policy: RetryPolicy, world: World, from: nat)
    returns (last: nat)
    requires from >= 1 && world.endsAt.None?
    ensures LeastFinal(policy, world, from, last)
    ensures RunFrom(policy, world, from).outcome == OutcomeOf(world, last)
    ensures |RunFrom(policy, world, from).starts| == last - from + 1
    decreases if from <= policy.maxRetries then policy.maxRetries + 1 - from else 0
  {
    if Final(policy, world, from) {
      last := from;
    } else {
      last := UncancelledRunEndsAtLeastFinal(policy, world, from + 1);
    }
  }

  /** An attempt is worth another: there is one left, and either there was no answer or its status
      is no success, is listed as retryable, and is none of those never retried. */
  predicate WorthAnother(policy: RetryPolicy, world: World, attempt: nat) {
    attempt <= policy.maxRetries &&
    match world.turn(attempt).tried
    case Answered(status, _) =>
      !(200 <= status < 300) && status in policy.retryableStatuses &&
      status != 400 && status != 401 && status != 403 && status != 404
    case _ => true
  }

  lemma {:induction false} FollowedExactlyFrom(policy: RetryPolicy, world: World, from: nat, i: nat)
    requires from >= 1 && world.endsAt.None? && i < |RunFrom(policy, world, from).starts|
    ensures i + 1 < |RunFrom(policy, world, from).starts| <==> WorthAnother(policy, world, from + i)
    decreases i
  {
    FirstRequest(policy, world, from + 1);
    if i > 0 {
      FollowedExactlyFrom(policy, world, from + 1, i - 1);
    }
  }

  /** In an uncancelled call, which requests are followed by another. */
  lemma {:induction false} FollowedExactlyWhen(policy: RetryPolicy, world: World, i: nat)
    requires world.endsAt.None? && i < |RunFrom(policy, world, 1).starts|
    ensures i + 1 < |RunFrom(policy, world, 1).starts| <==> WorthAnother(policy, world, i + 1)
  {
    FollowedExactlyFrom(policy, world, 1, i);
  }

  /** A service that answers nothing worth keeping gets all the requests the policy allows. */
  lemma {:induction false} RetriesAreUsedUp(policy: RetryPolicy, world: World, from: nat)
    requires world.endsAt.None? && 1 <= from <= policy.maxRetries + 1
    requires forall n :: 1 <= n <= policy.maxRetries ==> WorthAnother(policy, world, n)
    ensures |RunFrom(policy, world, from).starts| == policy.maxRetries + 2 - from
    decreases policy.maxRetries + 1 - from
  {
    FirstRequest(policy, world, from);
    if from <= policy.maxRetries {
      FollowedExactlyFrom(policy, world, from, 0);
      RetriesAreUsedUp(policy, world, from + 1);
    } else if |RunFrom(policy, world, from).starts| > 1 {
      FollowedExactlyFrom(policy, world, from, 0);
      assert false;
    }
  }

  /** With the default policy, a service that is always unavailable gets three requests. */
  lemma UnavailableThreeTimes(random: real)
    ensures var world := World(_ => Turn(false, Answered(503, None), random, true), None);
      |RunFrom(DEFAULT_POLICY, world, 1).starts| == 3
  {
    RetriesAreUsedUp(DEFAULT_POLICY, World(_ => Turn(false, Answered(503, None), random, true), None), 1);
  }

  /** The moments of a turn follow each other, and the next turn follows them. */
  lemma MomentsAreInOrder(attempt: nat)
    ensures Instant(attempt, LoopTop) < Instant(attempt, ThrottleDone) < Instant(attempt, RequestStart) <
      Instant(attempt, RequestDone) < Instant(attempt, AfterFailure) < Instant(attempt, WaitDone) <
      Instant(attempt + 1, LoopTop)
  {
  }

  /** The outcome is what happened: an answer's status, success or not; a timeout or a failure of
      the last request only if the caller had not given up by its end; an abort only if the
      caller gave up. */
  lemma {:induction false} OutcomesTellTheTruth(policy: RetryPolicy, world: World, from: nat)
    requires from >= 1
    ensures var outcome := RunFrom(policy, world, from).outcome;
      var tried := world.turn(outcome.attempts).tried;
      var gaveUp := world.endsAt.Some? && world.endsAt.value <= Instant(outcome.attempts, RequestDone);
      match outcome
      case Succeeded(status, _) => tried.Answered? && tried.status == status && 200 <= status < 300
      case ApiFailed(status, _) => tried.Answered? && tried.status == status && !(200 <= status < 300)
      case TimedOutAfter(_) => tried.TimedOut? && !gaveUp
      case NetworkFailed(_) => tried.Unreached? && !gaveUp
      case Aborted(_) => world.endsAt.Some?
    decreases if from <= policy.maxRetries then policy.maxRetries + 1 - from else 0
  {
    if GoesOn(policy, world, from) {
      OutcomesTellTheTruth(policy, world, from + 1);
    }
  }

  /** A call that the caller gave up during its last request, unanswered, reports an abort, be
      it that the request also timed out. */
  lemma {:induction false} GivingUpIsAnAbort(policy: RetryPolicy, world: World, from: nat)
    requires from >= 1
    requires var run := RunFrom(policy, world, from);
      run.starts != [] && !world.turn(run.outcome.attempts).tried.Answered? &&
      world.endsAt.Some? && world.endsAt.value <= Instant(run.outcome.attempts, RequestDone)
    ensures var run := RunFrom(policy, world, from); run.outcome == Aborted(run.outcome.attempts)
  {
    OutcomesTellTheTruth(policy, world, from);
  }

  /** Cancelled or not, an attempt that was followed by another was not final; in particular
      no 400, 401, 403 or 404 and no success is ever followed by another attempt, whatever
      RetryableStatuses holds. And each follow-up began with the context alive, so of all
      attempts at most the last can have begun after the context ended. */
  lemma {:induction false} FollowedAttempts(policy: RetryPolicy, world: World, from: nat, i: nat)
    requires from >= 1 && i + 1 < |RunFrom(policy, world, from).starts|
    ensures !Final(policy, world, from + i)
    ensures world.turn(from + i).tried.Answered? ==>
      !NeverRetried(world.turn(from + i).tried.status) && !Is2xx(world.turn(from + i).tried.status)
    ensures !Ended(world, from + i + 1, LoopTop) && !Ended(world, from + i, WaitDone)
    decreases i
  {
    if i > 0 {
      FollowedAttempts(policy, world, from + 1, i - 1);
    }
  }

  /** Of a whole call, the attempts begun at or after the end of the context: at most one, and
      it is the last. */
  lemma AtMostOneAttemptAfterTheEnd(policy: RetryPolicy, world: World, i: nat)
    requires i < |RunFrom(policy, world, 1).starts| && world.endsAt.Some?
    requires world.endsAt.value <= RunFrom(policy, world, 1).starts[i]
    ensures i == |RunFrom(policy, world, 1).starts| - 1
    ensures Instant(i + 1, LoopTop) < world.endsAt.value
  {
    AttemptsAreCounted(policy, world, 1);
    if i + 1 < |RunFrom(policy, world, 1).starts| {
      FollowedAttempts(policy, world, 1, i);
    }
    BegunWithContextAlive(policy, world, 1, i);
  }

  lemma {:induction false} BegunWithContextAlive(policy: RetryPolicy, world: World, from: nat, i: nat)
    requires from >= 1 && i < |RunFrom(policy, world, from).starts|
    ensures !Ended(world, from + i, LoopTop)
    decreases i
  {
    if i > 0 {
      BegunWithContextAlive(policy, world, from + 1, i - 1);
    }
  }

  ghost predicate SameTurns(a: World, b: World, from: nat, until: int) {
    forall n :: from <= n < until ==> a.turn(n) == b.turn(n)
  }

  /** The waits between the requests of a call: all but the one after its last request. */
  function WaitsBetween(log: Log): seq<Duration> {
    if |log.waits| < |log.starts| || log.waits == [] then log.waits else log.waits[..|log.waits| - 1]
  }

  /** Cancelling only cuts a call short. Beside any uncancelled call that goes the same up to the
      last attempt, whatever that attempt then comes to, a cancelled call starts a prefix of its
      requests, with the same waits between them. */
  lemma {:induction false} CancelledRunIsAPrefix(policy: RetryPolicy, world: World, free: World, from: nat)
    requires from >= 1 && free.endsAt.None?
    requires SameTurns(world, free, from, from + |RunFrom(policy, world, from).starts| - 1)
    ensures var cut, whole := RunFrom(policy, world, from), RunFrom(policy, free, from);
      cut.starts <= whole.starts && WaitsBetween(cut) <= whole.waits
    decreases if from <= policy.maxRetries then policy.maxRetries + 1 - from else 0
  {
    FirstRequest(policy, world, from);
    FirstRequest(policy, free, from);
    if |RunFrom(policy, world, from).starts| > 1 {
      assert world.turn(from) == free.turn(from);
      Continues(policy, world, free, from);
      hide RunFrom, DelayAfter, WaitsBetween, After;
      NoMoreStarts(Instant(from, RequestStart), DelayAfter(policy, world, from), RunFrom(policy, world, from + 1));
      CancelledRunIsAPrefix(policy, world, free, from + 1);
      PrefixAfter(Instant(from, RequestStart), DelayAfter(policy, world, from),
        RunFrom(policy, world, from + 1), RunFrom(policy, free, from + 1));
    }
  }

  lemma NoMoreStarts(start: nat, wait: Duration, rest: Log)
    ensures |After([start], [wait], rest).starts| == 1 + |rest.starts|
  {
  }

  lemma PrefixAfter(start: nat, wait: Duration, cut: Log, whole: Log)
    requires cut.starts != [] && cut.starts <= whole.starts && WaitsBetween(cut) <= whole.waits
    ensures After([start], [wait], cut).starts <= After([start], [wait], whole).starts
    ensures WaitsBetween(After([start], [wait], cut)) <= After([start], [wait], whole).waits
  {
    assert WaitsBetween(After([start], [wait], cut)) == [wait] + WaitsBetween(cut);
  }

  /** A call starts with its first request, if it gets that far; uncancelled, it does. */
  lemma FirstRequest(policy: RetryPolicy, world: World, from: nat)
    requires from >= 1
    ensures var run := RunFrom(policy, world, from);
      && (run.starts != [] ==> run.starts[0] == Instant(from, RequestStart))
      && (|run.starts| <= 1 ==> |run.waits| <= |run.starts|)
      && (world.endsAt.None? ==> run.starts != [])
  {
    if from <= policy.maxRetries {
      StartsWithTheFirst(policy, world, from + 1);
    }
  }

  lemma {:induction false} StartsWithTheFirst(policy: RetryPolicy, world: World, from: nat)
    requires from >= 1
    ensures RunFrom(policy, world, from).starts == [] ==> RunFrom(policy, world, from).waits == []
  {
  }

  /** An attempt followed by another is followed by one in the uncancelled call too. */
  lemma Continues(policy: RetryPolicy, world: World, free: World, from: nat)
    requires from >= 1 && free.endsAt.None? && world.turn(from) == free.turn(from)
    requires |RunFrom(policy, world, from).starts| > 1
    ensures from <= policy.maxRetries
    ensures var start, wait := [Instant(from, RequestStart)], [DelayAfter(policy, world, from)];
      && RunFrom(policy, world, from) == After(start, wait, RunFrom(policy, world, from + 1))
      && RunFrom(policy, free, from) == After(start, wait, RunFrom(policy, free, from + 1))
  {
    assert StopsAfter(policy, world, from).None?;
    assert StopsAfter(policy, free, from).None?;
  }

  /** When every turn goes the same, all its waits are the uncancelled call's, and the two calls
      are the same unless the context ended before the turn after the last attempt got past its
      throttle. */
  lemma {:induction false} CancellationWithoutEffect(policy: RetryPolicy, world: World, from: nat)
    requires from >= 1
    ensures var cut, free := RunFrom(policy, world, from), RunFrom(policy, world.(endsAt := None), from);
      cut.waits <= free.waits && (cut == free || Ended(world, from + |cut.starts|, ThrottleDone))
    decreases if from <= policy.maxRetries then policy.maxRetries + 1 - from else 0
  {
    var free := world.(endsAt := None);
    if GoesOn(policy, world, from) {
      assert StopsAfter(policy, free, from).None?;
      assert RunFrom(policy, world, from) ==
        After([Instant(from, RequestStart)], [DelayAfter(policy, world, from)], RunFrom(policy, world, from + 1));
      assert RunFrom(policy, free, from) ==
        After([Instant(from, RequestStart)], [DelayAfter(policy, world, from)], RunFrom(policy, free, from + 1));
      CancellationWithoutEffect(policy, world, from + 1);
      hide RunFrom, DelayAfter, Ended;
    }
  }

  /** The loop comes to the turn after this one. */
  predicate GoesOn(policy: RetryPolicy, world: World, from: nat)
    requires from >= 1
  {
    !Ended(world, from, LoopTop) && !ThrottleFails(world, from) &&
    StopsAfter(policy, world, from).None? && !WaitFails(policy, world, from)
  }

  // How long a call can wait.

  predicate NoneHonoured(policy: RetryPolicy, world: World, attempt: nat) {
    var tried := world.turn(attempt).tried;
    !Honoured(policy, if tried.Answered? then tried.retryAfter else None)
  }

  /** The sum of those waits, the first after the given attempt, that no Retry-After decided. */
  function BackoffSum(policy: RetryPolicy, world: World, from: nat, waits: seq<Duration>): int
    decreases |waits|
  {
    if waits == [] then 0
    else (if NoneHonoured(policy, world, from) then waits[0] else 0) + BackoffSum(policy, world, from + 1, waits[1..])
  }

  ghost predicate FairDraws(world: World) {
    forall n :: 0.0 <= world.turn(n).random < 1.0
  }

  /** `waits` are the delays after the attempts from the given one on. */
  ghost predicate AreDelays(policy: RetryPolicy, world: World, from: nat, waits: seq<Duration>)
    requires from >= 1
  {
    forall i :: 0 <= i < |waits| ==> waits[i] == DelayAfter(policy, world, from + i)
  }

  lemma OneMoreDelay(policy: RetryPolicy, world: World, from: nat, waits: seq<Duration>)
    requires from >= 1 && waits != []
    requires waits[0] == DelayAfter(policy, world, from) && AreDelays(policy, world, from + 1, waits[1..])
    ensures AreDelays(policy, world, from, waits)
  {
    hide DelayAfter;
    forall i | 0 <= i < |waits| ensures waits[i] == DelayAfter(policy, world, from + i) {
      if i > 0 {
        assert waits[i] == waits[1..][i - 1] && from + i == from + 1 + (i - 1);
      }
    }
  }

  /** The waits of a run are the delays after its attempts, at most one for each retry left. */
  lemma {:induction false} WaitsAreDelays(policy: RetryPolicy, world: World, from: nat)
    requires 1 <= from <= policy.maxRetries + 1
    ensures var waits := RunFrom(policy, world, from).waits;
      |waits| <= policy.maxRetries + 1 - from && AreDelays(policy, world, from, waits)
    decreases policy.maxRetries + 1 - from
  {
    var waits := RunFrom(policy, world, from).waits;
    FirstWait(policy, world, from);
    hide RunFrom, DelayAfter;
    if waits != [] {
      if waits[1..] != [] {
        WaitsAreDelays(policy, world, from + 1);
      }
      OneMoreDelay(policy, world, from, waits);
    }
  }

  lemma FirstWait(policy: RetryPolicy, world: World, from: nat)
    requires from >= 1
    ensures var waits := RunFrom(policy, world, from).waits;
      waits != [] ==>
        from <= policy.maxRetries && waits[0] == DelayAfter(policy, world, from) &&
        (waits[1..] == [] || waits[1..] == RunFrom(policy, world, from + 1).waits)
  {
  }

  lemma {:induction false} SumWithin(policy: RetryPolicy, world: World, from: nat, waits: seq<Duration>, cap: nat)
    requires forall i :: 0 <= i < |waits| && NoneHonoured(policy, world, from + i) ==> 0 <= waits[i] <= cap
    ensures 0 <= BackoffSum(policy, world, from, waits) <= |waits| * cap
    decreases |waits|
  {
    hide NoneHonoured;
    if waits != [] {
      forall i | 0 <= i < |waits[1..]| && NoneHonoured(policy, world, from + 1 + i) ensures 0 <= waits[1..][i] <= cap {
        assert NoneHonoured(policy, world, from + (i + 1));
      }
      SumWithin(policy, world, from + 1, waits[1..], cap);
      assert |waits| * cap == cap + |waits[1..]| * cap;
    }
  }

  /** After an answer with a Retry-After that the policy respects, the wait is what it asks for,
      whichever retry it is. */
  lemma {:induction false} WaitsHonourRetryAfter(policy: RetryPolicy, world: World, i: nat)
    requires policy.maxRetries >= 0 && policy.respectRetryAfter
    requires i < |RunFrom(policy, world, 1).waits|
    requires world.turn(i + 1).tried.Answered? && world.turn(i + 1).tried.retryAfter.Some?
    requires 0 <= world.turn(i + 1).tried.retryAfter.value < ROUNDING_LIMIT
    ensures var asked, wait := world.turn(i + 1).tried.retryAfter.value, RunFrom(policy, world, 1).waits[i];
      asked - 500_000 <= wait <= asked + 500_000
  {
    WaitsAreDelays(policy, world, 1);
    hide RunFrom, RoundToMillisecond, RetryDelay;
    assert DelayAfter(policy, world, 1 + i) ==
      RetryDelay(i + 1, policy, world.turn(i + 1).tried.retryAfter, world.turn(i + 1).random);
    RetryAfterIsHonoured(i + 1, policy, world.turn(i + 1).tried.retryAfter, world.turn(i + 1).random);
  }

  lemma BackoffDelay(policy: RetryPolicy, world: World, attempt: nat)
    requires Sound(policy) && FairDraws(world) && attempt >= 1 && NoneHonoured(policy, world, attempt)
    ensures var delay := DelayAfter(policy, world, attempt);
      && delay <= policy.maxDelay + 500_000
      && (delay >= 0 <==> Backoff(policy, attempt, world.turn(attempt).random) < ROUNDING_LIMIT as real)
      && (policy.maxDelay < ROUNDING_LIMIT ==> 0 <= delay <= RoundToMillisecond(policy.maxDelay as real))
  {
    var turn := world.turn(attempt);
    var retryAfter := if turn.tried.Answered? then turn.tried.retryAfter else None;
    BackoffKeepsMaxDelay(attempt, policy, retryAfter, turn.random);
    BackoffStaysUnderCap(attempt, policy, retryAfter, turn.random);
    hide Backoff, RoundToMillisecond, RetryDelay;
    assert DelayAfter(policy, world, attempt) == RetryDelay(attempt, policy, retryAfter, turn.random);
  }

  /** The time a wait takes: a negative one takes none. */
  function Slept(waits: seq<Duration>): (slept: seq<Duration>)
    ensures |slept| == |waits|
  {
    seq(|waits|, i requires 0 <= i < |waits| => if waits[i] > 0 then waits[i] else 0)
  }

  /** For every accepted policy, the backoff a call actually sleeps is at most MaxRetries times
      MaxDelay, to within the rounding of each delay. */
  lemma {:induction false} SleptBackoffIsBounded(policy: RetryPolicy, world: World)
    requires Sound(policy) && FairDraws(world)
    ensures var slept := Slept(RunFrom(policy, world, 1).waits);
      0 <= BackoffSum(policy, world, 1, slept) <= policy.maxRetries * (policy.maxDelay + 500_000)
  {
    var waits := RunFrom(policy, world, 1).waits;
    WaitsAreDelays(policy, world, 1);
    hide RunFrom, DelayAfter, NoneHonoured;
    forall i | 0 <= i < |waits| && NoneHonoured(policy, world, 1 + i)
      ensures 0 <= Slept(waits)[i] <= policy.maxDelay + 500_000
    {
      BackoffDelay(policy, world, 1 + i);
    }
    SumWithin(policy, world, 1, Slept(waits), policy.maxDelay + 500_000);
    MultiplyBound(|waits|, policy.maxRetries, policy.maxDelay + 500_000);
  }

  /** What a caller can check of a policy: its longest backoff does not reach the limit. */
  predicate NeverWraps(policy: RetryPolicy) {
    policy.maxRetries <= 0 ||
    var longest := Capped(policy, policy.maxRetries);
    if policy.jitter then longest <= ROUNDING_LIMIT as real else longest < ROUNDING_LIMIT as real
  }

  /** Every wait of every call that no Retry-After decided is one. */
  ghost predicate EveryBackoffWaits(policy: RetryPolicy) {
    forall world, i :: FairDraws(world) && BackedOff(policy, world, i) ==> RunFrom(policy, world, 1).waits[i] >= 0
  }

  ghost predicate BackedOff(policy: RetryPolicy, world: World, i: int) {
    0 <= i < |RunFrom(policy, world, 1).waits| && NoneHonoured(policy, world, 1 + i)
  }

  /** A service out of reach throughout, with the same draw each time. */
  function Outage(random: real): World {
    World(_ => Turn(false, Unreached, random, true), None)
  }

  lemma {:induction false} OutageRetriesToTheEnd(policy: RetryPolicy, random: real, from: nat)
    requires 1 <= from <= policy.maxRetries + 1
    ensures |RunFrom(policy, Outage(random), from).waits| == policy.maxRetries + 1 - from
    decreases policy.maxRetries + 1 - from
  {
    if from <= policy.maxRetries {
      OutageRetriesToTheEnd(policy, random, from + 1);
    }
  }

  /** Every backoff of every call is a wait exactly when the longest one stays below the limit,
      or at most at it with jitter; otherwise an outage reaches one that is negative. */
  lemma {:induction false} EveryBackoffWaitsExactlyWhen(policy: RetryPolicy)
    requires Sound(policy)
    ensures EveryBackoffWaits(policy) <==> NeverWraps(policy)
  {
    hide RunFrom, Backoff, Capped, NoneHonoured, DelayAfter;
    if NeverWraps(policy) {
      forall world, i | FairDraws(world) && BackedOff(policy, world, i)
        ensures RunFrom(policy, world, 1).waits[i] >= 0
      {
        WaitsAreDelays(policy, world, 1);
        BackoffBelowLimit(policy, 1 + i, world.turn(1 + i).random);
        BackoffDelay(policy, world, 1 + i);
      }
    } else {
      var random := WrappingDraw(policy);
      OutageWraps(policy, random);
    }
  }

  lemma BackoffBelowLimit(policy: RetryPolicy, attempt: nat, random: real)
    requires Sound(policy) && 1 <= attempt <= policy.maxRetries && 0.0 <= random < 1.0 && NeverWraps(policy)
    ensures Backoff(policy, attempt, random) < ROUNDING_LIMIT as real
  {
    hide Capped, Scale;
    CappedGrows(policy, attempt, policy.maxRetries);
    CappedBounds(policy, attempt);
    if policy.jitter {
      ScaledBelow(Capped(policy, attempt), random, ROUNDING_LIMIT as real);
    }
  }

  lemma WrappingDraw(policy: RetryPolicy) returns (random: real)
    requires Sound(policy) && !NeverWraps(policy)
    ensures 0.0 <= random < 1.0 && Backoff(policy, policy.maxRetries, random) >= ROUNDING_LIMIT as real
  {
    hide Capped, Scale;
    random := 0.0;
    if policy.jitter {
      random := ROUNDING_LIMIT as real / Capped(policy, policy.maxRetries);
      ScaledToLimit(Capped(policy, policy.maxRetries), ROUNDING_LIMIT as real);
    }
  }

  lemma OutageWraps(policy: RetryPolicy, random: real)
    requires Sound(policy) && policy.maxRetries >= 1 && 0.0 <= random < 1.0
    requires Backoff(policy, policy.maxRetries, random) >= ROUNDING_LIMIT as real
    ensures !EveryBackoffWaits(policy)
  {
    var world, last := Outage(random), policy.maxRetries - 1;
    OutageRetriesToTheEnd(policy, random, 1);
    WaitsAreDelays(policy, world, 1);
    assert NoneHonoured(policy, world, 1 + last) && FairDraws(world);
    hide RunFrom, Backoff, NoneHonoured, DelayAfter;
    BackoffDelay(policy, world, 1 + last);
    assert BackedOff(policy, world, last);
    assert RunFrom(policy, world, 1).waits[last] < 0;
  }

  /** In any call, whichever of its waits a Retry-After decided, the others add up to at most
      MaxRetries times MaxDelay, to within the rounding of each, when the longest backoff stays
      below the limit; and to MaxRetries rounded caps exactly when MaxDelay is below it, or there
      are no retries. */
  lemma {:induction false} TotalBackoff(policy: RetryPolicy, world: World)
    requires Sound(policy) && FairDraws(world)
    ensures var sum := BackoffSum(policy, world, 1, RunFrom(policy, world, 1).waits);
      && (NeverWraps(policy) ==> 0 <= sum <= policy.maxRetries * (policy.maxDelay + 500_000))
      && (0 <= sum <= policy.maxRetries * RoundToMillisecond(policy.maxDelay as real) <==>
          policy.maxDelay < ROUNDING_LIMIT || policy.maxRetries == 0)
  {
    var waits, cap := RunFrom(policy, world, 1).waits, RoundToMillisecond(policy.maxDelay as real);
    WaitsAreDelays(policy, world, 1);
    RoundingLimit(policy.maxDelay as real);
    hide RoundToMillisecond, RunFrom, NeverWraps;
    if NeverWraps(policy) {
      SumOfWaits(policy, world, policy.maxDelay + 500_000);
    }
    if policy.maxDelay < ROUNDING_LIMIT {
      SumOfWaits(policy, world, cap);
    } else if policy.maxRetries == 0 {
      assert waits == [];
    } else {
      NegativeProduct(policy.maxRetries, cap);
    }
  }

  lemma SumOfWaits(policy: RetryPolicy, world: World, cap: nat)
    requires Sound(policy) && FairDraws(world)
    requires (NeverWraps(policy) && cap == policy.maxDelay + 500_000) ||
      (policy.maxDelay < ROUNDING_LIMIT && cap == RoundToMillisecond(policy.maxDelay as real))
    ensures 0 <= BackoffSum(policy, world, 1, RunFrom(policy, world, 1).waits) <= policy.maxRetries * cap
  {
    var waits := RunFrom(policy, world, 1).waits;
    WaitsAreDelays(policy, world, 1);
    hide RunFrom, DelayAfter, NoneHonoured, RoundToMillisecond, NeverWraps, Backoff;
    forall i | 0 <= i < |waits| && NoneHonoured(policy, world, 1 + i) ensures 0 <= waits[i] <= cap {
      if NeverWraps(policy) {
        BackoffBelowLimit(policy, 1 + i, world.turn(1 + i).random);
      }
      BackoffDelay(policy, world, 1 + i);
    }
    SumWithin(policy, world, 1, waits, cap);
    MultiplyBound(|waits|, policy.maxRetries, cap);
  }

  lemma NegativeProduct(a: int, b: int)
    requires a > 0 && b < 0
    ensures a * b < 0
  {
  }

  lemma MultiplyBound(a: nat, b: nat, c: nat)
    requires a <= b
    ensures a * c <= b * c
  {
  }
}
