/** The request-per-second ceiling: slots handed out under a lock to any number of callers. */
module RateScheduler {
  import RetryPolicies

  /** The interval between slots, in nanoseconds, for a ceiling of `limit` requests a second. */
  function Interval(limit: real): (interval: nat)
    requires limit > 0.0
    ensures interval > 0 <==> limit <= 1_000_000_000.0
  {
    var exact := 1_000_000_000.0 / limit;
    assert exact * limit == 1_000_000_000.0;
    assert exact >= 1.0 <==> limit <= 1_000_000_000.0 by {
      if exact >= 1.0 { assert (exact - 1.0) * limit >= 0.0; }
      if exact < 1.0 { assert (1.0 - exact) * limit > 0.0; }
    }
    assert exact >= 0.0;
    exact.Floor
  }

  /** The slot a caller gets: now, or the next free one if that is later. */
  function Slot(nextRequestAt: int, now: int): int {
    if nextRequestAt > now then nextRequestAt else now
  }

  /** The part of `throttle` that runs under the mutex. */
  class Throttle {
    const interval: int
    var nextRequestAt: int

    constructor (interval: int)
      ensures this.interval == interval && nextRequestAt == 0
    {
      this.interval := interval;
      nextRequestAt := 0;
    }

    method Reserve(now: nat) returns (scheduled: int)
      modifies this
      ensures scheduled == Slot(old(nextRequestAt), now)
      ensures nextRequestAt == scheduled + interval
    {
      scheduled := now;
      if nextRequestAt > now {
        scheduled := nextRequestAt;
      }
      nextRequestAt := scheduled + interval;
    }
  }

  // Many callers. Every reservation is one step, whoever makes it and whatever the clock says;
  // afterwards the caller sleeps until its slot and sends, or is cancelled, or does neither yet.

  datatype Ticket = Waiting | Sent(at: int) | Cancelled

  /** All reservations so far, in lock order: the clock reading, the slot, and what became of it. */
  datatype State = State(nextRequestAt: int, readings: seq<nat>, slots: seq<int>, tickets: seq<Ticket>)

  datatype Step = Reserve(now: nat) | Send(ticket: nat, at: int) | Cancel(ticket: nat)

  const START := State(0, [], [], [])

  predicate Enabled(s: State, step: Step) {
    match step
    case Reserve(_) => true
    case Send(k, at) => k < |s.tickets| == |s.slots| && s.tickets[k] == Waiting && at >= s.slots[k]
    case Cancel(k) => k < |s.tickets| && s.tickets[k] == Waiting
  }

  function Next(s: State, step: Step, interval: int): State
    requires Enabled(s, step)
  {
    match step
    case Reserve(now) =>
      var slot := Slot(s.nextRequestAt, now);
      State(slot + interval, s.readings + [now], s.slots + [slot], s.tickets + [Waiting])
    case Send(k, at) => s.(tickets := s.tickets[k := Sent(at)])
    case Cancel(k) => s.(tickets := s.tickets[k := Cancelled])
  }

  /** `states` runs from the start, each state the next of the one before under some step. */
  ghost predicate Run(states: seq<State>, interval: int) {
    states != [] && states[0] == START &&
    forall i :: 0 <= i < |states| - 1 ==> Follows(states[i], states[i + 1], interval)
  }

  ghost predicate Follows(s: State, next: State, interval: int) {
    exists step :: Enabled(s, step) && next == Next(s, step, interval)
  }

  /** The closed form of the k-th slot: the latest any reading up to it forces. */
  function LatestForced(readings: seq<nat>, interval: nat, k: nat): int
    requires k < |readings|
  {
    if k == 0 then readings[0]
    else
      var earlier := LatestForced(readings, interval, k - 1) + interval;
      if earlier > readings[k] then earlier else readings[k]
  }

  /** It is the maximum over j <= k of readings[j] + (k - j) * interval. */
  lemma {:induction false} LatestForcedIsMaximum(readings: seq<nat>, interval: nat, k: nat)
    requires k < |readings|
    ensures forall j :: 0 <= j <= k ==> readings[j] + (k - j) * interval <= LatestForced(readings, interval, k)
    ensures exists j :: 0 <= j <= k && readings[j] + (k - j) * interval == LatestForced(readings, interval, k)
  {
    if k == 0 {
      assert readings[0] + (0 - 0) * interval == LatestForced(readings, interval, 0);
    } else {
      LatestForcedIsMaximum(readings, interval, k - 1);
      forall j | 0 <= j <= k ensures readings[j] + (k - j) * interval <= LatestForced(readings, interval, k) {
        if j < k {
          OneMoreInterval(k - j, interval);
        }
      }
      var j :| 0 <= j <= k - 1 && readings[j] + (k - 1 - j) * interval == LatestForced(readings, interval, k - 1);
      OneMoreInterval(k - j, interval);
      if LatestForced(readings, interval, k) == readings[k] {
        assert readings[k] + (k - k) * interval == LatestForced(readings, interval, k);
      } else {
        assert readings[j] + (k - j) * interval == LatestForced(readings, interval, k);
      }
    }
  }

  lemma OneMoreInterval(n: nat, interval: nat)
    requires n >= 1
    ensures n * interval == (n - 1) * interval + interval
  {
  }

  ghost predicate Invariant(s: State, interval: nat) {
    && |s.readings| == |s.slots| == |s.tickets|
    && (forall k :: 0 <= k < |s.slots| ==> s.slots[k] == LatestForced(s.readings, interval, k))
    && s.nextRequestAt == (if s.slots == [] then 0 else s.slots[|s.slots| - 1] + interval)
    && (forall k :: 0 <= k < |s.tickets| && s.tickets[k].Sent? ==> s.tickets[k].at >= s.slots[k])
  }

  lemma {:induction false} ForcedByPrefix(readings: seq<nat>, more: nat, interval: nat, k: nat)
    requires k < |readings|
    ensures LatestForced(readings + [more], interval, k) == LatestForced(readings, interval, k)
  {
    if k > 0 {
      ForcedByPrefix(readings, more, interval, k - 1);
    }
  }

  lemma ReserveKeepsSlots(readings: seq<nat>, slots: seq<int>, nextRequestAt: int, now: nat, interval: nat)
    requires |readings| == |slots|
    requires forall k :: 0 <= k < |slots| ==> slots[k] == LatestForced(readings, interval, k)
    requires nextRequestAt == if slots == [] then 0 else slots[|slots| - 1] + interval
    ensures var more, given := readings + [now], slots + [Slot(nextRequestAt, now)];
      forall k :: 0 <= k < |given| ==> given[k] == LatestForced(more, interval, k)
  {
    var more, given := readings + [now], slots + [Slot(nextRequestAt, now)];
    forall k | 0 <= k < |given| ensures given[k] == LatestForced(more, interval, k) {
      if k < |slots| {
        ForcedByPrefix(readings, now, interval, k);
      } else if k > 0 {
        ForcedByPrefix(readings, now, interval, k - 1);
      }
    }
  }

  lemma StepKeepsInvariant(s: State, step: Step, interval: nat)
    requires Invariant(s, interval) && Enabled(s, step)
    ensures Invariant(Next(s, step, interval), interval)
  {
    hide LatestForced;
    match step
    case Reserve(now) =>
      ReserveKeepsSlots(s.readings, s.slots, s.nextRequestAt, now, interval);
    case Send(k, at) =>
    case Cancel(k) =>
  }

  lemma {:induction false} RunsKeepInvariant(states: seq<State>, interval: nat, i: nat)
    requires Run(states, interval) && i < |states|
    ensures Invariant(states[i], interval)
  {
    if i > 0 {
      RunsKeepInvariant(states, interval, i - 1);
      assert Follows(states[i - 1], states[i - 1 + 1], interval);
      var step :| Enabled(states[i - 1], step) && states[i] == Next(states[i - 1], step, interval);
      StepKeepsInvariant(states[i - 1], step, interval);
    }
  }

  /** In every state of every interleaving, the k-th slot is the latest time any reading up to
      it forces, and never before its own reading. */
  lemma {:induction false} SlotsHaveClosedForm(states: seq<State>, interval: nat, i: nat, k: nat)
    requires Run(states, interval) && i < |states| && k < |states[i].slots|
    ensures |states[i].readings| == |states[i].slots|
    ensures forall j :: 0 <= j <= k ==> states[i].readings[j] + (k - j) * interval <= states[i].slots[k]
    ensures exists j :: 0 <= j <= k && states[i].readings[j] + (k - j) * interval == states[i].slots[k]
  {
    RunsKeepInvariant(states, interval, i);
    LatestForcedIsMaximum(states[i].readings, interval, k);
  }

  lemma {:induction false} SlotsAreSpacedFrom(readings: seq<nat>, interval: nat, j: nat, k: nat)
    requires j <= k < |readings|
    ensures LatestForced(readings, interval, j) + (k - j) * interval <= LatestForced(readings, interval, k)
    decreases k
  {
    if j < k {
      SlotsAreSpacedFrom(readings, interval, j, k - 1);
      OneMoreInterval(k - j, interval);
    }
  }

  /** Any two slots lie at least one interval apart for each reservation between them. */
  lemma {:induction false} SlotsAreSpaced(states: seq<State>, interval: nat, i: nat, j: nat, k: nat)
    requires Run(states, interval) && i < |states| && j <= k < |states[i].slots|
    ensures states[i].slots[j] + (k - j) * interval <= states[i].slots[k]
  {
    RunsKeepInvariant(states, interval, i);
    SlotsAreSpacedFrom(states[i].readings, interval, j, k);
  }

  /** The reservations that sent by `time`. */
  function SentBy(s: State, time: int): set<nat> {
    set k: nat | k < |s.tickets| && s.tickets[k].Sent? && s.tickets[k].at <= time
  }

  lemma {:induction false} BoundedNaturals(s: set<nat>, n: nat)
    requires forall k :: k in s ==> k < n
    ensures |s| <= n
  {
    if n == 0 {
      assert s == {};
    } else {
      BoundedNaturals(s - {n - 1}, n - 1);
    }
  }

  /** How many slots, one interval apart from `first` on, lie at or before `time`. */
  function Allowance(first: int, interval: nat, time: int): nat
    requires interval > 0
  {
    if time < first then 0 else (time - first) / interval + 1
  }

  lemma IndexWithinAllowance(first: int, interval: nat, time: int, k: nat)
    requires interval > 0 && first + k * interval <= time
    ensures k < Allowance(first, interval, time)
  {
    var q, r := (time - first) / interval, (time - first) % interval;
    assert time - first == q * interval + r && 0 <= r < interval;
    assert (q + 1) * interval == q * interval + interval;
    if q + 1 <= k {
      TimesIsMonotone(q + 1, k, interval);
    }
  }

  lemma TimesIsMonotone(a: int, b: int, c: nat)
    requires a <= b
    ensures a * c <= b * c
  {
    assert (b - a) * c >= 0;
  }

  lemma SentIndexIsBounded(s: State, interval: nat, time: int, k: nat)
    requires Invariant(s, interval) && interval > 0 && k in SentBy(s, time)
    ensures |s.slots| > 0 && k < Allowance(s.slots[0], interval, time)
  {
    hide LatestForced, Allowance;
    assert s.slots[0] == LatestForced(s.readings, interval, 0);
    SlotsAreSpacedFrom(s.readings, interval, 0, k);
    IndexWithinAllowance(s.slots[0], interval, time, k);
  }

  lemma SentWithinAllowance(s: State, interval: nat, time: int)
    requires Invariant(s, interval) && interval > 0
    ensures |SentBy(s, time)| <= if s.slots == [] then 0 else Allowance(s.slots[0], interval, time)
  {
    hide Invariant, Allowance;
    forall k | k in SentBy(s, time) ensures s.slots != [] && k < Allowance(s.slots[0], interval, time) {
      SentIndexIsBounded(s, interval, time, k);
    }
    if s.slots == [] {
      assert SentBy(s, time) == {};
    } else {
      BoundedNaturals(SentBy(s, time), Allowance(s.slots[0], interval, time));
    }
  }

  /** As long as no sleep returns early, the requests sent by any time number at most
      floor((time - first slot) / interval) + 1, and none before the first slot; cancelled
      waiters and retries are among the reservations. */
  lemma {:induction false} RateIsLimited(states: seq<State>, interval: nat, i: nat, time: int)
    requires Run(states, interval) && i < |states| && interval > 0 && states[i].slots != []
    ensures |SentBy(states[i], time)| <= Allowance(states[i].slots[0], interval, time)
  {
    RunsKeepInvariant(states, interval, i);
    SentWithinAllowance(states[i], interval, time);
  }

  // The configured ceiling.

  const NANOSECONDS := 1_000_000_000.0

  lemma IntervalTruncates(limit: real)
    requires limit > 0.0
    ensures Interval(limit) as real * limit <= NANOSECONDS
  {
    var exact := NANOSECONDS / limit;
    var truncated := exact - Interval(limit) as real;
    assert exact * limit == NANOSECONDS;
    assert truncated >= 0.0;
    assert truncated * limit >= 0.0;
    assert (exact - truncated) * limit == exact * limit - truncated * limit;
  }

  /** The interval is the largest whole number of nanoseconds of which `limit` fit into a second:
      what truncation takes off is less than one. */
  lemma {:induction false} IntervalIsLargest(limit: real, n: nat)
    requires limit > 0.0
    ensures n as real * limit <= NANOSECONDS <==> n <= Interval(limit)
  {
    IntervalTruncates(limit);
    IntervalIsNotShorter(limit);
    var interval := Interval(limit);
    hide Interval;
    if n <= interval {
      Scaled(n, interval, limit);
    } else {
      Scaled(interval + 1, n, limit);
    }
  }

  lemma IntervalIsNotShorter(limit: real)
    requires limit > 0.0
    ensures (Interval(limit) + 1) as real * limit > NANOSECONDS
  {
    var exact := NANOSECONDS / limit;
    var over := (Interval(limit) + 1) as real - exact;
    assert exact * limit == NANOSECONDS;
    assert over > 0.0;
    assert over * limit > 0.0;
    assert (exact + over) * limit == exact * limit + over * limit;
  }

  lemma Scaled(a: int, b: int, limit: real)
    requires a <= b && limit > 0.0
    ensures a as real * limit <= b as real * limit
  {
    var more := (b - a) as real;
    assert more * limit >= 0.0;
    assert (a as real + more) * limit == a as real * limit + more * limit;
  }

  /** After the first of them, the requests sent are at most `limit` for every second but the
      `limit` nanoseconds that truncating the interval can take off it. */
  predicate NearlyKept(sent: int, limit: real, elapsed: int) {
    (sent - 1) as real * (NANOSECONDS - limit) <= elapsed as real * limit
  }

  /** Whatever the ceiling, up to one request a nanosecond, and whatever truncation takes off the
      interval, every run nearly keeps it from the first slot on. */
  lemma {:induction false} CeilingIsNearlyKept(states: seq<State>, limit: real, i: nat, time: int)
    requires 0.0 < limit <= NANOSECONDS && Interval(limit) <= RetryPolicies.MAX_INT64
    requires Run(states, Interval(limit)) && i < |states|
    requires states[i].slots != [] && time >= states[i].slots[0]
    ensures NearlyKept(|SentBy(states[i], time)|, limit, time - states[i].slots[0])
  {
    RunsKeepInvariant(states, Interval(limit), i);
    NearlyWithinCeiling(states[i], limit, time);
  }

  lemma NearlyWithinCeiling(s: State, limit: real, time: int)
    requires 0.0 < limit <= NANOSECONDS && Invariant(s, Interval(limit))
    requires s.slots != [] && time >= s.slots[0]
    ensures NearlyKept(|SentBy(s, time)|, limit, time - s.slots[0])
  {
    var interval, n, elapsed := Interval(limit), |SentBy(s, time)| - 1, time - s.slots[0];
    SentWithinAllowance(s, interval, time);
    assert n <= elapsed / interval;
    IntervalIsNotShorter(limit);
    hide Interval, SentBy, Invariant;
    NearlyWholeIntervals(n, elapsed, interval, limit);
  }

  lemma NearlyWholeIntervals(n: int, elapsed: nat, interval: nat, limit: real)
    requires interval > 0 && 0.0 < limit <= NANOSECONDS && (interval + 1) as real * limit > NANOSECONDS
    requires n <= elapsed / interval
    ensures n as real * (NANOSECONDS - limit) <= elapsed as real * limit
  {
    var spare := NANOSECONDS - limit;
    assert (interval + 1) as real * limit == interval as real * limit + limit;
    if n <= 0 {
      ProductSign((-n) as real, spare);
      ProductSign(elapsed as real, limit);
      assert n as real * spare == -((-n) as real * spare);
    } else {
      TimesIsMonotone(n, elapsed / interval, interval);
      assert elapsed == (elapsed / interval) * interval + elapsed % interval;
      Scaled(n * interval, elapsed, limit);
      WholeSpans(n, interval, limit, spare);
    }
  }

  lemma ProductSign(x: real, y: real)
    requires x >= 0.0 && y >= 0.0
    ensures x * y >= 0.0
  {
  }

  lemma WholeSpans(n: nat, interval: nat, limit: real, spare: real)
    requires spare <= interval as real * limit
    ensures n as real * spare <= (n * interval) as real * limit
  {
    var gap := interval as real * limit - spare;
    ProductSign(n as real, gap);
    assert n as real * (spare + gap) == n as real * spare + n as real * gap;
    assert (n * interval) as real == n as real * interval as real;
    assert (n as real * interval as real) * limit == n as real * (interval as real * limit);
  }

  /** Of the requests sent from the first slot to `time`, at most `limit` a second and one more. */
  ghost predicate WithinCeiling(s: State, limit: real, time: int) {
    s.slots != [] && time >= s.slots[0] ==>
      (|SentBy(s, time)| - 1) as real * NANOSECONDS <= (time - s.slots[0]) as real * limit
  }

  /** What the conversion to 64 bits can make of the interval: itself where it fits, and
      otherwise whatever the platform chooses. */
  predicate Converts(limit: real, interval: int)
    requires limit > 0.0
  {
    if Interval(limit) <= RetryPolicies.MAX_INT64 then interval == Interval(limit)
    else -RetryPolicies.MAX_INT64 - 1 <= interval <= RetryPolicies.MAX_INT64
  }

  /** On every platform, in every run. */
  ghost predicate CeilingIsKept(limit: real)
    requires limit > 0.0
  {
    forall interval, states, i, time :: Converts(limit, interval) && Run(states, interval) && 0 <= i < |states| ==>
      WithinCeiling(states[i], limit, time)
  }

  /** Every run keeps to the configured ceiling exactly when it divides a second into whole
      nanoseconds, and few enough of them to fit into 64 bits. Otherwise the interval is cut
      short, or anything at all, and the second of two requests made at once is already sent
      too soon. */
  lemma {:induction false} CeilingIsKeptExactlyWhen(limit: real)
    requires limit > 0.0
    ensures CeilingIsKept(limit) <==>
      Interval(limit) as real * limit == NANOSECONDS && Interval(limit) <= RetryPolicies.MAX_INT64
  {
    var interval := Interval(limit);
    hide Run, WithinCeiling, Interval, TwoAtOnce;
    IntervalTruncates(limit);
    if interval as real * limit == NANOSECONDS && interval <= RetryPolicies.MAX_INT64 {
      forall other, states, i, time | Converts(limit, other) && Run(states, other) && 0 <= i < |states|
        ensures WithinCeiling(states[i], limit, time)
      {
        WholeIntervalsKeepCeiling(states, limit, interval, i, time);
      }
    }
    if CeilingIsKept(limit) {
      var chosen := if interval <= RetryPolicies.MAX_INT64 then interval else 0;
      var states := TwoAtOnce(chosen);
      TwoAtOnceRuns(chosen);
      assert Converts(limit, chosen) && WithinCeiling(states[4], limit, chosen);
      TwoAtOnceNeedWholeInterval(limit, chosen);
    }
  }

  lemma WholeIntervalsKeepCeiling(states: seq<State>, limit: real, interval: nat, i: nat, time: int)
    requires limit > 0.0 && interval as real * limit == NANOSECONDS
    requires Run(states, interval) && i < |states|
    ensures WithinCeiling(states[i], limit, time)
  {
    assert interval > 0;
    if states[i].slots != [] && time >= states[i].slots[0] {
      var elapsed := time - states[i].slots[0];
      RateIsLimited(states, interval, i, time);
      hide Run, SentBy;
      var n := |SentBy(states[i], time)| - 1;
      assert n <= elapsed / interval;
      WholeIntervals(n, elapsed, interval, limit);
    }
  }

  lemma WholeIntervals(n: int, elapsed: nat, interval: nat, limit: real)
    requires interval > 0 && limit > 0.0 && interval as real * limit == NANOSECONDS
    requires n <= elapsed / interval
    ensures n as real * NANOSECONDS <= elapsed as real * limit
  {
    var q, r := elapsed / interval, elapsed % interval;
    assert elapsed == q * interval + r;
    TimesIsMonotone(n, q, interval);
    var spare := (elapsed - n * interval) as real;
    assert spare >= 0.0;
    assert spare * limit >= 0.0;
    assert (n * interval) as real == n as real * interval as real;
    assert elapsed as real * limit == (n as real * interval as real) * limit + spare * limit;
    assert (n as real * interval as real) * limit == n as real * (interval as real * limit);
  }

  /** Two callers reserve at time 0 and each sends at its slot. */
  function TwoAtOnce(interval: nat): seq<State> {
    [START,
     State(interval, [0], [0], [Waiting]),
     State(2 * interval, [0, 0], [0, interval], [Waiting, Waiting]),
     State(2 * interval, [0, 0], [0, interval], [Sent(0), Waiting]),
     State(2 * interval, [0, 0], [0, interval], [Sent(0), Sent(interval)])]
  }

  lemma TwoAtOnceRuns(interval: nat)
    ensures Run(TwoAtOnce(interval), interval)
  {
    var states := TwoAtOnce(interval);
    assert Enabled(states[0], Reserve(0)) && states[1] == Next(states[0], Reserve(0), interval);
    assert Enabled(states[1], Reserve(0)) && states[2] == Next(states[1], Reserve(0), interval);
    assert Enabled(states[2], Send(0, 0)) && states[3] == Next(states[2], Send(0, 0), interval);
    assert Enabled(states[3], Send(1, interval)) && states[4] == Next(states[3], Send(1, interval), interval);
    hide Enabled, Next;
    forall i | 0 <= i < |states| - 1 ensures Follows(states[i], states[i + 1], interval) {
      assert i == 0 || i == 1 || i == 2 || i == 3;
    }
  }

  lemma TwoAtOnceNeedWholeInterval(limit: real, interval: nat)
    requires WithinCeiling(TwoAtOnce(interval)[4], limit, interval)
    ensures interval as real * limit >= NANOSECONDS
  {
    var s := TwoAtOnce(interval)[4];
    assert SentBy(s, interval) == {0, 1};
  }
}
