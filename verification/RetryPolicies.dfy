/** The retry policy: what is accepted, what is retried, and how long to wait. */
module RetryPolicies {
  import opened Wrappers

  const MAX_INT64 := 0x7fff_ffff_ffff_ffff
  const TWO_TO_64 := 0x1_0000_0000_0000_0000
  const MILLISECOND := 1_000_000

  /** Nanoseconds in a signed 64-bit integer. */
  type Duration = d: int | -0x8000_0000_0000_0000 <= d <= MAX_INT64

  /** From here on, rounding to a whole millisecond leaves the 64-bit range. */
  const ROUNDING_LIMIT := 9_223_372_036_854_500_000

  datatype RetryPolicy = RetryPolicy(
    maxRetries: int,
    initialDelay: Duration,
    maxDelay: Duration,
    backoffFactor: real,
    jitter: bool,
    retryableStatuses: seq<int>,
    respectRetryAfter: bool)

  datatype Problem =
    | NegativeMaxRetries
    | NegativeInitialDelay
    | NegativeMaxDelay
    | ShrinkingBackoff
    | BadTimeout
    | BadHeader

  /** `RetryPolicy.problem`: the first thing wrong, if any. */
  function ProblemOf(policy: RetryPolicy): Option<Problem> {
    if policy.maxRetries < 0 then Some(NegativeMaxRetries)
    else if policy.initialDelay < 0 then Some(NegativeInitialDelay)
    else if policy.maxDelay < 0 then Some(NegativeMaxDelay)
    else if policy.backoffFactor < 1.0 then Some(ShrinkingBackoff)
    else None
  }

  predicate Sound(policy: RetryPolicy) {
    ProblemOf(policy) == None
  }

  /** A policy is accepted exactly when nothing in it is negative and its backoff does not shrink,
      and what is found wrong with it is wrong. */
  lemma SoundExactlyWhen(policy: RetryPolicy)
    ensures Sound(policy) <==>
      policy.maxRetries >= 0 && policy.initialDelay >= 0 && policy.maxDelay >= 0 && policy.backoffFactor >= 1.0
    ensures ProblemOf(policy).Some? ==>
      match ProblemOf(policy).value
      case NegativeMaxRetries => policy.maxRetries < 0
      case NegativeInitialDelay => policy.initialDelay < 0
      case NegativeMaxDelay => policy.maxDelay < 0
      case ShrinkingBackoff => policy.backoffFactor < 1.0
      case _ => false
  {
  }

  const DEFAULT_POLICY := RetryPolicy(2, 500_000_000, 8_000_000_000, 2.0, true, [429, 500, 502, 503, 504], true)

  predicate NeverRetried(status: int) {
    status in {400, 401, 403, 404}
  }

  /** `RetryPolicy.retries` */
  predicate Retries(policy: RetryPolicy, status: int) {
    !NeverRetried(status) && status in policy.retryableStatuses
  }

  /** Two's-complement wrap-around. */
  function Wrap64(n: int): Duration {
    (n + 0x8000_0000_0000_0000) % TWO_TO_64 - 0x8000_0000_0000_0000
  }

  /** Rounds half away from zero. */
  function Round(x: real): int {
    if x >= 0.0 then (x + 0.5).Floor else -((-x + 0.5).Floor)
  }

  /** `roundToMillisecond`: the product is a 64-bit multiplication. */
  function RoundToMillisecond(nanoseconds: real): Duration {
    Wrap64(Round(nanoseconds / 1_000_000.0) * MILLISECOND)
  }

  function Pow(base: real, exponent: nat): real {
    if exponent == 0 then 1.0 else base * Pow(base, exponent - 1)
  }

  /** The backoff before jitter: exponential, capped. */
  function Capped(policy: RetryPolicy, attempt: nat): real
    requires attempt >= 1
  {
    var exponential := policy.initialDelay as real * Pow(policy.backoffFactor, attempt - 1);
    if exponential <= policy.maxDelay as real then exponential else policy.maxDelay as real
  }

  predicate Honoured(policy: RetryPolicy, retryAfter: Option<Duration>) {
    policy.respectRetryAfter && retryAfter.Some? && retryAfter.value >= 0
  }

  /** `computeRetryDelay` */
  function RetryDelay(attempt: nat, policy: RetryPolicy, retryAfter: Option<Duration>, random: real): Duration
    requires attempt >= 1
  {
    if Honoured(policy, retryAfter) then RoundToMillisecond(retryAfter.value as real)
    else RoundToMillisecond(Backoff(policy, attempt, random))
  }

  /** Full jitter: anywhere from zero to the capped delay. */
  function Backoff(policy: RetryPolicy, attempt: nat, random: real): real
    requires attempt >= 1
  {
    if policy.jitter then Scale(Capped(policy, attempt), random) else Capped(policy, attempt)
  }

  function Scale(x: real, factor: real): real {
    x * factor
  }

  // Rounding.

  lemma FloorBounds(x: real)
    ensures x.Floor as real <= x < x.Floor as real + 1.0
  {
  }

  lemma WrapInRange(n: int)
    ensures -0x8000_0000_0000_0000 <= n <= MAX_INT64 ==> Wrap64(n) == n
    ensures MAX_INT64 < n < TWO_TO_64 ==> Wrap64(n) == n - TWO_TO_64
  {
  }

  /** Below the limit the result is within half a millisecond; from the limit on it has
      wrapped and is negative. */
  lemma {:induction false} RoundingLimit(x: real)
    requires 0.0 <= x <= MAX_INT64 as real
    ensures x < ROUNDING_LIMIT as real ==>
      RoundToMillisecond(x) >= 0 && x - 500_000.0 <= RoundToMillisecond(x) as real <= x + 500_000.0
    ensures x >= ROUNDING_LIMIT as real ==> RoundToMillisecond(x) < 0
  {
    var q := x / 1_000_000.0;
    var n := Round(q);
    assert q * 1_000_000.0 == x;
    FloorBounds(q + 0.5);
    assert n as real <= q + 0.5 < n as real + 1.0;
    WrapInRange(n * MILLISECOND);
    if x < ROUNDING_LIMIT as real {
      assert q + 0.5 < 9_223_372_036_855.0;
      assert n < 9_223_372_036_855;
    } else {
      assert q + 0.5 >= 9_223_372_036_855.0;
      assert n >= 9_223_372_036_855;
    }
  }

  /** Below the limit the result is the nearest whole millisecond, and the later of two as near. */
  lemma {:induction false} RoundsToNearest(x: real)
    requires 0.0 <= x < ROUNDING_LIMIT as real
    ensures RoundToMillisecond(x) % 1_000_000 == 0
    ensures x - 500_000.0 < RoundToMillisecond(x) as real <= x + 500_000.0
  {
    var q := x / 1_000_000.0;
    var n := Round(q);
    assert q * 1_000_000.0 == x;
    FloorBounds(q + 0.5);
    assert n as real <= q + 0.5 < n as real + 1.0;
    assert q + 0.5 < 9_223_372_036_855.0;
    WrapInRange(n * MILLISECOND);
  }

  /** Rounding keeps the order on either side of the limit, and breaks it across. */
  lemma {:induction false} RoundingIsMonotone(x: real, y: real)
    requires 0.0 <= x <= y <= MAX_INT64 as real
    ensures RoundToMillisecond(x) <= RoundToMillisecond(y) <==>
      x >= ROUNDING_LIMIT as real || y < ROUNDING_LIMIT as real
  {
    RoundingLimit(x);
    RoundingLimit(y);
    var p, q := x / 1_000_000.0, y / 1_000_000.0;
    assert p <= q;
    FloorBounds(p + 0.5);
    FloorBounds(q + 0.5);
    assert Round(p) <= Round(q);
    assert q + 0.5 < 9_223_372_036_856.0;
    WrapInRange(Round(p) * MILLISECOND);
    WrapInRange(Round(q) * MILLISECOND);
    assert x >= ROUNDING_LIMIT as real ==> Round(p) >= 9_223_372_036_855;
    assert y < ROUNDING_LIMIT as real ==> Round(q) < 9_223_372_036_855;
    hide RoundToMillisecond, Round;
    RoundedIs(x);
    RoundedIs(y);
  }

  lemma RoundedIs(x: real)
    ensures RoundToMillisecond(x) == Wrap64(Round(x / 1_000_000.0) * MILLISECOND)
  {
  }

  /** In doubles the limit is blurred by under 1489 nanoseconds either way: `stored` is a
      64-bit count converted to a double, half of 1024 off at most, and `quotient` its division
      by a million, half of 2^-9 off at most. */
  lemma {:induction false} RoundingLimitInDoubles(x: real, stored: real, quotient: real)
    requires 0.0 <= x <= MAX_INT64 as real
    requires x - 512.0 <= stored <= x + 512.0
    requires stored / 1_000_000.0 - 1.0 / 1024.0 <= quotient <= stored / 1_000_000.0 + 1.0 / 1024.0
    requires quotient >= 0.0
    ensures var wait := Wrap64(Round(quotient) * MILLISECOND);
      && (x < ROUNDING_LIMIT as real - 1489.0 ==> wait >= 0 && x - 501_489.0 <= wait as real <= x + 501_489.0)
      && (x >= ROUNDING_LIMIT as real + 1489.0 ==> wait < 0)
  {
    var n := Round(quotient);
    FloorBounds(quotient + 0.5);
    assert n as real <= quotient + 0.5 < n as real + 1.0;
    var q := stored / 1_000_000.0;
    assert q * 1_000_000.0 == stored;
    assert quotient * 1_000_000.0 <= stored + 977.0 && quotient * 1_000_000.0 >= stored - 977.0;
    hide Wrap64, Round;
    WrapInRange(n * MILLISECOND);
  }

  // Backoff.

  lemma {:induction false} PowGrows(base: real, n: nat)
    requires base >= 1.0
    ensures 1.0 <= Pow(base, n) <= Pow(base, n + 1)
  {
    if n > 0 {
      PowGrows(base, n - 1);
      assert base * Pow(base, n - 1) >= Pow(base, n - 1);
    }
    assert base * Pow(base, n) >= Pow(base, n);
  }

  lemma CappedBounds(policy: RetryPolicy, attempt: nat)
    requires Sound(policy) && attempt >= 1
    ensures 0.0 <= Capped(policy, attempt) <= policy.maxDelay as real
    ensures Capped(policy, attempt) <= Capped(policy, attempt + 1)
  {
    PowGrows(policy.backoffFactor, attempt - 1);
    var initial := policy.initialDelay as real;
    var p, q := Pow(policy.backoffFactor, attempt - 1), Pow(policy.backoffFactor, attempt);
    var step := q - p;
    ProductIsNonNegative(initial, p);
    ProductIsNonNegative(initial, step);
    assert initial * p + initial * step == initial * (p + step) == initial * q;
  }

  function Lesser(x: real, y: real): real {
    if x <= y then x else y
  }

  /** The first backoff is InitialDelay and each next one the backoff factor times the last, none
      more than MaxDelay. */
  lemma {:induction false} BackoffGrowsByTheFactor(policy: RetryPolicy, attempt: nat)
    requires Sound(policy) && attempt >= 1
    ensures Capped(policy, 1) == Lesser(policy.initialDelay as real, policy.maxDelay as real)
    ensures Capped(policy, attempt + 1) ==
      Lesser(policy.backoffFactor * Capped(policy, attempt), policy.maxDelay as real)
  {
    FirstBackoff(policy);
    NextBackoff(policy, attempt);
    hide Capped;
  }

  lemma NextBackoff(policy: RetryPolicy, attempt: nat)
    requires Sound(policy) && attempt >= 1
    ensures Capped(policy, attempt + 1) ==
      Lesser(Scale(Capped(policy, attempt), policy.backoffFactor), policy.maxDelay as real)
  {
    assert policy.maxDelay >= 0 && policy.backoffFactor >= 1.0;
    hide *;
    UncappedGrows(policy, attempt);
    CappedIs(policy, attempt);
    CappedIs(policy, attempt + 1);
    CappingCommutes(policy.backoffFactor, Uncapped(policy, attempt), policy.maxDelay as real);
  }

  /** The default policy retries twice, after at most half a second and then at most a second; only
      a fifth retry would reach its cap of eight seconds. */
  lemma DefaultBackoffs()
    ensures Sound(DEFAULT_POLICY) && DEFAULT_POLICY.maxRetries == 2 && DEFAULT_POLICY.jitter
    ensures Capped(DEFAULT_POLICY, 1) == 500_000_000.0 && Capped(DEFAULT_POLICY, 2) == 1_000_000_000.0
    ensures Capped(DEFAULT_POLICY, 4) == 4_000_000_000.0
    ensures Capped(DEFAULT_POLICY, 5) == Capped(DEFAULT_POLICY, 6) == 8_000_000_000.0
  {
    BackoffGrowsByTheFactor(DEFAULT_POLICY, 1);
    BackoffGrowsByTheFactor(DEFAULT_POLICY, 2);
    BackoffGrowsByTheFactor(DEFAULT_POLICY, 3);
    BackoffGrowsByTheFactor(DEFAULT_POLICY, 4);
    BackoffGrowsByTheFactor(DEFAULT_POLICY, 5);
    hide Capped;
  }

  /** Jitter takes the drawn share of the capped backoff. */
  lemma JitterTakesItsShare(policy: RetryPolicy, attempt: nat, random: real)
    requires attempt >= 1
    ensures Backoff(policy, attempt, random) ==
      if policy.jitter then Capped(policy, attempt) * random else Capped(policy, attempt)
  {
    hide Capped;
  }

  function Uncapped(policy: RetryPolicy, attempt: nat): real
    requires attempt >= 1
  {
    policy.initialDelay as real * Pow(policy.backoffFactor, attempt - 1)
  }

  lemma CappedIs(policy: RetryPolicy, attempt: nat)
    requires attempt >= 1
    ensures Capped(policy, attempt) == Lesser(Uncapped(policy, attempt), policy.maxDelay as real)
  {
  }

  lemma FirstBackoff(policy: RetryPolicy)
    ensures Capped(policy, 1) == Lesser(policy.initialDelay as real, policy.maxDelay as real)
  {
    assert Pow(policy.backoffFactor, 0) == 1.0;
  }

  lemma UncappedGrows(policy: RetryPolicy, attempt: nat)
    requires Sound(policy) && attempt >= 1
    ensures Uncapped(policy, attempt) >= 0.0
    ensures Uncapped(policy, attempt + 1) == Scale(Uncapped(policy, attempt), policy.backoffFactor)
  {
    var p := Pow(policy.backoffFactor, attempt - 1);
    PowGrows(policy.backoffFactor, attempt - 1);
    ProductIsNonNegative(policy.initialDelay as real, p);
    Reordered(policy.initialDelay as real, policy.backoffFactor, p);
    assert Pow(policy.backoffFactor, attempt + 1 - 1) == policy.backoffFactor * p;
  }

  lemma Reordered(x: real, y: real, z: real)
    ensures x * (y * z) == y * (x * z)
  {
  }

  lemma CappingCommutes(factor: real, x: real, cap: real)
    requires factor >= 1.0 && x >= 0.0 && cap >= 0.0
    ensures Lesser(Scale(Lesser(x, cap), factor), cap) == Lesser(Scale(x, factor), cap)
  {
    FactorGrows(factor, cap);
    FactorGrows(factor, x);
  }

  lemma FactorGrows(factor: real, x: real)
    requires factor >= 1.0 && x >= 0.0
    ensures factor * x >= x
  {
    var more := factor - 1.0;
    ProductIsNonNegative(more, x);
    assert (1.0 + more) * x == x + more * x;
  }

  lemma ProductIsNonNegative(x: real, y: real)
    requires x >= 0.0 && y >= 0.0
    ensures x * y >= 0.0
  {
  }

  lemma Scaled(x: real, factor: real)
    requires 0.0 <= x && 0.0 <= factor < 1.0
    ensures 0.0 <= Scale(x, factor) <= x
  {
    var spared := 1.0 - factor;
    ProductIsNonNegative(x, factor);
    ProductIsNonNegative(x, spared);
    assert x * factor + x * spared == x * (factor + spared);
  }

  lemma BackoffBounds(policy: RetryPolicy, attempt: nat, random: real)
    requires Sound(policy) && attempt >= 1 && 0.0 <= random < 1.0
    ensures 0.0 <= Backoff(policy, attempt, random) <= policy.maxDelay as real
  {
    CappedBounds(policy, attempt);
    hide Capped, Scale;
    Scaled(Capped(policy, attempt), random);
  }

  /** A delay that does not come from Retry-After lies between zero and the rounded cap exactly
      when the cap is below the rounding limit. */
  lemma {:induction false} BackoffStaysUnderCap(attempt: nat, policy: RetryPolicy, retryAfter: Option<Duration>,
                                                random: real)
    requires Sound(policy) && attempt >= 1 && 0.0 <= random < 1.0 && !Honoured(policy, retryAfter)
    ensures 0 <= RetryDelay(attempt, policy, retryAfter, random) <= RoundToMillisecond(policy.maxDelay as real) <==>
      policy.maxDelay < ROUNDING_LIMIT
  {
    hide RoundToMillisecond, Backoff;
    BackoffBounds(policy, attempt, random);
    RoundingLimit(Backoff(policy, attempt, random));
    RoundingLimit(policy.maxDelay as real);
    RoundingIsMonotone(Backoff(policy, attempt, random), policy.maxDelay as real);
  }

  /** Without jitter the delay grows, or stays, from one attempt to the next exactly when the
      capped backoff does not cross the rounding limit between them. */
  lemma {:induction false} BackoffNeverShrinks(attempt: nat, policy: RetryPolicy, retryAfter: Option<Duration>,
                                               r: real, s: real)
    requires Sound(policy) && !policy.jitter && attempt >= 1 && !Honoured(policy, retryAfter)
    ensures RetryDelay(attempt, policy, retryAfter, r) <= RetryDelay(attempt + 1, policy, retryAfter, s) <==>
      Capped(policy, attempt) >= ROUNDING_LIMIT as real || Capped(policy, attempt + 1) < ROUNDING_LIMIT as real
  {
    hide RoundToMillisecond, Capped;
    CappedBounds(policy, attempt);
    CappedBounds(policy, attempt + 1);
    RoundingIsMonotone(Capped(policy, attempt), Capped(policy, attempt + 1));
  }

  /** An attempt's delay is a wait at all exactly when its backoff, after jitter, is below the
      limit; otherwise it is negative and there is none. */
  lemma {:induction false} BackoffWrapsExactlyFromLimit(attempt: nat, policy: RetryPolicy,
                                                        retryAfter: Option<Duration>, random: real)
    requires Sound(policy) && attempt >= 1 && 0.0 <= random < 1.0 && !Honoured(policy, retryAfter)
    ensures RetryDelay(attempt, policy, retryAfter, random) >= 0 <==>
      Backoff(policy, attempt, random) < ROUNDING_LIMIT as real
    ensures !policy.jitter ==> Backoff(policy, attempt, random) == Capped(policy, attempt)
  {
    hide RoundToMillisecond, Capped, Scale;
    BackoffBounds(policy, attempt, random);
    RoundingLimit(Backoff(policy, attempt, random));
  }

  /** MaxDelay caps every delay, to within the rounding, for every accepted policy; and the delay
      is a wait exactly when its backoff, after jitter, is below the limit. */
  lemma {:induction false} BackoffKeepsMaxDelay(attempt: nat, policy: RetryPolicy, retryAfter: Option<Duration>,
                                                random: real)
    requires Sound(policy) && attempt >= 1 && 0.0 <= random < 1.0 && !Honoured(policy, retryAfter)
    ensures var delay := RetryDelay(attempt, policy, retryAfter, random);
      && delay <= policy.maxDelay + 500_000
      && (0 <= delay <= policy.maxDelay + 500_000 <==> Backoff(policy, attempt, random) < ROUNDING_LIMIT as real)
  {
    BackoffWrapsExactlyFromLimit(attempt, policy, retryAfter, random);
    hide RoundToMillisecond, Backoff;
    BackoffBounds(policy, attempt, random);
    RoundingLimit(Backoff(policy, attempt, random));
  }

  /** "No cap", written as the largest duration, is kept as long as the backoff is moderate. */
  lemma UncappedPolicyWaits(random: real)
    ensures var policy := RetryPolicy(2, 500_000_000, MAX_INT64, 2.0, false, [503], true);
      Sound(policy) && policy.maxDelay >= ROUNDING_LIMIT && RetryDelay(1, policy, None, random) == 500_000_000
  {
    var policy := RetryPolicy(2, 500_000_000, MAX_INT64, 2.0, false, [503], true);
    assert Pow(2.0, 0) == 1.0;
    assert Capped(policy, 1) == 500_000_000.0;
    FloorBounds(500.0 + 0.5);
    assert Round(500.0) == 500;
    WrapInRange(500 * MILLISECOND);
  }

  /** And a backoff that long is no wait at all. */
  lemma LongestBackoffIsNoWait(random: real)
    ensures var policy := RetryPolicy(2, MAX_INT64, MAX_INT64, 2.0, false, [503], true);
      Sound(policy) && RetryDelay(1, policy, None, random) == -9_223_372_036_854_551_616
  {
    var policy := RetryPolicy(2, MAX_INT64, MAX_INT64, 2.0, false, [503], true);
    assert Pow(2.0, 0) == 1.0;
    assert Capped(policy, 1) == MAX_INT64 as real;
    LongestRetryAfterIsNoWait(policy, random);
  }

  lemma {:induction false} CappedGrows(policy: RetryPolicy, a: nat, b: nat)
    requires Sound(policy) && 1 <= a <= b
    ensures Capped(policy, a) <= Capped(policy, b)
    decreases b
  {
    if a < b {
      CappedGrows(policy, a, b - 1);
      CappedBounds(policy, b - 1);
    }
  }

  ghost predicate AlwaysWaits(attempt: nat, policy: RetryPolicy, retryAfter: Option<Duration>)
    requires attempt >= 1
  {
    forall random :: 0.0 <= random < 1.0 ==> RetryDelay(attempt, policy, retryAfter, random) >= 0
  }

  /** With jitter every draw gives a wait exactly when the capped backoff is at most the limit:
      above it, some draw lands on the limit. */
  lemma {:induction false} JitteredBackoffAlwaysWaits(attempt: nat, policy: RetryPolicy, retryAfter: Option<Duration>)
    requires Sound(policy) && policy.jitter && attempt >= 1 && !Honoured(policy, retryAfter)
    ensures AlwaysWaits(attempt, policy, retryAfter) <==> Capped(policy, attempt) <= ROUNDING_LIMIT as real
  {
    var capped, limit := Capped(policy, attempt), ROUNDING_LIMIT as real;
    CappedBounds(policy, attempt);
    hide RetryDelay, Capped, Scale;
    if capped <= limit {
      forall random: real | 0.0 <= random < 1.0 ensures RetryDelay(attempt, policy, retryAfter, random) >= 0 {
        ScaledBelow(capped, random, limit);
        BackoffWrapsExactlyFromLimit(attempt, policy, retryAfter, random);
      }
    } else {
      var random := limit / capped;
      ScaledToLimit(capped, limit);
      BackoffWrapsExactlyFromLimit(attempt, policy, retryAfter, random);
      assert RetryDelay(attempt, policy, retryAfter, random) < 0;
    }
  }

  lemma ScaledBelow(x: real, factor: real, limit: real)
    requires 0.0 <= x <= limit && 0.0 < limit && 0.0 <= factor < 1.0
    ensures Scale(x, factor) < limit
  {
    if x > 0.0 {
      ScalingShrinks(x, factor);
    }
  }

  lemma ScalingShrinks(x: real, factor: real)
    requires x > 0.0
    ensures Scale(x, factor) < x <==> factor < 1.0
  {
    var spared := 1.0 - factor;
    assert x * factor + x * spared == x * (factor + spared) == x;
    SignOfProduct(x, spared);
  }

  lemma SignOfProduct(x: real, y: real)
    requires x > 0.0
    ensures x * y > 0.0 <==> y > 0.0
  {
  }

  lemma ScaledToLimit(x: real, limit: real)
    requires 0.0 < limit < x
    ensures 0.0 < limit / x < 1.0 && Scale(x, limit / x) == limit
  {
    var factor := limit / x;
    assert x * factor == limit;
    ScalingShrinks(x, factor);
    SignOfProduct(x, factor);
  }

  // Retry-After.

  /** What a Retry-After header can hold, once read. */
  datatype Header = Missing | Seconds(seconds: real) | NotFinite | HttpDate(at: int) | Unreadable

  const MAX_SECONDS: real := 9_223_372_036_854_775_808.0 / 1_000_000_000.0

  function Saturate(n: int): Duration {
    if n > MAX_INT64 then MAX_INT64 else if n < -0x8000_0000_0000_0000 then -0x8000_0000_0000_0000 else n
  }

  function TruncatedNanoseconds(seconds: real): (n: Duration)
    requires 0.0 <= seconds < MAX_SECONDS
    ensures n >= 0 && n as real <= seconds * 1_000_000_000.0 < n as real + 1.0
  {
    FloorBounds(seconds * 1_000_000_000.0);
    assert seconds * 1_000_000_000.0 < 9_223_372_036_854_775_808.0;
    (seconds * 1_000_000_000.0).Floor
  }

  /** `readRetryAfter` */
  function ReadRetryAfter(header: Header, now: int): Option<Duration> {
    match header
    case Missing => None
    case NotFinite => None
    case Unreadable => None
    case Seconds(seconds) =>
      if seconds < 0.0 then None
      else if seconds < MAX_SECONDS then Some(TruncatedNanoseconds(seconds))
      else Some(MAX_INT64)
    case HttpDate(at) =>
      var until := Saturate(at - now);
      Some(if until > 0 then until else 0)
  }

  /** A header is usable exactly when it is a non-negative number of seconds or a date, and
      then never asks for a negative wait; a date asks for the time until it. */
  lemma UsableHeaders(header: Header, now: int)
    ensures ReadRetryAfter(header, now).Some? <==> (header.Seconds? && header.seconds >= 0.0) || header.HttpDate?
    ensures ReadRetryAfter(header, now).Some? ==> ReadRetryAfter(header, now).value >= 0
    ensures header.HttpDate? && header.at <= now ==> ReadRetryAfter(header, now) == Some(0)
    ensures header.HttpDate? && now < header.at <= now + MAX_INT64 ==>
      ReadRetryAfter(header, now) == Some(header.at - now)
  {
  }

  /** An honoured Retry-After is waited to within half a millisecond, even above MaxDelay,
      exactly when it is below the limit; from there on the wait is negative. */
  lemma {:induction false} RetryAfterIsHonoured(attempt: nat, policy: RetryPolicy, retryAfter: Option<Duration>,
                                                random: real)
    requires attempt >= 1 && policy.respectRetryAfter && retryAfter.Some? && retryAfter.value >= 0
    ensures var wait := RetryDelay(attempt, policy, retryAfter, random);
      (wait >= 0 <==> retryAfter.value < ROUNDING_LIMIT) &&
      (retryAfter.value < ROUNDING_LIMIT ==> retryAfter.value - 500_000 <= wait <= retryAfter.value + 500_000)
  {
    RoundingLimit(retryAfter.value as real);
  }

  /** A Retry-After that is not respected, or not usable, makes no difference. */
  lemma OtherRetryAfterIsIgnored(attempt: nat, policy: RetryPolicy, retryAfter: Option<Duration>, random: real)
    requires attempt >= 1 && !(policy.respectRetryAfter && retryAfter.Some? && retryAfter.value >= 0)
    ensures RetryDelay(attempt, policy, retryAfter, random) == RetryDelay(attempt, policy, None, random)
  {
  }

  /** From a date to the wait: none once it has passed, and until then to within the rounding,
      exactly below the limit. */
  lemma {:induction false} ServerDateIsWaited(attempt: nat, policy: RetryPolicy, at: int, now: int, random: real)
    requires attempt >= 1 && policy.respectRetryAfter
    ensures var wait := RetryDelay(attempt, policy, ReadRetryAfter(HttpDate(at), now), random);
      if at <= now then wait == 0
      else if at - now < ROUNDING_LIMIT then at - now - 500_000 <= wait <= at - now + 500_000 && wait >= 0
      else wait < 0
  {
    RetryAfterIsHonoured(attempt, policy, ReadRetryAfter(HttpDate(at), now), random);
    assert Round(0.0) == 0;
    RoundsToNearest(0.0);
  }

  /** The longest Retry-After there is asks for no wait. */
  lemma LongestRetryAfterIsNoWait(policy: RetryPolicy, random: real)
    requires policy.respectRetryAfter
    ensures RetryDelay(1, policy, Some(MAX_INT64), random) == -9_223_372_036_854_551_616
  {
    FloorBounds(MAX_INT64 as real / 1_000_000.0 + 0.5);
    assert Round(MAX_INT64 as real / 1_000_000.0) == 9_223_372_036_855;
    WrapInRange(9_223_372_036_855 * MILLISECOND);
  }

  /** From the header to the wait: a server asking for `seconds` is given them, to within the
      rounding; asking for 9223372036.8545 seconds or more gets no wait at all. */
  lemma {:induction false} ServerSecondsAreWaited(attempt: nat, policy: RetryPolicy, seconds: real, now: int,
                                                  random: real)
    requires attempt >= 1 && policy.respectRetryAfter && seconds >= 0.0
    ensures var wait := RetryDelay(attempt, policy, ReadRetryAfter(Seconds(seconds), now), random);
      if seconds * 1_000_000_000.0 < ROUNDING_LIMIT as real
      then seconds * 1_000_000_000.0 - 500_001.0 <= wait as real <= seconds * 1_000_000_000.0 + 500_000.0 && wait >= 0
      else wait < 0
  {
    UsableHeaders(Seconds(seconds), now);
    var asked := ReadRetryAfter(Seconds(seconds), now);
    RetryAfterIsHonoured(attempt, policy, asked, random);
    if seconds >= MAX_SECONDS {
      assert seconds * 1_000_000_000.0 >= 9_223_372_036_854_775_808.0;
    }
  }

  /** Seconds parsed from text into a double, half of 2^-19 off at most below 2^34 seconds. */
  predicate ParsedSeconds(seconds: real, parsed: real) {
    && (seconds < 17_179_869_184.0 ==> seconds - 1.0 / 1_048_576.0 <= parsed <= seconds + 1.0 / 1_048_576.0)
    && (seconds >= 17_179_869_184.0 ==> parsed >= 17_179_869_184.0)
  }

  /** The duration made of parsed seconds in doubles: the longest one from a threshold on that is
      the double nearest to 2^63 nanoseconds, and below it a product half of 1024 off at most,
      truncated. */
  predicate AskedInDoubles(parsed: real, threshold: real, product: real, asked: Duration) {
    && MAX_SECONDS - 1.0 / 1_048_576.0 <= threshold <= MAX_SECONDS + 1.0 / 1_048_576.0
    && parsed * 1_000_000_000.0 - 512.0 <= product <= parsed * 1_000_000_000.0 + 512.0
    && if parsed < threshold then 0 <= asked && asked as real <= product < asked as real + 1.0
       else asked == MAX_INT64
  }

  /** In doubles the same, blurred by under 2956 nanoseconds, for every number of seconds. */
  lemma {:induction false} ServerSecondsInDoubles(seconds: real, parsed: real, threshold: real, product: real,
                                                  asked: Duration, stored: real, quotient: real)
    requires seconds >= 0.0 && ParsedSeconds(seconds, parsed)
    requires AskedInDoubles(parsed, threshold, product, asked)
    requires asked as real - 512.0 <= stored <= asked as real + 512.0
    requires stored / 1_000_000.0 - 1.0 / 1024.0 <= quotient <= stored / 1_000_000.0 + 1.0 / 1024.0
    requires quotient >= 0.0
    ensures var wait, exact := Wrap64(Round(quotient) * MILLISECOND), seconds * 1_000_000_000.0;
      && (exact < ROUNDING_LIMIT as real - 2956.0 ==>
        wait >= 0 && exact - 502_956.0 <= wait as real <= exact + 502_956.0)
      && (exact >= ROUNDING_LIMIT as real + 2956.0 ==> wait < 0)
  {
    hide Wrap64, Round;
    RoundingLimitInDoubles(asked as real, stored, quotient);
  }

  // Options: only validated settings reach a call.

  /** An option as the caller asks for it. */
  datatype Request =
    | Nothing
    | Timeout(timeout: Duration)
    | Policy(policy: RetryPolicy)
    | MaxRetries(retries: int)
    | ExtraHeader(valid: bool)
    | Dedupe

  datatype Settings = Settings(timeout: Duration, retry: RetryPolicy, dedupe: bool)

  /** What an option's constructor finds wrong with it. */
  function Rejection(request: Request): Option<Problem> {
    match request
    case Timeout(timeout) => if timeout <= 0 then Some(BadTimeout) else None
    case Policy(policy) => ProblemOf(policy)
    case MaxRetries(retries) => if retries < 0 then Some(NegativeMaxRetries) else None
    case ExtraHeader(valid) => if valid then None else Some(BadHeader)
    case _ => None
  }

  function ApplyOption(settings: Settings, request: Request): Settings {
    match request
    case Timeout(timeout) => settings.(timeout := timeout)
    case Policy(policy) => settings.(retry := policy)
    case MaxRetries(retries) => settings.(retry := settings.retry.(maxRetries := retries))
    case Dedupe => settings.(dedupe := true)
    case _ => settings
  }

  function ApplyOptions(settings: Settings, requests: seq<Request>): Settings {
    if requests == [] then settings
    else ApplyOption(ApplyOptions(settings, requests[..|requests| - 1]), requests[|requests| - 1])
  }

  predicate Usable(settings: Settings) {
    settings.timeout > 0 && Sound(settings.retry)
  }

  datatype Resolved = Ready(settings: Settings) | Refused(problem: Problem)

  predicate FirstRejected(requests: seq<Request>, i: nat, problem: Problem) {
    i < |requests| && Rejection(requests[i]) == Some(problem) &&
    forall j :: 0 <= j < i ==> Rejection(requests[j]) == None
  }

  /** `requestSettings`: applies a call's options in order and stops at the first bad one. */
  method RequestSettings(client: Settings, requests: seq<Request>) returns (r: Resolved)
    requires Usable(client)
    ensures r.Ready? <==> forall i :: 0 <= i < |requests| ==> Rejection(requests[i]) == None
    ensures r.Ready? ==> r.settings == ApplyOptions(client, requests) && Usable(r.settings)
    ensures r.Refused? ==> exists i :: FirstRejected(requests, i, r.problem)
  {
    var settings := client;
    for i := 0 to |requests|
      invariant settings == ApplyOptions(client, requests[..i]) && Usable(settings)
      invariant forall j :: 0 <= j < i ==> Rejection(requests[j]) == None
    {
      var rejection := Rejection(requests[i]);
      if rejection.Some? {
        assert FirstRejected(requests, i, rejection.value);
        return Refused(rejection.value);
      }
      assert requests[..i + 1][..i] == requests[..i];
      settings := ApplyOption(settings, requests[i]);
    }
    assert requests[..|requests|] == requests;
    return Ready(settings);
  }

  /** Whether de-duplication is on depends only on whether it was asked for. */
  lemma {:induction false} DedupeOnlyWhenAsked(client: Settings, requests: seq<Request>)
    ensures ApplyOptions(client, requests).dedupe <==> client.dedupe || Dedupe in requests
  {
    if requests != [] {
      var front := requests[..|requests| - 1];
      DedupeOnlyWhenAsked(client, front);
      assert requests == front + [requests[|requests| - 1]];
    }
  }

  /** Each option is accepted exactly for the values it can take. */
  lemma RejectsExactly(request: Request)
    ensures Rejection(request) == None <==>
      match request
      case Timeout(timeout) => timeout > 0
      case Policy(policy) =>
        policy.maxRetries >= 0 && policy.initialDelay >= 0 && policy.maxDelay >= 0 && policy.backoffFactor >= 1.0
      case MaxRetries(retries) => retries >= 0
      case ExtraHeader(valid) => valid
      case _ => true
  {
  }

  predicate SetsRetry(request: Request) {
    request.Policy? || request.MaxRetries?
  }

  /** Options that do not set a part of the settings leave it as it was. */
  lemma {:induction false} UntouchedParts(client: Settings, requests: seq<Request>, i: nat)
    requires i <= |requests|
    ensures (forall j :: i <= j < |requests| ==> !requests[j].Timeout?) ==>
      ApplyOptions(client, requests).timeout == ApplyOptions(client, requests[..i]).timeout
    ensures (forall j :: i <= j < |requests| ==> !SetsRetry(requests[j])) ==>
      ApplyOptions(client, requests).retry == ApplyOptions(client, requests[..i]).retry
  {
    if i < |requests| {
      UntouchedParts(client, requests[..|requests| - 1], i);
      assert requests[..|requests| - 1][..i] == requests[..i];
    } else {
      assert requests[..i] == requests;
    }
  }

  /** Of several timeouts the last is used; without one, the client's. */
  lemma {:induction false} LastTimeoutIsUsed(client: Settings, requests: seq<Request>, i: nat)
    requires i <= |requests| && forall j :: i <= j < |requests| ==> !requests[j].Timeout?
    ensures i == 0 ==> ApplyOptions(client, requests).timeout == client.timeout
    ensures i > 0 && requests[i - 1].Timeout? ==> ApplyOptions(client, requests).timeout == requests[i - 1].timeout
  {
    UntouchedParts(client, requests, i);
    if i > 0 {
      assert requests[..i][..i - 1] == requests[..i - 1];
    }
  }

  /** Of several policies the last is used, and a number of retries changes only that number of
      the policy it comes after; without either, the client's policy is used. */
  lemma {:induction false} LastPolicyIsUsed(client: Settings, requests: seq<Request>, i: nat)
    requires i <= |requests| && forall j :: i <= j < |requests| ==> !SetsRetry(requests[j])
    ensures i == 0 ==> ApplyOptions(client, requests).retry == client.retry
    ensures i > 0 && requests[i - 1].Policy? ==> ApplyOptions(client, requests).retry == requests[i - 1].policy
    ensures i > 0 && requests[i - 1].MaxRetries? ==>
      ApplyOptions(client, requests).retry ==
        ApplyOptions(client, requests[..i - 1]).retry.(maxRetries := requests[i - 1].retries)
  {
    UntouchedParts(client, requests, i);
    if i > 0 {
      assert requests[..i][..i - 1] == requests[..i - 1];
    }
  }
}
