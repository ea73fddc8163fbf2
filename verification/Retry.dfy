/** The retry engine: when a request is repeated, after how long, and the loop of
    `RequestBuilder::send` that repeats it.

    A duration is an exact number of seconds. The conversion of a float to a
    duration is not total: it panics on a value that does not fit 64 bits of
    seconds, and the schedule converts before it caps.
 */
module Retry {
  import opened Client

  type Seconds = real

  const U32 := 0x1_0000_0000
  const MAX_SECONDS := 0x1_0000_0000_0000_0000 as real

  // ---- Schedules ---------------------------------------------------------

  datatype Backoff =
    | Fixed(delay: Seconds)
    | Exponential(initial: Seconds, multiplier: real, max: Seconds)

  datatype Delay = Wait(secs: Seconds) | Panics

  function Power(base: real, n: nat): real {
    if n == 0 then 1.0 else base * Power(base, n - 1)
  }

  /** `attempt.saturating_sub(1) as i32`, wrapping where the cast does. */
  function Exponent(attempt: nat): int
    requires attempt < U32
  {
    var n := if attempt == 0 then 0 else attempt - 1;
    if n < U32 / 2 then n else n - U32
  }

  /** `base.powi(n)`; `None` where the float is infinite. */
  function Powi(base: real, n: int): Option<real> {
    if n >= 0 then Some(Power(base, n))
    else if Power(base, -n) == 0.0 then None
    else Some(1.0 / Power(base, -n))
  }

  function Min(a: real, b: real): real {
    if a <= b then a else b
  }

  /** The delay that follows attempt number `attempt`. */
  function DelayAfter(backoff: Backoff, attempt: nat): Delay
    requires attempt < U32
  {
    match backoff
    case Fixed(delay) => Wait(delay)
    case Exponential(initial, multiplier, max) =>
      match Powi(multiplier, Exponent(attempt))
      case None => Panics
      case Some(factor) =>
        var scaled := initial * factor;
        if 0.0 <= scaled < MAX_SECONDS then Wait(Min(scaled, max)) else Panics
  }

  // ---- Policies ----------------------------------------------------------

  type Predicate = Outcome -> bool

  datatype Policy = Policy(
    maxAttempts: Option<nat>, deadline: Option<Seconds>, backoff: Backoff, retryIf: Predicate)
  {
    /** What the fields of the source's types can hold. */
    ghost predicate Typed() {
      && (maxAttempts.Some? ==> maxAttempts.value < U32)
      && (backoff.Fixed? ==> backoff.delay >= 0.0)
      && (backoff.Exponential? ==> backoff.initial >= 0.0 && backoff.max >= 0.0)
    }
  }

  function Transient(outcome: Outcome): bool {
    match outcome
    case Err(Transport) => true
    case Ok(response) => response.IsServerError()
    case _ => false
  }

  const BUILT_IN := Exponential(0.1, 2.0, 1.0)

  function NoRetry(): Policy {
    Policy(Some(1), None, Fixed(0.0), _ => false)
  }

  function Attempts(max: nat): Policy {
    Policy(Some(if max < 1 then 1 else max), None, BUILT_IN, Transient)
  }

  function Deadline(deadline: Seconds): Policy {
    Policy(None, Some(deadline), BUILT_IN, Transient)
  }

  datatype Decision = Stop | Retry(secs: Seconds) | Crash

  /** Whether another attempt follows, and after how long. The delay is computed
      before the deadline is looked at. */
  function NextDelay(policy: Policy, outcome: Outcome, attempt: nat, elapsed: Seconds): Decision
    requires attempt < U32
  {
    if !policy.retryIf(outcome) then Stop
    else if policy.maxAttempts.Some? && attempt >= policy.maxAttempts.value then Stop
    else
      match DelayAfter(policy.backoff, attempt)
      case Panics => Crash
      case Wait(delay) =>
        if policy.deadline.Some? && elapsed + delay >= policy.deadline.value then Stop
        else Retry(delay)
  }

  // ---- The send loop -----------------------------------------------------

  /** One attempt as the loop meets it: what it came back with, and how long after
      the start of the call the loop then read the clock. */
  datatype Try = Try(outcome: Outcome, elapsed: Seconds)

  /** How a call stands once the attempts of a script are used up. */
  datatype Sent =
    | Returned(outcome: Outcome, attempts: nat)
    | Panicked(attempts: nat)
    | StillTrying

  function AttemptNumber(k: nat): nat {
    (k + 1) % U32
  }

  function DecisionAt(policy: Policy, script: seq<Try>, k: nat): Decision
    requires k < |script|
  {
    NextDelay(policy, script[k].outcome, AttemptNumber(k), script[k].elapsed)
  }

  /** The call goes on past each of the first `n` attempts. */
  predicate RetriesThrough(policy: Policy, script: seq<Try>, n: nat)
    requires n <= |script|
  {
    forall k | 0 <= k < n :: DecisionAt(policy, script, k).Retry?
  }

  /** Time passes: an attempt does not end before the sleep that precedes it does. */
  ghost predicate Timely(policy: Policy, script: seq<Try>) {
    && (|script| > 0 ==> script[0].elapsed >= 0.0)
    && forall k | 0 < k < |script| ::
        script[k].elapsed >= script[k - 1].elapsed + SleepAfter(policy, script, k - 1)
  }

  function SleepAfter(policy: Policy, script: seq<Try>, k: nat): Seconds
    requires k < |script|
  {
    match DecisionAt(policy, script, k)
    case Retry(secs) => secs
    case _ => 0.0
  }

  /** The whole of what the call sleeps after its first `n` attempts. */
  function Slept(policy: Policy, script: seq<Try>, n: nat): Seconds
    requires n <= |script|
  {
    if n == 0 then 0.0 else Slept(policy, script, n - 1) + SleepAfter(policy, script, n - 1)
  }

  lemma FirstNumber()
    ensures AttemptNumber(0) == 1
  {
  }

  lemma NextNumber(k: nat)
    ensures AttemptNumber(k) < U32
    ensures AttemptNumber(k + 1) == (AttemptNumber(k) + 1) % U32
    ensures k + 1 < U32 ==> AttemptNumber(k) == k + 1
  {
  }

  lemma DecidedBy(policy: Policy, script: seq<Try>, k: nat)
    requires k < |script| && AttemptNumber(k) < U32
    ensures DecisionAt(policy, script, k)
         == NextDelay(policy, script[k].outcome, AttemptNumber(k), script[k].elapsed)
    ensures DecisionAt(policy, script, k).Retry? ==>
      SleepAfter(policy, script, k) == DecisionAt(policy, script, k).secs
  {
  }

  /** `RequestBuilder::send`, for as many attempts as the script holds. The counter
      is 32 bits wide; the call sleeps and goes round until a decision ends it. */
  method Send(policy: Policy, body: Option<RequestError>, script: seq<Try>)
    returns (sent: Sent, slept: Seconds)
    requires body.None? ==> |script| > 0
    ensures body.Some? ==> sent == Returned(Err(body.value), 0) && slept == 0.0
    ensures body.None? && sent.Returned? ==>
      && 1 <= sent.attempts <= |script|
      && RetriesThrough(policy, script, sent.attempts - 1)
      && DecisionAt(policy, script, sent.attempts - 1).Stop?
      && sent.outcome == script[sent.attempts - 1].outcome
      && slept == Slept(policy, script, sent.attempts - 1)
    ensures body.None? && sent.Panicked? ==>
      && 1 <= sent.attempts <= |script|
      && RetriesThrough(policy, script, sent.attempts - 1)
      && DecisionAt(policy, script, sent.attempts - 1).Crash?
    ensures body.None? && sent.StillTrying? ==> RetriesThrough(policy, script, |script|)
    ensures policy.Typed() && policy.maxAttempts.Some? && body.None? ==>
      if sent.StillTrying? then |script| < policy.maxAttempts.value
      else sent.attempts == 1 || sent.attempts <= policy.maxAttempts.value
  {
    hide DelayAfter, AttemptNumber, DecisionAt, SleepAfter;
    FirstNumber();
    slept := 0.0;
    if body.Some? {
      return Returned(Err(body.value), 0), slept;
    }
    var attempt := 1;
    ghost var k := 0;
    var rest := script;
    while rest != []
      invariant k <= |script| && rest == script[k..]
      invariant attempt == AttemptNumber(k)
      invariant RetriesThrough(policy, script, k)
      invariant slept == Slept(policy, script, k)
      invariant policy.Typed() && policy.maxAttempts.Some? ==> k == 0 || k < policy.maxAttempts.value
      decreases |rest|
    {
      var outcome, elapsed := rest[0].outcome, rest[0].elapsed;
      NextNumber(k);
      DecidedBy(policy, script, k);
      match NextDelay(policy, outcome, attempt, elapsed)
      case Stop => return Returned(outcome, |script| - |rest| + 1), slept;
      case Crash => return Panicked(|script| - |rest| + 1), slept;
      case Retry(delay) =>
        slept := slept + delay;
        attempt := (attempt + 1) % U32;
        rest := rest[1..];
        k := k + 1;
    }
    return StillTrying, slept;
  }

  // ---- Properties of the loop, for every policy --------------------------

  /** A policy with a ceiling never gets past it. */
  lemma {:induction false} CeilingEndsTheLoop(policy: Policy, script: seq<Try>, n: nat)
    requires policy.Typed() && policy.maxAttempts.Some?
    requires n <= |script| && RetriesThrough(policy, script, n)
    ensures n == 0 || n < policy.maxAttempts.value
  {
    if n > 0 {
      CeilingEndsTheLoop(policy, script, n - 1);
      assert DecisionAt(policy, script, n - 1).Retry?;
    }
  }

  /** Every repetition was asked for by the predicate, and fitted the deadline when
      it was decided. */
  lemma RetriesWereAllowed(policy: Policy, script: seq<Try>, n: nat, k: nat)
    requires n <= |script| && RetriesThrough(policy, script, n) && k < n
    ensures policy.retryIf(script[k].outcome)
    ensures policy.deadline.Some? ==>
      script[k].elapsed + SleepAfter(policy, script, k) < policy.deadline.value
    ensures DelayAfter(policy.backoff, AttemptNumber(k)) == Wait(SleepAfter(policy, script, k))
  {
    assert DecisionAt(policy, script, k).Retry?;
  }

  /** A call goes on past an attempt if and only if the predicate accepts its outcome, the
      ceiling is not reached, and the schedule has a delay that fits the deadline. */
  lemma RetriesExactly(policy: Policy, script: seq<Try>, k: nat)
    requires k < |script|
    ensures DecisionAt(policy, script, k).Retry? <==>
      && policy.retryIf(script[k].outcome)
      && (policy.maxAttempts.Some? ==> AttemptNumber(k) < policy.maxAttempts.value)
      && DelayAfter(policy.backoff, AttemptNumber(k)).Wait?
      && (policy.deadline.Some? ==>
          script[k].elapsed + DelayAfter(policy.backoff, AttemptNumber(k)).secs < policy.deadline.value)
  {
    hide DelayAfter;
  }

  /** A transport failure or a server error. */
  predicate IsFailure(outcome: Outcome) {
    outcome == Err(Transport) || (outcome.Ok? && 500 <= outcome.response.status < 600)
  }

  /** `attempts(max)`, while the schedule is defined: the call goes on past attempt `k + 1` if
      and only if that failed and fewer than `max` were made. */
  lemma AttemptsRetryExactly(max: nat, script: seq<Try>, k: nat)
    requires k < |script| && k < 68
    ensures DecisionAt(Attempts(max), script, k).Retry? <==> IsFailure(script[k].outcome) && k + 1 < max
  {
    RetriesExactly(Attempts(max), script, k);
    BuiltInSchedule(k + 1);
    hide DelayAfter;
  }

  /** However many failures there are, it makes at most `max` attempts, and one if `max` is
      none. */
  lemma AttemptsAreAtMost(max: nat, script: seq<Try>, n: nat)
    requires max < U32 && n <= |script| && RetriesThrough(Attempts(max), script, n)
    ensures n + 1 <= if max == 0 then 1 else max
  {
    CeilingEndsTheLoop(Attempts(max), script, n);
  }

  /** `deadline(d)`, while the schedule is defined: the call goes on past attempt `k + 1` if and
      only if that failed and the next delay still fits. */
  lemma DeadlineRetriesExactly(d: Seconds, script: seq<Try>, k: nat)
    requires k < |script| && k < 68
    ensures DecisionAt(Deadline(d), script, k).Retry? <==>
      IsFailure(script[k].outcome) && script[k].elapsed + Min(0.1 * Power(2.0, k), 1.0) < d
  {
    RetriesExactly(Deadline(d), script, k);
    BuiltInSchedule(k + 1);
    hide DelayAfter, Power, Min;
  }

  /** The built-in policies repeat transport failures and server errors alone - not a
      missing client, not a refusal - and the default policy repeats nothing. */
  lemma BuiltInsRetryFailuresOnly(policy: Policy, script: seq<Try>, n: nat, k: nat)
    requires policy == NoRetry() || (exists max :: policy == Attempts(max)) || (exists d :: policy == Deadline(d))
    requires n <= |script| && RetriesThrough(policy, script, n) && k < n
    ensures policy != NoRetry()
    ensures script[k].outcome == Err(Transport)
         || (script[k].outcome.Ok? && script[k].outcome.response.IsServerError())
  {
    RetriesWereAllowed(policy, script, n, k);
  }

  lemma {:induction false} SleptByThen(policy: Policy, script: seq<Try>, n: nat)
    requires n < |script| && Timely(policy, script)
    ensures Slept(policy, script, n) <= script[n].elapsed
  {
    if n > 0 {
      SleptByThen(policy, script, n - 1);
    }
  }

  /** All the sleeping of a call fits strictly inside its deadline. */
  lemma SleepsFitTheDeadline(policy: Policy, script: seq<Try>, n: nat)
    requires policy.deadline.Some? && Timely(policy, script)
    requires 0 < n <= |script| && RetriesThrough(policy, script, n)
    ensures Slept(policy, script, n) < policy.deadline.value
  {
    SleptByThen(policy, script, n - 1);
    RetriesWereAllowed(policy, script, n, n - 1);
  }

  lemma OneMore(a: real, b: real)
    ensures (a + 1.0) * b == a * b + b
  {
  }

  lemma {:induction false} SleptAtLeast(policy: Policy, script: seq<Try>, n: nat, least: real)
    requires n <= |script| && RetriesThrough(policy, script, n)
    requires forall k | 0 <= k < n :: SleepAfter(policy, script, k) >= least
    ensures Slept(policy, script, n) >= n as real * least
  {
    hide DecisionAt, SleepAfter;
    if n > 0 {
      SleptAtLeast(policy, script, n - 1, least);
      OneMore((n - 1) as real, least);
    }
  }

  /** A deadline alone ends the loop when no delay is shorter than some `least`. */
  lemma DeadlineEndsTheLoop(policy: Policy, script: seq<Try>, n: nat, least: real)
    requires policy.deadline.Some? && Timely(policy, script) && least > 0.0
    requires 0 < n <= |script| && RetriesThrough(policy, script, n)
    requires forall a: nat | a < U32 ::
      DelayAfter(policy.backoff, a).Wait? ==> DelayAfter(policy.backoff, a).secs >= least
    ensures n as real * least < policy.deadline.value
  {
    forall k | 0 <= k < n ensures SleepAfter(policy, script, k) >= least {
      RetriesWereAllowed(policy, script, n, k);
    }
    SleptAtLeast(policy, script, n, least);
    SleepsFitTheDeadline(policy, script, n);
  }

  // ---- Every schedule ----------------------------------------------------

  /** A fixed schedule always has its one delay. */
  lemma FixedIsFixed(delay: Seconds, attempt: nat)
    requires attempt < U32
    ensures DelayAfter(Fixed(delay), attempt) == Wait(delay)
  {
  }

  /** The delay that follows `secs` in a schedule: multiplied, and cut to the cap. */
  function Grown(secs: Seconds, multiplier: real, max: Seconds): Seconds {
    Min(secs * multiplier, max)
  }

  /** Of an exponential schedule the first delay is the initial one, and each further delay is
      the one before it multiplied, all cut to the cap. */
  lemma ScheduleGrowsByItsMultiplier(initial: Seconds, multiplier: real, max: Seconds, attempt: nat)
    requires initial >= 0.0 && max >= 0.0 && multiplier >= 1.0 && 1 <= attempt < U32 / 2
    ensures initial < MAX_SECONDS ==> DelayAfter(Exponential(initial, multiplier, max), 1) == Wait(Min(initial, max))
    ensures var now, next := DelayAfter(Exponential(initial, multiplier, max), attempt),
        DelayAfter(Exponential(initial, multiplier, max), attempt + 1);
      next.Wait? ==> now.Wait? && next.secs == Grown(now.secs, multiplier, max)
  {
    hide DelayAfter, Uncapped, Min, Grown;
    ExponentialDelay(initial, multiplier, max, 1);
    ExponentialDelay(initial, multiplier, max, attempt);
    ExponentialDelay(initial, multiplier, max, attempt + 1);
    UncappedGrows(initial, multiplier, max, attempt - 1);
  }

  /** The delay after attempt `n + 1`, before it is cut to the cap. */
  function Uncapped(initial: Seconds, multiplier: real, n: nat): real {
    initial * Power(multiplier, n)
  }

  lemma ExponentialDelay(initial: Seconds, multiplier: real, max: Seconds, attempt: nat)
    requires initial >= 0.0 && multiplier >= 1.0 && 1 <= attempt <= U32 / 2
    ensures var uncapped := Uncapped(initial, multiplier, attempt - 1);
      DelayAfter(Exponential(initial, multiplier, max), attempt) ==
        if uncapped < MAX_SECONDS then Wait(Min(uncapped, max)) else Panics
  {
    assert Exponent(attempt) == attempt - 1;
    PowerIsLarge(multiplier, attempt - 1);
    hide Power, Min, Exponent;
    Products(initial, Power(multiplier, attempt - 1), 1.0);
  }

  lemma UncappedGrows(initial: Seconds, multiplier: real, max: Seconds, n: nat)
    requires initial >= 0.0 && multiplier >= 1.0 && max >= 0.0
    ensures Uncapped(initial, multiplier, 0) == initial
    ensures Uncapped(initial, multiplier, n) <= Uncapped(initial, multiplier, n + 1)
    ensures Min(Uncapped(initial, multiplier, n + 1), max) ==
      Grown(Min(Uncapped(initial, multiplier, n), max), multiplier, max)
  {
    PowerIsLarge(multiplier, n);
    var power := Power(multiplier, n);
    assert Power(multiplier, n + 1) == multiplier * power && Power(multiplier, 0) == 1.0;
    hide Power;
    Products(initial, power, multiplier);
    Products(max, 1.0, multiplier);
  }

  lemma Products(a: real, b: real, c: real)
    requires a >= 0.0 && b >= 1.0 && c >= 1.0
    ensures 0.0 <= a * b <= a * b * c
    ensures a * (c * b) == a * b * c && a * 1.0 == a
  {
    var scaled := a * b;
    assert scaled >= 0.0;
    assert scaled * c >= scaled;
  }

  lemma {:induction false} PowerIsLarge(base: real, n: nat)
    requires base >= 1.0
    ensures Power(base, n) >= 1.0
  {
    if n > 0 {
      PowerIsLarge(base, n - 1);
      var power := Power(base, n - 1);
      assert base * power >= power;
    }
  }

  // ---- The built-in schedule ---------------------------------------------

  lemma {:induction false} PowerOfTwoGrows(m: nat, n: nat)
    requires m <= n
    ensures 1.0 <= Power(2.0, m) <= Power(2.0, n)
    decreases n
  {
    if m < n {
      PowerOfTwoGrows(m, n - 1);
    } else if m > 0 {
      PowerOfTwoGrows(m - 1, n - 1);
    }
  }

  lemma {:induction false} PowerAdds(m: nat, n: nat)
    ensures Power(2.0, m + n) == Power(2.0, m) * Power(2.0, n)
  {
    if m > 0 { PowerAdds(m - 1, n); }
  }

  lemma PowersOfTwo()
    ensures Power(2.0, 3) == 8.0 && Power(2.0, 4) == 16.0
    ensures Power(2.0, 67) == 147_573_952_589_676_412_928.0
    ensures Power(2.0, 68) == 295_147_905_179_352_825_856.0
  {
    assert Power(2.0, 2) == 4.0;
    PowerAdds(4, 4);
    PowerAdds(8, 8);
    PowerAdds(16, 16);
    PowerAdds(32, 32);
    PowerAdds(64, 3);
  }

  /** The built-in schedule doubles from 100 ms and is capped at one second, for the
      first 68 attempts; from the 69th it panics, and does so until the exponent
      no longer fits 31 bits, when the delay falls back to almost nothing. */
  lemma BuiltInSchedule(attempt: nat)
    requires 1 <= attempt < U32
    ensures attempt <= 68 ==>
      DelayAfter(BUILT_IN, attempt) == Wait(Min(0.1 * Power(2.0, attempt - 1), 1.0))
    ensures DelayAfter(BUILT_IN, attempt).Panics? <==> 69 <= attempt <= U32 / 2
  {
    var n := Exponent(attempt);
    PowersOfTwo();
    if n >= 0 {
      if n <= 67 { PowerOfTwoGrows(n, 67); } else { PowerOfTwoGrows(68, n); }
    } else {
      PowerOfTwoGrows(0, -n);
      var p := Power(2.0, -n);
      assert 0.0 < 1.0 / p <= 1.0;
    }
  }

  /** The four doublings: 0.1, 0.2, 0.4 and 0.8 seconds, then one second each. */
  lemma BuiltInDelays(attempt: nat)
    requires 1 <= attempt <= 68
    ensures DelayAfter(BUILT_IN, attempt) == Wait(
      if attempt == 1 then 0.1 else if attempt == 2 then 0.2
      else if attempt == 3 then 0.4 else if attempt == 4 then 0.8 else 1.0)
  {
    BuiltInSchedule(attempt);
    PowersOfTwo();
    assert Power(2.0, 1) == 2.0 && Power(2.0, 2) == 4.0;
    if attempt > 4 { PowerOfTwoGrows(4, attempt - 1); }
  }

  /** Later attempts wait no less, and none waits more than a second. */
  lemma BuiltInIsMonotoneAndCapped(a: nat, b: nat)
    requires 1 <= a <= b <= 68
    ensures DelayAfter(BUILT_IN, a).Wait? && DelayAfter(BUILT_IN, b).Wait?
    ensures 0.1 <= DelayAfter(BUILT_IN, a).secs <= DelayAfter(BUILT_IN, b).secs <= 1.0
  {
    BuiltInDelays(a);
    BuiltInDelays(b);
  }

  // ---- Where the built-in policies stay inside the schedule's domain ------

  /** No attempt of this call, up to the `n`th, computes a delay that panics. */
  ghost predicate NeverPanics(policy: Policy) {
    forall script: seq<Try>, n: nat ::
      n < |script| && Timely(policy, script) && RetriesThrough(policy, script, n)
      ==> !DecisionAt(policy, script, n).Crash?
  }

  /** `attempts(max)` is safe exactly up to 69. */
  lemma AttemptsPanicFromSeventy(max: nat)
    requires max < U32
    ensures NeverPanics(Attempts(max)) <==> max <= 69
  {
    var policy := Attempts(max);
    if max <= 69 {
      forall script: seq<Try>, n: nat
        | n < |script| && Timely(policy, script) && RetriesThrough(policy, script, n)
        ensures !DecisionAt(policy, script, n).Crash?
      {
        CeilingEndsTheLoop(policy, script, n);
        BuiltInSchedule(AttemptNumber(n));
      }
    } else {
      var script := RefusedFor(69);
      RefusedForIsRetried(policy);
    }
  }

  /** `deadline(d)` is safe exactly up to 65.5 seconds. */
  lemma DeadlinePanicsPast65Seconds(d: Seconds)
    requires d >= 0.0
    ensures NeverPanics(Deadline(d)) <==> d <= 65.5
  {
    var policy := Deadline(d);
    if d <= 65.5 {
      forall script: seq<Try>, n: nat
        | n < |script| && Timely(policy, script) && RetriesThrough(policy, script, n)
        ensures !DecisionAt(policy, script, n).Crash?
      {
        DeadlineStopsBySixtyEight(d, script, n);
        BuiltInSchedule(AttemptNumber(n));
      }
    } else {
      var script := RefusedFor(69);
      RefusedForIsRetried(policy);
    }
  }

  // Seconds slept before the built-in schedule's attempt `n + 1`.
  function BuiltInSlept(n: nat): real {
    if n == 0 then 0.0 else if n == 1 then 0.1 else if n == 2 then 0.3 else if n == 3 then 0.7
    else (n - 4) as real + 1.5
  }

  lemma {:induction false} BuiltInSleeps(policy: Policy, script: seq<Try>, n: nat)
    requires policy.backoff == BUILT_IN && n <= 68 && n <= |script|
    requires RetriesThrough(policy, script, n)
    ensures Slept(policy, script, n) == BuiltInSlept(n)
  {
    hide DelayAfter, DecisionAt, SleepAfter;
    if n > 0 {
      BuiltInSleeps(policy, script, n - 1);
      RetriesWereAllowed(policy, script, n, n - 1);
      BuiltInDelays(n);
    }
  }

  lemma DeadlineStopsBySixtyEight(d: Seconds, script: seq<Try>, n: nat)
    requires d <= 65.5 && n <= |script|
    requires Timely(Deadline(d), script) && RetriesThrough(Deadline(d), script, n)
    ensures n < 68
  {
    var m := if n < 68 then n else 68;
    if m > 0 {
      BuiltInSleeps(Deadline(d), script, m);
      SleepsFitTheDeadline(Deadline(d), script, m);
    }
  }

  // Attempts that fail at once, with exact sleeps between them.
  function RefusedFor(n: nat): (script: seq<Try>)
    ensures |script| == n
    ensures forall k | 0 <= k < n :: script[k] == Try(Err(Transport), BuiltInSlept(k))
  {
    seq(n, k requires 0 <= k => Try(Err(Transport), BuiltInSlept(k)))
  }

  lemma RefusedIsRetried(policy: Policy, k: nat)
    requires policy.backoff == BUILT_IN && policy.retryIf(Err(Transport)) && k < 68
    requires policy.maxAttempts.Some? ==> policy.maxAttempts.value > 69
    requires policy.deadline.Some? ==> policy.deadline.value > 65.5
    ensures DecisionAt(policy, RefusedFor(69), k) == Retry(BuiltInSlept(k + 1) - BuiltInSlept(k))
  {
    BuiltInDelays(k + 1);
    hide DelayAfter;
  }

  lemma RefusedForIsRetried(policy: Policy)
    requires policy.backoff == BUILT_IN && policy.retryIf(Err(Transport))
    requires policy.maxAttempts.Some? ==> policy.maxAttempts.value > 69
    requires policy.deadline.Some? ==> policy.deadline.value > 65.5
    ensures var script := RefusedFor(69);
      Timely(policy, script) && RetriesThrough(policy, script, 68) && DecisionAt(policy, script, 68).Crash?
  {
    var script := RefusedFor(69);
    forall k | 0 <= k < 68
      ensures DecisionAt(policy, script, k).Retry?
    {
      RefusedIsRetried(policy, k);
    }
    forall k | 0 < k < |script|
      ensures script[k].elapsed >= script[k - 1].elapsed + SleepAfter(policy, script, k - 1)
    {
      RefusedIsRetried(policy, k - 1);
    }
    BuiltInSchedule(69);
  }
}
