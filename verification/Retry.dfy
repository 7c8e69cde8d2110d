/** Bounded retry: backoff delays, what may be retried, and what is reported in the end. */
module Retry {
  import opened Prelude

  datatype Strategy = Fixed | Exponential | Linear

  datatype Policy = Policy(
    maxAttempts: nat, strategy: Strategy, base: real, max: real, jitter: bool, retryUnknown: bool)

  predicate ValidPolicy(p: Policy) {
    1 <= p.maxAttempts <= 100 && 0.1 <= p.base <= 3600.0 && p.base <= p.max <= 86400.0
  }

  // ----- Delays -----------------------------------------------------------------------------

  function Power2(n: nat): (r: real)
    ensures r >= 1.0
  {
    if n == 0 then 1.0 else 2.0 * Power2(n - 1)
  }

  function AtMost(x: real, limit: real): real {
    if x < limit then x else limit
  }

  function AtLeast(x: real, limit: real): real {
    if x > limit then x else limit
  }

  /** What the strategy multiplies the base by. */
  function Factor(p: Policy, attempt: nat): (f: real)
    ensures f >= 1.0
  {
    match p.strategy
    case Fixed => 1.0
    case Exponential => Power2(attempt)
    case Linear => attempt as real + 1.0
  }

  /** The delay before jitter. */
  function Backoff(p: Policy, attempt: nat): real {
    AtMost(p.base * Factor(p, attempt), p.max)
  }

  /** A uniform draw from -1 to 1 scales the jitter; it must not push the delay above the ceiling. */
  function Jittered(delay: real, draw: real, ceiling: real): real {
    AtMost(delay + draw * (delay * 0.25), ceiling)
  }

  /** calculate_delay. */
  function CalculateDelay(p: Policy, attempt: nat, draw: real): real {
    AtLeast(if p.jitter then Jittered(Backoff(p, attempt), draw, p.max) else Backoff(p, attempt), 0.0)
  }

  /** Products grow with a factor; the products are named so that what follows is linear. */
  lemma Scale(x: real, a: real, b: real, xa: real, xb: real)
    requires x >= 0.0 && a <= b && xa == x * a && xb == x * b
    ensures xa <= xb
  {
    assert x * (b - a) >= 0.0;
    assert x * (b - a) == xb - xa;
  }

  lemma BackoffStep(p: Policy, attempt: nat)
    requires ValidPolicy(p)
    ensures p.base <= Backoff(p, attempt) <= Backoff(p, attempt + 1) <= p.max
  {
    FactorGrows(p, attempt);
    var low, high := Factor(p, attempt), Factor(p, attempt + 1);
    var now, next := p.base * low, p.base * high;
    Scale(p.base, 1.0, low, p.base, now);
    Scale(p.base, low, high, now, next);
  }

  lemma FactorGrows(p: Policy, attempt: nat)
    ensures Factor(p, attempt) <= Factor(p, attempt + 1)
  {
    assert Power2(attempt + 1) == 2.0 * Power2(attempt);
  }

  /** Delays start at the base, never shrink, and stop at the ceiling. */
  lemma {:induction false} BackoffGrows(p: Policy, attempt: nat, later: nat)
    requires ValidPolicy(p) && attempt <= later
    ensures p.base <= Backoff(p, attempt) <= Backoff(p, later) <= p.max
    decreases later - attempt
  {
    BackoffStep(p, attempt);
    if attempt < later {
      BackoffGrows(p, attempt + 1, later);
    }
  }

  /** The ladder of each strategy: doubling, one more base each time, or always the base; cut at the ceiling. */
  lemma BackoffLadder(p: Policy, attempt: nat)
    requires ValidPolicy(p)
    ensures Backoff(p, 0) == p.base
    ensures p.strategy == Fixed ==> Backoff(p, attempt) == p.base
    ensures p.strategy == Exponential ==> Backoff(p, attempt + 1) == AtMost(2.0 * Backoff(p, attempt), p.max)
    ensures p.strategy == Linear ==> Backoff(p, attempt + 1) == AtMost(Backoff(p, attempt) + p.base, p.max)
  {
    BackoffStep(p, attempt);
    var low, high := Factor(p, attempt), Factor(p, attempt + 1);
    if p.strategy == Exponential {
      assert p.base * high == 2.0 * (p.base * low);
    } else if p.strategy == Linear {
      assert p.base * high == p.base * low + p.base;
    }
  }

  lemma JitterIsBounded(delay: real, draw: real, ceiling: real)
    requires 0.0 <= delay <= ceiling && -1.0 <= draw <= 1.0
    ensures 0.75 * delay <= Jittered(delay, draw, ceiling) <= ceiling
    ensures Jittered(delay, draw, ceiling) <= 1.25 * delay
  {
    var quarter := delay * 0.25;
    var moved := draw * quarter;
    Scale(quarter, -1.0, draw, -quarter, moved);
    Scale(quarter, draw, 1.0, moved, quarter);
  }

  /** Jitter moves the delay by a quarter at most, and never past the ceiling. */
  lemma DelayIsBounded(p: Policy, attempt: nat, draw: real)
    requires ValidPolicy(p) && -1.0 <= draw <= 1.0
    ensures 0.75 * Backoff(p, attempt) <= CalculateDelay(p, attempt, draw) <= p.max
    ensures CalculateDelay(p, attempt, draw) <= 1.25 * Backoff(p, attempt)
  {
    BackoffStep(p, attempt);
    JitterIsBounded(Backoff(p, attempt), draw, p.max);
  }

  // ----- Outcomes ---------------------------------------------------------------------------

  /** The error metadata of a failure; Invalid does not match the schema of error_info. */
  datatype Info = Valid(retryable: bool, retryAfter: Option<real>) | Invalid

  /** Usage errors and business errors are never retried; network errors and returned failures only when their metadata says so. */
  datatype Kind = Usage | Business | Network | Permanent | Unknown

  datatype Outcome =
    | Done(value: nat)
    | Envelope(value: nat, info: Option<Info>)
    | Raised(error: nat, kind: Kind, info: Option<Info>)

  /** What the caller gets; BadMetadata is the error that checking the metadata raised instead. */
  datatype Report = Returned(value: nat) | Threw(error: nat) | BadMetadata | Stopped

  datatype Permission = Yes | No | Broken

  /** _can_retry. */
  function CanRetry(p: Policy, o: Outcome): Permission
    requires !o.Done?
  {
    if o.Raised? && (o.kind == Usage || o.kind == Business) then No
    else
      match o.info
      case Some(Invalid) => Broken
      case Some(Valid(retryable, retryAfter)) =>
        if retryable && (retryAfter.Some? ==> retryAfter.value <= p.max) then Yes else No
      case None =>
        if o.Raised? && o.kind == Permanent then No
        else if o.Envelope? || o.kind == Network then No
        else if p.retryUnknown then Yes else No
  }

  function ServerDelay(o: Outcome): real {
    if (o.Envelope? || o.Raised?) && o.info.Some? && o.info.value.Valid? && o.info.value.retryAfter.Some?
    then o.info.value.retryAfter.value else 0.0
  }

  predicate Retryable(p: Policy, o: Outcome) {
    !o.Done? && CanRetry(p, o) == Yes
  }

  /**
   * A failure may be retried exactly when its metadata says so and asks for no longer a wait than the policy allows, or
   * when it is an exception of unknown kind without metadata and the policy retries those; usage and business errors never.
   */
  lemma RetriedExactly(p: Policy, o: Outcome)
    ensures Retryable(p, o) <==>
      && !o.Done? && !(o.Raised? && o.kind in {Usage, Business})
      && match o.info
         case Some(info) => info.Valid? && info.retryable && (info.retryAfter == None || info.retryAfter.value <= p.max)
         case None => o.Raised? && o.kind == Unknown && p.retryUnknown
  {
  }

  /** What is reported when o ends the loop, as the last permitted attempt or earlier. */
  function Reported(p: Policy, o: Outcome, last: bool): Report {
    match o
    case Done(value) => Returned(value)
    case Envelope(value, _) => if !last && CanRetry(p, o) == Broken then BadMetadata else Returned(value)
    case Raised(error, _, _) => if !last && CanRetry(p, o) == Broken then BadMetadata else Threw(error)
  }

  /** The report of the outcome itself. */
  function Own(o: Outcome): Report {
    match o
    case Done(value) => Returned(value)
    case Envelope(value, _) => Returned(value)
    case Raised(error, _, _) => Threw(error)
  }

  /** A failure whose metadata gets looked at and does not match its schema. */
  predicate Malformed(o: Outcome) {
    match o
    case Done(_) => false
    case Envelope(_, info) => info == Some(Invalid)
    case Raised(_, kind, info) => kind != Usage && kind != Business && info == Some(Invalid)
  }

  /** The attempt, from the k-th on, after which the loop ends unless it is cancelled. */
  function LastCall(p: Policy, outcomes: seq<Outcome>, k: nat): (i: nat)
    requires k < p.maxAttempts == |outcomes|
    ensures k <= i < p.maxAttempts && (i + 1 == p.maxAttempts || !Retryable(p, outcomes[i]))
    ensures forall j :: k <= j < i ==> Retryable(p, outcomes[j])
    decreases p.maxAttempts - k
  {
    if k + 1 == p.maxAttempts || !Retryable(p, outcomes[k]) then k else LastCall(p, outcomes, k + 1)
  }

  /** What an execution that is not cancelled reports. */
  function FinalReport(p: Policy, outcomes: seq<Outcome>): Report
    requires 0 < p.maxAttempts == |outcomes|
  {
    var i := LastCall(p, outcomes, 0);
    Reported(p, outcomes[i], i + 1 == p.maxAttempts)
  }

  /** The last outcome is the one reported, unless its metadata is malformed and another attempt was permitted. */
  lemma {:induction false} LastOutcomeIsReportedExactly(p: Policy, outcomes: seq<Outcome>)
    requires 0 < p.maxAttempts == |outcomes|
    ensures var i := LastCall(p, outcomes, 0);
      FinalReport(p, outcomes) == Own(outcomes[i]) <==> i + 1 == p.maxAttempts || !Malformed(outcomes[i])
  {
  }

  /** A network error with malformed metadata: what is reported is neither it nor any other outcome of the execution. */
  lemma {:induction false} MalformedMetadataHidesTheFailure(p: Policy, error: nat, later: Outcome)
    requires p.maxAttempts == 2
    ensures var outcomes := [Raised(error, Network, Some(Invalid)), later];
      LastCall(p, outcomes, 0) == 0 && forall o :: o in outcomes ==> FinalReport(p, outcomes) != Own(o)
  {
    var outcomes := [Raised(error, Network, Some(Invalid)), later];
    assert FinalReport(p, outcomes) == BadMetadata;
  }

  function Sum(s: seq<real>): real {
    if s == [] then 0.0 else Sum(s[..|s| - 1]) + s[|s| - 1]
  }

  lemma {:induction false} SumBounded(s: seq<real>, limit: real)
    requires forall i :: 0 <= i < |s| ==> s[i] <= limit
    ensures Sum(s) <= |s| as real * limit
  {
    if s != [] {
      SumBounded(s[..|s| - 1], limit);
      assert |s| as real * limit == (|s| - 1) as real * limit + limit;
    }
  }

  /** A server's delay is not negative, and the generator draws from -1 to 1. */
  ghost predicate Sensible(outcomes: seq<Outcome>, draws: seq<real>) {
    && (forall i :: 0 <= i < |outcomes| ==> ServerDelay(outcomes[i]) >= 0.0)
    && (forall i :: 0 <= i < |draws| ==> -1.0 <= draws[i] <= 1.0)
  }

  /** A planned delay honours the server's and the ceiling. */
  predicate Planned(p: Policy, o: Outcome, delay: real) {
    ServerDelay(o) <= delay <= p.max
  }

  /** It waits as long as the server asks, or as its place on the ladder says, a quarter more or less under jitter. */
  predicate Waits(p: Policy, attempt: nat, o: Outcome, delay: real) {
    if p.jitter then delay == ServerDelay(o) || 0.75 * Backoff(p, attempt) <= delay <= 1.25 * Backoff(p, attempt)
    else delay == AtLeast(Backoff(p, attempt), ServerDelay(o))
  }

  /** The k-th attempt is reached, and cancellation is seen before it or during the wait after it. */
  ghost predicate StopsAt(p: Policy, outcomes: seq<Outcome>, stopBefore: seq<bool>, stopDuring: seq<bool>, k: nat)
    requires k < p.maxAttempts == |outcomes| == |stopBefore| == |stopDuring|
  {
    && (forall i :: 0 <= i < k ==> Retryable(p, outcomes[i]))
    && (stopBefore[k] || (stopDuring[k] && k < p.maxAttempts - 1 && Retryable(p, outcomes[k])))
  }

  /**
   * execute_with_retry against any sequence of outcomes, with cancellation checked before each attempt and
   * during each wait. At most maxAttempts calls, none after a failure that may not be retried; each planned
   * delay between the server's and the ceiling; and the last outcome is the one reported.
   */
  method ExecuteWithRetry(p: Policy, outcomes: seq<Outcome>, draws: seq<real>, stopBefore: seq<bool>, stopDuring: seq<bool>)
      returns (report: Report, calls: nat, delays: seq<real>)
    requires ValidPolicy(p) && Sensible(outcomes, draws)
    requires |outcomes| == |draws| == |stopBefore| == |stopDuring| == p.maxAttempts
    ensures calls <= p.maxAttempts
    ensures forall k :: 0 <= k < calls - 1 ==> Retryable(p, outcomes[k])
    ensures |delays| < p.maxAttempts && calls - 1 <= |delays| <= calls
    ensures forall k :: 0 <= k < |delays| ==> Retryable(p, outcomes[k]) && Planned(p, outcomes[k], delays[k])
    ensures forall k :: 0 <= k < |delays| ==> Waits(p, k, outcomes[k], delays[k])
    ensures report != Stopped ==> calls > 0 && report == Reported(p, outcomes[calls - 1], calls == p.maxAttempts)
    ensures report != Stopped && calls < p.maxAttempts ==> !Retryable(p, outcomes[calls - 1])
    ensures report != Stopped ==> calls == LastCall(p, outcomes, 0) + 1 && report == FinalReport(p, outcomes)
    ensures report == Stopped <==> exists k :: 0 <= k < p.maxAttempts && StopsAt(p, outcomes, stopBefore, stopDuring, k)
  {
    calls, delays := 0, [];
    var lastException: Option<nat> := None;
    var attempt := 0;
    while attempt < p.maxAttempts
      invariant attempt <= p.maxAttempts && calls == |delays| == attempt && attempt < p.maxAttempts
      invariant forall k :: 0 <= k < attempt ==> Retryable(p, outcomes[k]) && Planned(p, outcomes[k], delays[k])
      invariant forall k :: 0 <= k < attempt ==> Waits(p, k, outcomes[k], delays[k])
      invariant forall k :: 0 <= k < attempt ==> !stopBefore[k] && !stopDuring[k]
      decreases p.maxAttempts - attempt
    {
      if stopBefore[attempt] {
        assert StopsAt(p, outcomes, stopBefore, stopDuring, attempt);
        return Stopped, calls, delays;
      }
      calls := calls + 1;
      var outcome := outcomes[attempt];
      var last := attempt >= p.maxAttempts - 1;
      if outcome.Done? {
        return Returned(outcome.value), calls, delays;
      }
      if outcome.Raised? {
        lastException := Some(outcome.error);
      }
      var permission := if last then No else CanRetry(p, outcome);
      if permission == Broken {
        return BadMetadata, calls, delays;
      }
      if permission == No {
        if outcome.Envelope? {
          return Returned(outcome.value), calls, delays;
        }
        break;
      }
      DelayIsBounded(p, attempt, draws[attempt]);
      var delay := AtLeast(CalculateDelay(p, attempt, draws[attempt]), ServerDelay(outcome));
      BackoffStep(p, attempt);
      assert Waits(p, attempt, outcome, delay);
      delays := delays + [delay];
      if stopDuring[attempt] {
        assert StopsAt(p, outcomes, stopBefore, stopDuring, attempt);
        return Stopped, calls, delays;
      }
      attempt := attempt + 1;
    }
    assert lastException.Some?;
    report := Threw(lastException.value);
  }

  /** The total planned delay is bounded by the policy alone. */
  lemma {:induction false} TotalDelayIsBounded(p: Policy, outcomes: seq<Outcome>, delays: seq<real>)
    requires ValidPolicy(p) && |delays| < p.maxAttempts == |outcomes|
    requires forall k :: 0 <= k < |delays| ==> Planned(p, outcomes[k], delays[k])
    ensures Sum(delays) <= (p.maxAttempts - 1) as real * p.max
  {
    SumBounded(delays, p.max);
    var few, most := |delays| as real * p.max, (p.maxAttempts - 1) as real * p.max;
    Scale(p.max, |delays| as real, (p.maxAttempts - 1) as real, few, most);
    assert Sum(delays) <= few;
  }
}
