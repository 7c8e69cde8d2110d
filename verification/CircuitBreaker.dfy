/** The circuit breaker: a timed state machine whose generations tell late calls from current ones. */
module CircuitBreaking {
  import opened Prelude

  datatype Circuit = Closed | Open | HalfOpen

  datatype Config = Config(failureThreshold: nat, resetTimeout: real, halfOpenMax: nat)

  /** What the constructor of the configuration accepts. */
  predicate ValidConfig(c: Config) {
    1 <= c.failureThreshold <= 1000 && 1.0 <= c.resetTimeout <= 86400.0 && 1 <= c.halfOpenMax <= 10
  }

  /** admissions is the context variable: the generation in which each context was last admitted. */
  datatype Breaker = Breaker(
    state: Circuit,
    failures: nat,
    lastFailure: real,
    attempts: nat,
    enteredAt: real,
    generation: nat,
    admissions: map<nat, nat>)

  const NewBreaker := Breaker(Closed, 0, 0.0, 0, 0.0, 0, map[])

  // ----- Transitions ------------------------------------------------------------------------

  /** An open breaker half-opens after the timeout, and a half-open one nobody reported on starts over. */
  function Check(b: Breaker, c: Config, now: real): Breaker {
    match b.state
    case Closed => b
    case Open =>
      if now - b.lastFailure >= c.resetTimeout then b.(state := HalfOpen, attempts := 0, enteredAt := now) else b
    case HalfOpen =>
      if now - b.enteredAt >= c.resetTimeout then b.(attempts := 0, enteredAt := now, generation := b.generation + 1) else b
  }

  function Admitted(b: Breaker, c: Config, now: real): bool {
    var checked := Check(b, c, now);
    checked.state == Closed || (checked.state == HalfOpen && checked.attempts < c.halfOpenMax)
  }

  function AfterAsk(b: Breaker, c: Config, context: nat, now: real): Breaker {
    var checked := Check(b, c, now);
    if !Admitted(b, c, now) then checked
    else checked.(attempts := if checked.state == HalfOpen then checked.attempts + 1 else checked.attempts,
                  admissions := checked.admissions[context := checked.generation])
  }

  /** The context was admitted, but in an earlier generation. */
  predicate Stale(b: Breaker, context: nat) {
    context in b.admissions && b.admissions[context] != b.generation
  }

  function AfterSuccess(b: Breaker, c: Config, context: nat, now: real): Breaker {
    var checked := Check(b, c, now);
    if checked.state == Open || Stale(checked, context) then checked
    else checked.(state := Closed, failures := 0, attempts := 0)
  }

  function AfterFailure(b: Breaker, c: Config, context: nat, now: real): Breaker {
    if Stale(b, context) then b
    else
      var counted := b.(failures := b.failures + 1, lastFailure := now);
      if b.state == HalfOpen then counted.(state := Open, generation := b.generation + 1, attempts := 0)
      else if counted.failures >= c.failureThreshold then
        counted.(state := Open, generation := if b.state == Open then b.generation else b.generation + 1)
      else counted
  }

  function AfterReset(b: Breaker, context: nat): Breaker {
    b.(state := Closed, generation := b.generation + 1, failures := 0, attempts := 0, admissions := b.admissions - {context})
  }

  datatype Action = Look | Ask(context: nat) | Succeed(context: nat) | Fail(context: nat) | ForceReset(context: nat)

  function Step(b: Breaker, c: Config, a: Action, now: real): Breaker {
    match a
    case Look => Check(b, c, now)
    case Ask(context) => AfterAsk(b, c, context, now)
    case Succeed(context) => AfterSuccess(b, c, context, now)
    case Fail(context) => AfterFailure(b, c, context, now)
    case ForceReset(context) => AfterReset(b, context)
  }

  // ----- Generations ------------------------------------------------------------------------

  /** No admission is from the future, and while the breaker is open every admission is from the past. */
  ghost predicate Generations(b: Breaker) {
    forall context :: context in b.admissions ==>
      b.admissions[context] <= b.generation && (b.state == Open ==> b.admissions[context] < b.generation)
  }

  lemma StepKeepsGenerations(b: Breaker, c: Config, a: Action, now: real)
    requires Generations(b)
    ensures Generations(Step(b, c, a, now))
  {
  }

  /** The states a breaker passes through, action by action. */
  ghost function After(b: Breaker, c: Config, actions: seq<(Action, real)>): Breaker
    decreases |actions|
  {
    if actions == [] then b else After(Step(b, c, actions[0].0, actions[0].1), c, actions[1..])
  }

  lemma {:induction false} RunKeepsGenerations(b: Breaker, c: Config, actions: seq<(Action, real)>)
    requires Generations(b)
    ensures Generations(After(b, c, actions)) && After(b, c, actions).generation >= b.generation
    decreases |actions|
  {
    if actions != [] {
      StepKeepsGenerations(b, c, actions[0].0, actions[0].1);
      RunKeepsGenerations(Step(b, c, actions[0].0, actions[0].1), c, actions[1..]);
    }
  }

  /** While the breaker is open, nothing an admitted call reports changes more than the clock would. */
  lemma {:induction false} OpenIgnoresAdmittedCalls(c: Config, actions: seq<(Action, real)>, context: nat, now: real)
    requires After(NewBreaker, c, actions).state == Open && context in After(NewBreaker, c, actions).admissions
    ensures var b := After(NewBreaker, c, actions);
      && AfterFailure(b, c, context, now) == b
      && AfterSuccess(b, c, context, now) == Check(b, c, now)
      && Check(b, c, now).state != Closed
  {
    RunKeepsGenerations(NewBreaker, c, actions);
  }

  ghost predicate NeverAsks(actions: seq<(Action, real)>, context: nat) {
    forall i :: 0 <= i < |actions| ==> actions[i].0 != Ask(context) && actions[i].0 != ForceReset(context)
  }

  /** A call admitted before a trip stays inert for good: it closes nothing and lengthens nothing, until it asks again. */
  lemma {:induction false} LateCallsAreInert(b: Breaker, c: Config, actions: seq<(Action, real)>, context: nat, now: real)
    requires context in b.admissions && b.admissions[context] < b.generation && NeverAsks(actions, context)
    ensures var later := After(b, c, actions);
      && AfterFailure(later, c, context, now) == later
      && AfterSuccess(later, c, context, now) == Check(later, c, now)
    decreases |actions|
  {
    if actions != [] {
      var next := Step(b, c, actions[0].0, actions[0].1);
      assert actions[0].0 != Ask(context) && actions[0].0 != ForceReset(context);
      forall i | 0 <= i < |actions[1..]| ensures actions[1..][i].0 != Ask(context) && actions[1..][i].0 != ForceReset(context) {
        assert actions[1..][i] == actions[i + 1];
      }
      LateCallsAreInert(next, c, actions[1..], context, now);
    }
  }

  // ----- Admissions since a trip ------------------------------------------------------------

  /** What an observer notes: when the breaker last left the closed state, and how many calls it admitted since. */
  datatype Trip = Untripped | Since(at: real, admitted: nat)

  function Observe(w: Trip, b: Breaker, c: Config, a: Action, now: real): Trip {
    if Step(b, c, a, now).state == Closed then Untripped
    else if w.Untripped? then Since(now, 0)
    else Since(w.at, w.admitted + if a.Ask? && Admitted(b, c, now) then 1 else 0)
  }

  /** Whole timeouts that fit between two instants. */
  function Windows(c: Config, from: real, to: real): int
    requires ValidConfig(c)
  {
    ((to - from) / c.resetTimeout).Floor
  }

  lemma WindowsGrow(c: Config, from: real, mid: real, to: real)
    requires ValidConfig(c) && mid <= to
    ensures Windows(c, from, mid) <= Windows(c, from, to)
    ensures to - mid >= c.resetTimeout ==> Windows(c, from, mid) + 1 <= Windows(c, from, to)
  {
    var x, y := (mid - from) / c.resetTimeout, (to - from) / c.resetTimeout;
    assert x * c.resetTimeout == mid - from && y * c.resetTimeout == to - from;
    Unscale(y - x, c.resetTimeout);
    Unscale(y - x - 1.0, c.resetTimeout);
    assert (y - x) * c.resetTimeout == to - mid;
  }

  lemma Unscale(d: real, t: real)
    requires t > 0.0
    ensures d * t >= 0.0 ==> d >= 0.0
  {
  }

  /** Open since the last failure, or half-open since it was entered, the admissions fit the windows that passed. */
  ghost predicate Paced(b: Breaker, c: Config, w: Trip, now: real)
    requires ValidConfig(c)
  {
    && b.attempts <= c.halfOpenMax && (b.state == Closed <==> w.Untripped?)
    && (b.state == Open ==> w.at <= b.lastFailure <= now && w.admitted <= c.halfOpenMax * Windows(c, w.at, b.lastFailure))
    && (b.state == HalfOpen ==>
          w.at <= b.enteredAt <= now && w.admitted <= c.halfOpenMax * (Windows(c, w.at, b.enteredAt) - 1) + b.attempts)
  }

  lemma MorePerWindow(c: Config, n: int, m: int)
    requires n <= m
    ensures c.halfOpenMax * n <= c.halfOpenMax * m
    ensures n + 1 <= m ==> c.halfOpenMax * n <= c.halfOpenMax * (m - 1)
  {
  }

  /** The clock alone moves the breaker into the next window only when one has passed. */
  lemma CheckKeepsPace(b: Breaker, c: Config, w: Trip, before: real, now: real)
    requires ValidConfig(c) && Paced(b, c, w, before) && before <= now
    ensures Paced(Check(b, c, now), c, w, now)
  {
    match b.state
    case Closed =>
    case Open =>
      WindowsGrow(c, w.at, b.lastFailure, now);
      MorePerWindow(c, Windows(c, w.at, b.lastFailure), Windows(c, w.at, now));
    case HalfOpen =>
      WindowsGrow(c, w.at, b.enteredAt, now);
      MorePerWindow(c, Windows(c, w.at, b.enteredAt), Windows(c, w.at, now));
      assert c.halfOpenMax * (Windows(c, w.at, b.enteredAt) - 1) + c.halfOpenMax == c.halfOpenMax * Windows(c, w.at, b.enteredAt);
  }

  lemma FailureKeepsPace(b: Breaker, c: Config, w: Trip, context: nat, before: real, now: real)
    requires ValidConfig(c) && Paced(b, c, w, before) && before <= now
    ensures Paced(AfterFailure(b, c, context, now), c, Observe(w, b, c, Fail(context), now), now)
  {
    match b.state
    case Closed =>
      assert Windows(c, now, now) == 0;
    case Open =>
      WindowsGrow(c, w.at, b.lastFailure, now);
      MorePerWindow(c, Windows(c, w.at, b.lastFailure), Windows(c, w.at, now));
    case HalfOpen =>
      WindowsGrow(c, w.at, b.enteredAt, now);
      MorePerWindow(c, Windows(c, w.at, b.enteredAt), Windows(c, w.at, now));
      assert c.halfOpenMax * (Windows(c, w.at, b.enteredAt) - 1) + c.halfOpenMax == c.halfOpenMax * Windows(c, w.at, b.enteredAt);
  }

  lemma StepKeepsPace(b: Breaker, c: Config, w: Trip, a: Action, before: real, now: real)
    requires ValidConfig(c) && Paced(b, c, w, before) && before <= now
    ensures Paced(Step(b, c, a, now), c, Observe(w, b, c, a, now), now)
  {
    match a
    case Look => CheckKeepsPace(b, c, w, before, now);
    case Ask(context) => CheckKeepsPace(b, c, w, before, now);
    case Succeed(context) => CheckKeepsPace(b, c, w, before, now);
    case Fail(context) => FailureKeepsPace(b, c, w, context, before, now);
    case ForceReset(context) =>
  }

  /** The observer's note after a run. */
  ghost function Watched(b: Breaker, c: Config, w: Trip, actions: seq<(Action, real)>): Trip
    decreases |actions|
  {
    if actions == [] then w
    else Watched(Step(b, c, actions[0].0, actions[0].1), c, Observe(w, b, c, actions[0].0, actions[0].1), actions[1..])
  }

  /** A monotonic clock. */
  ghost predicate Clocked(start: real, actions: seq<(Action, real)>)
    decreases |actions|
  {
    actions != [] ==> start <= actions[0].1 && Clocked(actions[0].1, actions[1..])
  }

  function LastTime(start: real, actions: seq<(Action, real)>): real {
    if actions == [] then start else actions[|actions| - 1].1
  }

  lemma {:induction false} RunKeepsPace(b: Breaker, c: Config, w: Trip, start: real, actions: seq<(Action, real)>)
    requires ValidConfig(c) && Paced(b, c, w, start) && Clocked(start, actions)
    ensures Paced(After(b, c, actions), c, Watched(b, c, w, actions), LastTime(start, actions))
    decreases |actions|
  {
    if actions != [] {
      StepKeepsPace(b, c, w, actions[0].0, start, actions[0].1);
      RunKeepsPace(Step(b, c, actions[0].0, actions[0].1), c, Observe(w, b, c, actions[0].0, actions[0].1), actions[0].1, actions[1..]);
    }
  }

  /**
   * In every run, the calls admitted since the breaker last left the closed state number at most halfOpenMax
   * for each whole timeout that has passed since.
   */
  lemma {:induction false} AdmissionsArePaced(c: Config, actions: seq<(Action, real)>, now: real)
    requires ValidConfig(c) && Clocked(0.0, actions) && LastTime(0.0, actions) <= now
    ensures var w := Watched(NewBreaker, c, Untripped, actions);
      && (After(NewBreaker, c, actions).state == Closed <==> w.Untripped?)
      && (w.Since? ==> w.admitted <= c.halfOpenMax * Windows(c, w.at, now))
  {
    RunKeepsPace(NewBreaker, c, Untripped, 0.0, actions);
    var b, w := After(NewBreaker, c, actions), Watched(NewBreaker, c, Untripped, actions);
    if w.Since? {
      var latest := if b.state == Open then b.lastFailure else b.enteredAt;
      WindowsGrow(c, w.at, latest, now);
      MorePerWindow(c, Windows(c, w.at, latest), Windows(c, w.at, now));
      assert c.halfOpenMax * (Windows(c, w.at, latest) - 1) + c.halfOpenMax == c.halfOpenMax * Windows(c, w.at, latest);
    }
  }

  /** Whatever happened, one quiet timeout later the breaker lets a call through. */
  lemma HealsItself(b: Breaker, c: Config, now: real)
    requires ValidConfig(c)
    requires b.state == Open ==> now - b.lastFailure >= c.resetTimeout
    requires b.state == HalfOpen ==> now - b.enteredAt >= c.resetTimeout
    ensures Admitted(b, c, now)
    ensures forall context :: !Stale(AfterAsk(b, c, context, now), context)
  {
  }

  // ----- The breaker as it runs -------------------------------------------------------------

  class CircuitBreaker {
    const config: Config
    var state: Circuit
    var failureCount: nat
    var lastFailureTime: real
    var halfOpenAttempts: nat
    var halfOpenEnteredAt: real
    var generation: nat
    var admissionGeneration: map<nat, nat>   // the context variable, by context

    ghost function Value(): Breaker
      reads this
    {
      Breaker(state, failureCount, lastFailureTime, halfOpenAttempts, halfOpenEnteredAt, generation, admissionGeneration)
    }

    constructor (config: Config)
      requires ValidConfig(config)
      ensures this.config == config && Value() == NewBreaker
    {
      this.config := config;
      state, failureCount, lastFailureTime := Closed, 0, 0.0;
      halfOpenAttempts, halfOpenEnteredAt, generation, admissionGeneration := 0, 0.0, 0, map[];
    }

    method CheckAndTransitionState(now: real)
      modifies this
      ensures Value() == Check(old(Value()), config, now)
    {
      if state == Open {
        if now - lastFailureTime >= config.resetTimeout {
          state := HalfOpen;
          halfOpenAttempts := 0;
          halfOpenEnteredAt := now;
        }
      } else if state == HalfOpen {
        if now - halfOpenEnteredAt >= config.resetTimeout {
          halfOpenAttempts := 0;
          halfOpenEnteredAt := now;
          generation := generation + 1;
        }
      }
    }

    method CanExecute(context: nat, now: real) returns (allowed: bool)
      modifies this
      ensures Value() == AfterAsk(old(Value()), config, context, now)
      ensures allowed == Admitted(old(Value()), config, now)
    {
      CheckAndTransitionState(now);
      if state == Closed {
        admissionGeneration := admissionGeneration[context := generation];
        return true;
      }
      if state == HalfOpen && halfOpenAttempts < config.halfOpenMax {
        halfOpenAttempts := halfOpenAttempts + 1;
        admissionGeneration := admissionGeneration[context := generation];
        return true;
      }
      return false;
    }

    method RecordSuccess(context: nat, now: real)
      modifies this
      ensures Value() == AfterSuccess(old(Value()), config, context, now)
    {
      CheckAndTransitionState(now);
      if state == Open || (context in admissionGeneration && admissionGeneration[context] != generation) {
        return;
      }
      state := Closed;
      failureCount := 0;
      halfOpenAttempts := 0;
    }

    method RecordFailure(context: nat, now: real)
      modifies this
      ensures Value() == AfterFailure(old(Value()), config, context, now)
    {
      if context in admissionGeneration && admissionGeneration[context] != generation {
        return;
      }
      failureCount := failureCount + 1;
      lastFailureTime := now;
      if state == HalfOpen {
        state := Open;
        generation := generation + 1;
        halfOpenAttempts := 0;
      } else if failureCount >= config.failureThreshold {
        if state != Open {
          generation := generation + 1;
        }
        state := Open;
      }
    }

    method Reset(context: nat)
      modifies this
      ensures Value() == AfterReset(old(Value()), context)
    {
      state := Closed;
      generation := generation + 1;
      failureCount := 0;
      halfOpenAttempts := 0;
      admissionGeneration := admissionGeneration - {context};
    }
  }
}
