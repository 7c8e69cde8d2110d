/** When the breaker trips, how long it refuses, and what resets the count, told from the history of the reports. */
module Tripping {
  import opened CircuitBreaking

  /** The failures that counted since the last success that counted or reset, and when the last of them came. */
  datatype History = History(streak: nat, last: real)

  /** A report counts unless its call was admitted in an earlier generation; a success never counts while the breaker is open. */
  function Note(h: History, b: Breaker, c: Config, a: Action, now: real): History {
    match a
    case Fail(context) => if Stale(b, context) then h else History(h.streak + 1, now)
    case Succeed(context) =>
      if Check(b, c, now).state == Open || Stale(Check(b, c, now), context) then h else History(0, h.last)
    case ForceReset(_) => History(0, h.last)
    case _ => h
  }

  ghost function Noted(h: History, b: Breaker, c: Config, actions: seq<(Action, real)>): History
    decreases |actions|
  {
    if actions == [] then h
    else Noted(Note(h, b, c, actions[0].0, actions[0].1), Step(b, c, actions[0].0, actions[0].1), c, actions[1..])
  }

  const NoHistory := History(0, 0.0)

  /** Closed exactly below the threshold; half-open only a timeout after the last failure that counted. */
  ghost predicate Tells(h: History, b: Breaker, c: Config, now: real) {
    && b.failures == h.streak && b.lastFailure == h.last
    && (b.state == Closed <==> h.streak < c.failureThreshold)
    && (b.state == HalfOpen ==> h.last + c.resetTimeout <= b.enteredAt <= now)
  }

  lemma StepTells(h: History, b: Breaker, c: Config, a: Action, before: real, now: real)
    requires ValidConfig(c) && Tells(h, b, c, before) && before <= now
    ensures Tells(Note(h, b, c, a, now), Step(b, c, a, now), c, now)
  {
  }

  lemma {:induction false} RunTells(h: History, b: Breaker, c: Config, start: real, actions: seq<(Action, real)>)
    requires ValidConfig(c) && Tells(h, b, c, start) && Clocked(start, actions)
    ensures Tells(Noted(h, b, c, actions), After(b, c, actions), c, LastTime(start, actions))
    decreases |actions|
  {
    if actions != [] {
      StepTells(h, b, c, actions[0].0, start, actions[0].1);
      RunTells(Note(h, b, c, actions[0].0, actions[0].1), Step(b, c, actions[0].0, actions[0].1), c, actions[0].1, actions[1..]);
    }
  }

  /**
   * In every run the breaker is closed exactly while fewer failures than the threshold counted since the last success
   * that counted or reset. While it is closed it admits every call; from the failure that reaches the threshold on it
   * admits none until a whole timeout has passed since the last failure that counted.
   */
  lemma {:induction false} TripsExactlyAtTheThreshold(c: Config, actions: seq<(Action, real)>, now: real)
    requires ValidConfig(c) && Clocked(0.0, actions) && LastTime(0.0, actions) <= now
    ensures var b, h := After(NewBreaker, c, actions), Noted(NoHistory, NewBreaker, c, actions);
      && (b.state == Closed <==> h.streak < c.failureThreshold)
      && (h.streak < c.failureThreshold ==> Admitted(b, c, now))
      && (h.streak >= c.failureThreshold && now - h.last < c.resetTimeout ==> b.state == Open && !Admitted(b, c, now))
  {
    RunTells(NoHistory, NewBreaker, c, 0.0, actions);
  }

  // ----- Failures in a row --------------------------------------------------------------------

  /** No success among the actions counts, and nobody resets the breaker. */
  ghost predicate Uninterrupted(b: Breaker, c: Config, actions: seq<(Action, real)>)
    decreases |actions|
  {
    actions != [] ==>
      var (a, now) := actions[0];
      && !a.ForceReset?
      && (a.Succeed? ==> Check(b, c, now).state == Open || Stale(Check(b, c, now), a.context))
      && Uninterrupted(Step(b, c, a, now), c, actions[1..])
  }

  ghost function CountedFailures(b: Breaker, c: Config, actions: seq<(Action, real)>): nat
    decreases |actions|
  {
    if actions == [] then 0
    else
      var (a, now) := actions[0];
      (if a.Fail? && !Stale(b, a.context) then 1 else 0) + CountedFailures(Step(b, c, a, now), c, actions[1..])
  }

  lemma {:induction false} StreakGrows(h: History, b: Breaker, c: Config, actions: seq<(Action, real)>)
    requires Uninterrupted(b, c, actions)
    ensures Noted(h, b, c, actions).streak == h.streak + CountedFailures(b, c, actions)
    decreases |actions|
  {
    if actions != [] {
      StreakGrows(Note(h, b, c, actions[0].0, actions[0].1), Step(b, c, actions[0].0, actions[0].1), c, actions[1..]);
    }
  }

  /**
   * Whatever went before: once a success has counted or the breaker was reset, it stays closed through fewer failures
   * than the threshold with no such interruption, and is no longer closed after that many.
   */
  lemma {:induction false} TripsAfterFailuresInARow(h: History, b: Breaker, c: Config, start: real, first: Action, at: real, actions: seq<(Action, real)>)
    requires ValidConfig(c) && Tells(h, b, c, start) && start <= at && Clocked(at, actions)
    requires first.ForceReset? || (first.Succeed? && Check(b, c, at).state != Open && !Stale(Check(b, c, at), first.context))
    requires Uninterrupted(Step(b, c, first, at), c, actions)
    ensures Step(b, c, first, at).state == Closed
    ensures After(Step(b, c, first, at), c, actions).state == Closed
      <==> CountedFailures(Step(b, c, first, at), c, actions) < c.failureThreshold
  {
    StepTells(h, b, c, first, start, at);
    RunTells(Note(h, b, c, first, at), Step(b, c, first, at), c, at, actions);
    StreakGrows(Note(h, b, c, first, at), Step(b, c, first, at), c, actions);
  }

  /** A new breaker trips in the same way. */
  lemma {:induction false} NewBreakerTrips(c: Config, actions: seq<(Action, real)>)
    requires ValidConfig(c) && Clocked(0.0, actions) && Uninterrupted(NewBreaker, c, actions)
    ensures After(NewBreaker, c, actions).state == Closed <==> CountedFailures(NewBreaker, c, actions) < c.failureThreshold
  {
    RunTells(NoHistory, NewBreaker, c, 0.0, actions);
    StreakGrows(NoHistory, NewBreaker, c, actions);
  }

  /** One failure that counts opens a half-open breaker, and a closed one exactly when it reaches the threshold. */
  lemma CountedFailureOpens(h: History, b: Breaker, c: Config, context: nat, before: real, now: real)
    requires ValidConfig(c) && Tells(h, b, c, before) && before <= now && !Stale(b, context)
    ensures var after := Step(b, c, Fail(context), now);
      && after.lastFailure == now && after.state != HalfOpen
      && (b.state == HalfOpen ==> after.state == Open)
      && (after.state == Open <==> h.streak + 1 >= c.failureThreshold)
      && (b.state != Open && after.state == Open ==> forall x :: x in after.admissions && b.admissions[x] <= b.generation ==> Stale(after, x))
  {
  }

  /** Once open, and until a timeout has passed since the last failure, no run of reports and asks gets a call through. */
  lemma {:induction false} OpenRefuses(b: Breaker, c: Config, start: real, actions: seq<(Action, real)>, now: real)
    requires b.state == Open && b.lastFailure <= start && Clocked(start, actions) && LastTime(start, actions) <= now
    requires now - b.lastFailure < c.resetTimeout && forall i :: 0 <= i < |actions| ==> !actions[i].0.ForceReset?
    ensures !Admitted(After(b, c, actions), c, now) && After(b, c, actions).state == Open
    ensures After(b, c, actions).admissions == b.admissions && After(b, c, actions).generation == b.generation
    decreases |actions|
  {
    if actions != [] {
      var (a, at) := actions[0];
      TimesUpTo(start, actions);
      assert !actions[0].0.ForceReset?;
      assert forall i :: 0 <= i < |actions[1..]| ==> actions[1..][i] == actions[i + 1];
      StepStaysOpen(b, c, a, start, at, now);
      OpenRefuses(Step(b, c, a, at), c, at, actions[1..], now);
    }
  }

  lemma StepStaysOpen(b: Breaker, c: Config, a: Action, start: real, at: real, now: real)
    requires b.state == Open && b.lastFailure <= start <= at <= now && now - b.lastFailure < c.resetTimeout && !a.ForceReset?
    ensures var after := Step(b, c, a, at);
      && after.state == Open && b.lastFailure <= after.lastFailure <= at && now - after.lastFailure < c.resetTimeout
      && after.admissions == b.admissions && after.generation == b.generation
  {
  }

  lemma {:induction false} TimesUpTo(start: real, actions: seq<(Action, real)>)
    requires Clocked(start, actions)
    ensures start <= LastTime(start, actions)
    ensures actions != [] ==> actions[0].1 <= LastTime(start, actions)
    decreases |actions|
  {
    if actions != [] {
      TimesUpTo(actions[0].1, actions[1..]);
    }
  }

  // ----- Generations and probes -----------------------------------------------------------------

  /** A generation ends when the breaker opens, when a half-open window is renewed, and at a reset. */
  predicate EndsGeneration(b: Breaker, after: Breaker, a: Action) {
    || (b.state != Open && after.state == Open)
    || (b.state == HalfOpen && after.state == HalfOpen && after.enteredAt != b.enteredAt)
    || a.ForceReset?
  }

  /**
   * Generations are counted, an admitted call notes the current one, and a reset forgets only its own context's.
   * (A success may renew a window and close the breaker at once.)
   */
  lemma GenerationsAreCounted(h: History, b: Breaker, c: Config, a: Action, before: real, now: real)
    requires ValidConfig(c) && Tells(h, b, c, before) && before <= now && !a.Succeed?
    ensures var after := Step(b, c, a, now);
      && after.generation == b.generation + (if EndsGeneration(b, after, a) then 1 else 0)
      && (forall x :: x in after.admissions <==> (x in b.admissions && a != ForceReset(x)) || (a == Ask(x) && Admitted(b, c, now)))
      && (forall x :: x in after.admissions ==>
            after.admissions[x] == if a == Ask(x) && Admitted(b, c, now) then after.generation else b.admissions[x])
  {
  }

  /** Calls that ask one after the other. */
  function Asks(contexts: seq<nat>, now: real): seq<(Action, real)> {
    if contexts == [] then [] else [(Ask(contexts[0]), now)] + Asks(contexts[1..], now)
  }

  /** A breaker that becomes half-open lets through the first halfOpenMax calls that ask, and then none. */
  lemma {:induction false} ProbesAreLimited(b: Breaker, c: Config, contexts: seq<nat>, now: real)
    requires ValidConfig(c) && b.state != Closed && Check(b, c, now).state == HalfOpen && Check(b, c, now).attempts <= c.halfOpenMax
    ensures Admitted(After(b, c, Asks(contexts, now)), c, now) <==> Check(b, c, now).attempts + |contexts| < c.halfOpenMax
    decreases |contexts|
  {
    if contexts != [] {
      var next := Step(b, c, Ask(contexts[0]), now);
      assert Asks(contexts, now)[1..] == Asks(contexts[1..], now);
      ProbesAreLimited(next, c, contexts[1..], now);
    }
  }
}
