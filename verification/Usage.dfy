/** Consumption events: cumulative snapshots and deltas, and what their sum means. */
module Usage {
  import opened Prelude
  import opened Ledger

  datatype Counter = Input | Output | Total

  datatype Counters = Counters(input: int, output: int, total: int) {
    function Get(c: Counter): int {
      match c
      case Input => input
      case Output => output
      case Total => total
    }

    function Plus(other: Counters): Counters {
      Counters(input + other.input, output + other.output, total + other.total)
    }
  }

  const Zero := Counters(0, 0, 0)

  lemma SameCounters(left: Counters, right: Counters)
    requires forall c :: left.Get(c) == right.Get(c)
    ensures left == right
  {
    assert left.Get(Input) == right.Get(Input) && left.Get(Output) == right.Get(Output) && left.Get(Total) == right.Get(Total);
  }

  /** A usage dictionary; an absent counter is unknown, which is not zero. */
  datatype Report = Report(input: Option<int>, output: Option<int>, total: Option<int>) {
    function Get(c: Counter): Option<int> {
      match c
      case Input => input
      case Output => output
      case Total => total
    }

    predicate Empty() {
      input.None? && output.None? && total.None?
    }
  }

  function OrZero(o: Option<int>): int {
    if o.Some? then o.value else 0
  }

  /** Counters are non-negative, and a missing total is input plus output. */
  function Normalize(report: Report): (usage: Option<Report>)
    ensures usage.Some? ==> Normal(usage.value)
    ensures usage.Some? <==> !report.Empty() && forall c :: OrZero(report.Get(c)) >= 0
  {
    if report.Empty() || OrZero(report.Get(Input)) < 0 || OrZero(report.Get(Output)) < 0 || OrZero(report.Get(Total)) < 0
    then None
    else
      Some(if report.total.Some? then report
           else report.(total := Some(OrZero(report.input) + OrZero(report.output))))
  }

  ghost predicate Normal(report: Report) {
    report.total.Some? && forall c :: OrZero(report.Get(c)) >= 0
  }

  datatype Kind = Delta | Snapshot | Legacy

  /** Identifiers of events; the ones the recorder derives from an invocation never clash with others. */
  datatype EventId =
    | Given(name: string)
    | LegacyOf(task: Id)
    | FinalOf(invocation: Id)
    | LateFinalOf(invocation: Id)
    | PartialOf(invocation: Id, usage: Report)
    | ReconcileOf(invocation: Id)

  /** An event without an invocation is the baseline seeded for counters older than the event table. */
  datatype Event = Event(id: EventId, invocation: Option<Id>, task: Id, kind: Kind, reported: Report, delta: Counters, evidence: Option<Evidence>)

  /** What an event adds: a snapshot only what it reports beyond the present total. */
  function Added(kind: Kind, reported: Report, previous: Counters): (delta: Counters)
    ensures forall c :: kind == Snapshot ==> previous.Get(c) + delta.Get(c) == (if reported.Get(c).Some? then reported.Get(c).value else previous.Get(c))
    ensures forall c :: kind != Snapshot ==> delta.Get(c) == OrZero(reported.Get(c))
  {
    if kind == Snapshot then
      Counters(
        if reported.input.Some? then reported.input.value - previous.input else 0,
        if reported.output.Some? then reported.output.value - previous.output else 0,
        if reported.total.Some? then reported.total.value - previous.total else 0)
    else Counters(OrZero(reported.input), OrZero(reported.output), OrZero(reported.total))
  }

  predicate Falls(delta: Counters) {
    delta.input < 0 || delta.output < 0 || delta.total < 0
  }

  ghost function TotalOf(events: seq<Event>, invocation: Option<Id>): Counters {
    if events == [] then Zero
    else
      var before := TotalOf(events[..|events| - 1], invocation);
      if events[|events| - 1].invocation == invocation then before.Plus(events[|events| - 1].delta) else before
  }

  ghost function TaskTotal(events: seq<Event>, task: Id): Counters {
    if events == [] then Zero
    else
      var before := TaskTotal(events[..|events| - 1], task);
      if events[|events| - 1].task == task then before.Plus(events[|events| - 1].delta) else before
  }

  /** total: the loop over the rows of one invocation. */
  method SumEvents(events: seq<Event>, invocation: Option<Id>) returns (total: Counters)
    ensures total == TotalOf(events, invocation)
  {
    total := Zero;
    for i := 0 to |events|
      invariant total == TotalOf(events[..i], invocation)
    {
      assert events[..i + 1][..i] == events[..i];
      if events[i].invocation == invocation {
        total := total.Plus(events[i].delta);
      }
    }
    assert events[..|events|] == events;
  }

  // ----- Telescoping ------------------------------------------------------------------------

  /**
   * The reference meaning of a counter, from the reports alone: the last snapshot that mentioned it, plus
   * the deltas reported since.
   */
  ghost function Telescoped(events: seq<Event>, invocation: Id, c: Counter): int {
    if events == [] then 0
    else
      var e := events[|events| - 1];
      var before := Telescoped(events[..|events| - 1], invocation, c);
      if e.invocation != Some(invocation) then before
      else if e.kind == Snapshot then (if e.reported.Get(c).Some? then e.reported.Get(c).value else before)
      else before + OrZero(e.reported.Get(c))
  }

  /** How an event of an invocation came to be appended after the given events. */
  ghost predicate RecordedAfter(events: seq<Event>, e: Event) {
    && Normal(e.reported)
    && (e.invocation.Some? ==>
          e.delta == Added(e.kind, e.reported, TotalOf(events, e.invocation)) && (Falls(e.delta) ==> e.evidence.Some?))
  }

  ghost predicate RecordedAt(events: seq<Event>, i: nat)
    requires i < |events|
  {
    RecordedAfter(events[..i], events[i])
  }

  ghost predicate WellRecorded(events: seq<Event>) {
    forall i :: 0 <= i < |events| ==> RecordedAt(events, i)
  }

  lemma WellRecordedInit(events: seq<Event>)
    requires WellRecorded(events) && events != []
    ensures WellRecorded(events[..|events| - 1]) && RecordedAfter(events[..|events| - 1], events[|events| - 1])
  {
    var init := events[..|events| - 1];
    assert RecordedAt(events, |events| - 1);
    forall i | 0 <= i < |init| ensures RecordedAt(init, i) {
      assert RecordedAt(events, i);
      assert init[..i] == events[..i] && init[i] == events[i];
    }
  }

  lemma WellRecordedAppend(events: seq<Event>, e: Event)
    requires WellRecorded(events) && RecordedAfter(events, e)
    ensures WellRecorded(events + [e])
  {
    var all := events + [e];
    forall i | 0 <= i < |all| ensures RecordedAt(all, i) {
      if i < |events| {
        assert RecordedAt(events, i);
        assert all[..i] == events[..i];
      } else {
        assert all[..i] == events;
      }
    }
  }

  /** The sum of the recorded deltas is the telescoped reading of the reports, and never negative. */
  lemma {:induction false} SnapshotsTelescope(events: seq<Event>, invocation: Id, c: Counter)
    requires WellRecorded(events)
    ensures TotalOf(events, Some(invocation)).Get(c) == Telescoped(events, invocation, c) >= 0
  {
    if events != [] {
      WellRecordedInit(events);
      SnapshotsTelescope(events[..|events| - 1], invocation, c);
      assert OrZero(events[|events| - 1].reported.Get(c)) >= 0;
    }
  }

  /** A total falls only at an event that carries evidence. */
  lemma {:induction false} FallsOnlyWithEvidence(events: seq<Event>, n: nat, invocation: Id, c: Counter)
    requires WellRecorded(events) && n < |events|
    requires TotalOf(events[..n + 1], Some(invocation)).Get(c) < TotalOf(events[..n], Some(invocation)).Get(c)
    ensures events[n].invocation == Some(invocation) && events[n].kind == Snapshot && events[n].evidence.Some?
  {
    assert events[..n + 1][..n] == events[..n];
    assert RecordedAt(events, n);
    assert OrZero(events[n].reported.Get(c)) >= 0;
  }
}
