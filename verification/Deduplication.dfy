/** Usage reports are delivered at least once and counted once. */
module Deduplication {
  import opened Prelude
  import opened Ledger
  import opened Usage
  import opened Accounting

  predicate Apart(events: seq<Event>, i: int, j: int)
    requires 0 <= i < j < |events|
  {
    events[i].id != events[j].id
  }

  /** The key of the event table. */
  ghost predicate DistinctIds(events: seq<Event>) {
    forall i, j {:trigger Apart(events, i, j)} :: 0 <= i < j < |events| ==> Apart(events, i, j)
  }

  function IdsOf(events: seq<Event>): set<EventId> {
    set e | e in events :: e.id
  }

  /** Events are only ever added, under identifiers that are not there yet. */
  ghost predicate Extends(before: seq<Event>, after: seq<Event>) {
    before <= after && (DistinctIds(before) ==> DistinctIds(after))
  }

  lemma {:induction false} AppendExtends(events: seq<Event>, e: Event)
    requires FindEvent(events, e.id).None?
    ensures Extends(events, events + [e])
  {
    var all := events + [e];
    if DistinctIds(events) {
      forall i, j | 0 <= i < j < |all| ensures Apart(all, i, j) {
        assert j < |events| ==> Apart(events, i, j);
      }
    }
  }

  lemma RecordExtends(sys: System, invocation: Id, id: EventId, report: Report, kind: Kind, evidence: Option<Evidence>,
                      allowTerminal: bool)
    requires Record(sys, invocation, id, report, kind, evidence, allowTerminal).Success?
    ensures Extends(sys.events, Record(sys, invocation, id, report, kind, evidence, allowTerminal).value.events)
  {
    var next := Record(sys, invocation, id, report, kind, evidence, allowTerminal).value;
    if next.events != sys.events {
      AppendExtends(sys.events, next.events[|sys.events|]);
    }
  }

  lemma ReconcileExtends(sys: System, invocation: Id, id: EventId, report: Report, evidence: Evidence)
    requires Valid(sys.books) && Reconcile(sys, invocation, id, report, evidence).Success?
    ensures Extends(sys.events, Reconcile(sys, invocation, id, report, evidence).value.events)
  {
    RecordExtends(sys, invocation, id, report, Snapshot, Some(evidence), true);
  }

  lemma FinishExtends(sys: System, invocation: Id, status: AttemptStatus, report: Option<Report>, evidence: Evidence)
    requires Valid(sys.books) && Finish(sys, invocation, status, report, evidence).Success?
    ensures Extends(sys.events, Finish(sys, invocation, status, report, evidence).value.events)
  {
    var given := report.Some? && !report.value.Empty();
    var usage := if given then Normalize(report.value) else None;
    if sys.attempts[invocation].status != Running {
      FinishLateExtends(sys, invocation, usage, evidence);
    } else if usage.Some? {
      RecordExtends(sys, invocation, FinalOf(invocation), usage.value, Snapshot, None, false);
    }
  }

  lemma FinishLateExtends(sys: System, invocation: Id, usage: Option<Report>, evidence: Evidence)
    requires Valid(sys.books) && invocation in sys.attempts && FinishLate(sys, invocation, usage, evidence).Success?
    ensures Extends(sys.events, FinishLate(sys, invocation, usage, evidence).value.events)
  {
    if usage.Some? && Reconcile(sys, invocation, LateFinalOf(invocation), usage.value, evidence).Success? {
      ReconcileExtends(sys, invocation, LateFinalOf(invocation), usage.value, evidence);
    }
  }

  lemma StartExtends(sys: System, task: Id, id: Id)
    requires StartAttempt(sys, task, id).Success?
    ensures Extends(sys.events, StartAttempt(sys, task, id).value.events)
  {
    if NeedsBaseline(NoteFirst(sys, task), task) {
      AppendExtends(sys.events, BaselineEvent(task, Normalize(sys.tasks[task].usage.value).value));
    }
  }

  lemma PartialExtends(sys: System, invocation: Id, report: Report)
    requires RecordPartial(sys, invocation, report).Success?
    ensures Extends(sys.events, RecordPartial(sys, invocation, report).value.events)
  {
    var usage := Normalize(report).value;
    if FindEvent(sys.events, PartialOf(invocation, usage)).Some? || sys.attempts[invocation].status == Running {
      RecordExtends(sys, invocation, PartialOf(invocation, usage), usage, Snapshot, None, false);
    }
  }

  lemma PerformExtends(sys: System, a: Accounting.Action)
    requires Inv(sys) && Perform(sys, a).Success?
    ensures Extends(sys.events, Perform(sys, a).value.events)
  {
    match a
    case Start(task, id) => StartExtends(sys, task, id);
    case Consume(invocation, id, report, kind, evidence) => RecordExtends(sys, invocation, id, report, kind, evidence, false);
    case Partial(task, invocation, report) =>
      if invocation in sys.attempts {
        PartialExtends(sys, invocation, report);
      } else {
        StartExtends(sys, task, invocation);
        PartialExtends(StartAttempt(sys, task, invocation).value, invocation, report);
      }
    case Close(invocation, status, report, evidence) => FinishExtends(sys, invocation, status, report, evidence);
    case Confirm(id, actual, evidence) =>
      if id in sys.attempts {
        ReconcileExtends(sys, id, ReconcileOf(id), Report(None, None, Some(actual)), evidence);
      }
    case _ =>
  }

  /** In every run events are only added, and no identifier is stored twice. */
  lemma {:induction false} RunStoresEachIdOnce(trace: seq<System>, actions: seq<Accounting.Action>, n: nat, m: nat)
    requires IsRun(trace, actions) && n <= m <= |actions|
    ensures trace[n].events <= trace[m].events && DistinctIds(trace[m].events)
  {
    if m > 0 {
      RunKeepsInv(trace, actions, m - 1);
      assert Step(trace[m - 1], actions[m - 1], trace[m]);
      if Perform(trace[m - 1], actions[m - 1]).Success? {
        PerformExtends(trace[m - 1], actions[m - 1]);
      }
      RunStoresEachIdOnce(trace, actions, if n < m then n else m - 1, m - 1);
    }
  }

  // ----- Repeated reports ---------------------------------------------------------------------

  lemma {:induction false} FindsDistinct(events: seq<Event>, e: Event)
    requires DistinctIds(events) && e in events
    ensures FindEvent(events, e.id) == Some(e)
  {
    var i :| 0 <= i < |events| && events[i] == e;
    var found := FindEvent(events, e.id).value;
    var j :| 0 <= j < |events| && events[j] == found;
    assert i < j ==> Apart(events, i, j);
    assert j < i ==> Apart(events, j, i);
  }

  /** The event says what the report says. */
  predicate Says(e: Event, invocation: Id, report: Report, kind: Kind, evidence: Option<Evidence>) {
    e.invocation == Some(invocation) && e.kind == kind && e.evidence == evidence && Normalize(report) == Some(e.reported)
  }

  /** A report under a stored identifier is answered when it says the same, and refused otherwise; nothing changes. */
  lemma StoredReportDecides(sys: System, e: Event, invocation: Id, report: Report, kind: Kind, evidence: Option<Evidence>,
                            allowTerminal: bool)
    requires DistinctIds(sys.events) && e in sys.events
    requires invocation in sys.attempts && Normalize(report).Some?
    ensures var r := Record(sys, invocation, e.id, report, kind, evidence, allowTerminal);
      if Says(e, invocation, report, kind, evidence) then r == Success(sys) else r == Failure(Conflict)
  {
    FindsDistinct(sys.events, e);
  }

  /** An accepted report is stored as it was given. */
  lemma AcceptedReportIsStored(sys: System, invocation: Id, id: EventId, report: Report, kind: Kind, evidence: Option<Evidence>,
                               allowTerminal: bool)
    requires Record(sys, invocation, id, report, kind, evidence, allowTerminal).Success?
    ensures invocation in sys.attempts && Normalize(report).Some?
    ensures exists e :: e in Record(sys, invocation, id, report, kind, evidence, allowTerminal).value.events && e.id == id && Says(e, invocation, report, kind, evidence)
  {
    var next := Record(sys, invocation, id, report, kind, evidence, allowTerminal).value;
    if next.events != sys.events {
      assert next.events[|sys.events|] in next.events;
    }
  }

  ghost function Consumed(sys: System, a: Accounting.Action): Outcome
    requires a.Consume?
  {
    Record(sys, a.invocation, a.event, a.report, a.kind, a.proof, false)
  }

  predicate SameReport(a: Accounting.Action, b: Accounting.Action)
    requires a.Consume? && b.Consume?
  {
    b.invocation == a.invocation && b.kind == a.kind && b.proof == a.proof && Normalize(b.report) == Normalize(a.report)
  }

  /**
   * Once a report is accepted, whatever arrives under its identifier at any later point of the run changes nothing:
   * the same report succeeds, whether the invocation is still running or not, and any other is refused.
   */
  lemma RepeatedDeliveryChangesNothing(trace: seq<System>, actions: seq<Accounting.Action>, n: nat, m: nat, again: Accounting.Action)
    requires IsRun(trace, actions) && n < m <= |actions| && actions[n].Consume? && Consumed(trace[n], actions[n]).Success?
    requires again.Consume? && again.event == actions[n].event
    requires again.invocation in trace[m].attempts && Normalize(again.report).Some?
    ensures Consumed(trace[m], again) == if SameReport(actions[n], again) then Success(trace[m]) else Failure(Conflict)
  {
    var a := actions[n];
    RunKeepsInv(trace, actions, n);
    assert Step(trace[n], a, trace[n + 1]);
    AcceptedReportIsStored(trace[n], a.invocation, a.event, a.report, a.kind, a.proof, false);
    RunStoresEachIdOnce(trace, actions, n + 1, m);
    var e :| e in trace[n + 1].events && e.id == a.event && Says(e, a.invocation, a.report, a.kind, a.proof);
    assert e in trace[m].events;
    StoredReportDecides(trace[m], e, again.invocation, again.report, again.kind, again.proof, false);
  }

  /** The invocation of an accepted report stays, so that the same report can be delivered again. */
  lemma InvocationStays(trace: seq<System>, actions: seq<Accounting.Action>, n: nat, m: nat)
    requires IsRun(trace, actions) && n < m <= |actions| && actions[n].Consume? && Consumed(trace[n], actions[n]).Success?
    ensures actions[n].invocation in trace[m].attempts && Normalize(actions[n].report).Some?
  {
    var a := actions[n];
    RunKeepsInv(trace, actions, n);
    assert Step(trace[n], a, trace[n + 1]);
    AcceptedReportIsStored(trace[n], a.invocation, a.event, a.report, a.kind, a.proof, false);
    RunStoresEachIdOnce(trace, actions, n + 1, m);
    var e :| e in trace[n + 1].events && e.id == a.event && Says(e, a.invocation, a.report, a.kind, a.proof);
    assert e in trace[m].events;
    RunKeepsInv(trace, actions, m);
    StoredInvocationExists(trace[m], e);
  }

  lemma StoredInvocationExists(sys: System, e: Event)
    requires EventsBelong(sys) && e in sys.events && e.invocation.Some?
    ensures e.invocation.value in sys.attempts
  {
    var i :| 0 <= i < |sys.events| && sys.events[i] == e;
    assert BelongsTo(sys.events[i], sys.attempts);
  }

  /**
   * A report under a new identifier is accepted exactly when it can be read, its invocation exists and still takes
   * reports, and no counter it mentions falls below the total without evidence.
   */
  lemma {:induction false} NewReportIsAcceptedExactly(sys: System, invocation: Id, id: EventId, report: Report, kind: Kind,
                                   evidence: Option<Evidence>, allowTerminal: bool)
    requires id !in IdsOf(sys.events)
    ensures Record(sys, invocation, id, report, kind, evidence, allowTerminal).Success? <==>
      && Normalize(report).Some? && invocation in sys.attempts
      && (sys.attempts[invocation].status == Running || allowTerminal)
      && (evidence.Some? || kind != Snapshot || forall c :: Normalize(report).value.Get(c).Some? ==>
            Normalize(report).value.Get(c).value >= TotalOf(sys.events, Some(invocation)).Get(c))
  {
    FoundMeans(sys.events, id);
    if Normalize(report).Some? && invocation in sys.attempts {
      FallsExactly(kind, Normalize(report).value, TotalOf(sys.events, Some(invocation)));
    }
  }

  lemma FallsExactly(kind: Kind, usage: Report, total: Counters)
    requires Normal(usage)
    ensures Falls(Added(kind, usage, total)) <==>
      kind == Snapshot && exists c :: usage.Get(c).Some? && usage.Get(c).value < total.Get(c)
  {
    var delta := Added(kind, usage, total);
    if kind != Snapshot {
      DeltaNeverFalls(usage, delta);
    } else {
      assert delta.input < 0 ==> usage.Get(Input).Some? && usage.Get(Input).value < total.Get(Input);
      assert delta.output < 0 ==> usage.Get(Output).Some? && usage.Get(Output).value < total.Get(Output);
      assert delta.total < 0 ==> usage.Get(Total).Some? && usage.Get(Total).value < total.Get(Total);
    }
  }

  // ----- Totals from the reports alone ----------------------------------------------------------

  /** A delta report as it arrives. */
  datatype Delivery = Delivery(invocation: Id, id: EventId, report: Report)

  /** The system after the deliveries; what is refused rolls back. */
  ghost function Delivered(sys: System, ds: seq<Delivery>): System {
    if ds == [] then sys
    else
      var before, d := Delivered(sys, ds[..|ds| - 1]), ds[|ds| - 1];
      var r := Record(before, d.invocation, d.id, d.report, Delta, None, false);
      if r.Success? then r.value else before
  }

  /** A report that can be read, of an invocation that takes reports. */
  predicate Readable(d: Delivery, running: set<Id>) {
    Normalize(d.report).Some? && d.invocation in running
  }

  function Used(ds: seq<Delivery>, running: set<Id>): set<EventId> {
    set d | d in ds && Readable(d, running) :: d.id
  }

  /** The sum over the distinct identifiers reported, from the list of deliveries alone: the first report of each counts. */
  function Counted(ds: seq<Delivery>, running: set<Id>, taken: set<EventId>, invocation: Id, c: Counter): int {
    if ds == [] then 0
    else
      var before, d := ds[..|ds| - 1], ds[|ds| - 1];
      Counted(before, running, taken, invocation, c) +
      if d.invocation == invocation && Readable(d, running) && d.id !in taken + Used(before, running)
      then OrZero(Normalize(d.report).value.Get(c)) else 0
  }

  ghost function RunningOf(sys: System): set<Id> {
    set id | id in sys.attempts && sys.attempts[id].status == Running
  }

  lemma UsedStep(ds: seq<Delivery>, running: set<Id>)
    requires ds != []
    ensures Used(ds, running) == Used(ds[..|ds| - 1], running) + if Readable(ds[|ds| - 1], running) then {ds[|ds| - 1].id} else {}
  {
    assert ds == ds[..|ds| - 1] + [ds[|ds| - 1]];
  }

  lemma IdsStep(events: seq<Event>, e: Event)
    ensures IdsOf(events + [e]) == IdsOf(events) + {e.id}
  {
    assert e in events + [e];
  }

  /** However often and in whatever order deltas are delivered, an invocation's total counts each identifier once. */
  lemma {:induction false} DeliveriesCountOnce(sys: System, ds: seq<Delivery>, invocation: Id, c: Counter)
    ensures var after := Delivered(sys, ds);
      && after.attempts == sys.attempts
      && IdsOf(after.events) == IdsOf(sys.events) + Used(ds, RunningOf(sys))
      && TotalOf(after.events, Some(invocation)).Get(c)
         == TotalOf(sys.events, Some(invocation)).Get(c) + Counted(ds, RunningOf(sys), IdsOf(sys.events), invocation, c)
  {
    if ds != [] {
      var before, d := Delivered(sys, ds[..|ds| - 1]), ds[|ds| - 1];
      DeliveriesCountOnce(sys, ds[..|ds| - 1], invocation, c);
      UsedStep(ds, RunningOf(sys));
      OneDelivery(before, d, invocation, c);
    }
  }

  lemma {:induction false} OneDelivery(sys: System, d: Delivery, invocation: Id, c: Counter)
    ensures var r := Record(sys, d.invocation, d.id, d.report, Delta, None, false);
      var after := if r.Success? then r.value else sys;
      var counts := Readable(d, RunningOf(sys)) && d.id !in IdsOf(sys.events);
      && after.attempts == sys.attempts
      && IdsOf(after.events) == IdsOf(sys.events) + (if Readable(d, RunningOf(sys)) then {d.id} else {})
      && TotalOf(after.events, Some(invocation)).Get(c) == TotalOf(sys.events, Some(invocation)).Get(c)
           + if counts && d.invocation == invocation then OrZero(Normalize(d.report).value.Get(c)) else 0
  {
    FoundMeans(sys.events, d.id);
    if Readable(d, RunningOf(sys)) && d.id !in IdsOf(sys.events) {
      var usage := Normalize(d.report).value;
      var delta := Added(Delta, usage, TotalOf(sys.events, Some(d.invocation)));
      DeltaNeverFalls(usage, delta);
      var e := Event(d.id, Some(d.invocation), sys.attempts[d.invocation].task, Delta, usage, delta, None);
      IdsStep(sys.events, e);
      assert (sys.events + [e])[..|sys.events|] == sys.events;
    }
  }

  lemma {:induction false} FoundMeans(events: seq<Event>, id: EventId)
    ensures FindEvent(events, id).Some? <==> id in IdsOf(events)
  {
  }

  lemma DeltaNeverFalls(usage: Report, delta: Counters)
    requires Normal(usage) && forall c :: delta.Get(c) == OrZero(usage.Get(c))
    ensures !Falls(delta)
  {
    assert delta.Get(Input) >= 0 && delta.Get(Output) >= 0 && delta.Get(Total) >= 0;
  }
}
