/** When the remaining write paths succeed, and what they leave behind. */
module Reporting {
  import opened Prelude
  import opened Ledger
  import opened LedgerCalls
  import opened Usage
  import opened Accounting
  import opened Deduplication
  import opened Closing

  // ----- Evidenced and late usage -------------------------------------------------------------

  lemma {:induction false} RecordedWithEvidence(sys: System, invocation: Id, id: EventId, report: Report, evidence: Evidence)
    requires Inv(sys) && invocation in sys.attempts && id !in IdsOf(sys.events) && Normalize(report).Some?
    ensures Record(sys, invocation, id, report, Snapshot, Some(evidence), true).Success?
    ensures var next := Record(sys, invocation, id, report, Snapshot, Some(evidence), true).value;
      && next.books == sys.books && TotalOf(next.events, Some(invocation)).total == Normalize(report).value.total.value >= 0
  {
    NewReportIsAcceptedExactly(sys, invocation, id, report, Snapshot, Some(evidence), true);
    RecordKeepsInv(sys, invocation, id, report, Snapshot, Some(evidence), true);
    var next := Record(sys, invocation, id, report, Snapshot, Some(evidence), true).value;
    var usage := Normalize(report).value;
    FoundMeans(sys.events, id);
    assert next.events[..|sys.events|] == sys.events;
    var e := next.events[|sys.events|];
    assert TotalOf(next.events, Some(invocation)).Get(Total) == TotalOf(sys.events, Some(invocation)).Get(Total) + e.delta.Get(Total);
    assert usage.Get(Total) == usage.total && OrZero(usage.Get(Total)) >= 0;
  }

  /** A reservation can always be brought to a total, by settling it or by correcting it. */
  lemma RepairSucceeds(books: Books, i: nat, id: Id, total: int, evidence: Evidence)
    requires Valid(books) && RowAt(books, i, id) && total >= 0
    ensures RowOf(books, id) == Some(books.reservations[i])
    ensures if books.reservations[i].state == Settled && books.reservations[i].actual != Some(total)
            then Correct(books, id, total).Success? else Settle(books, id, Some(total), Some(evidence)).Success?
  {
    SameIndex(books.reservations, books.reservations, id, i);
    SettlesExactly(books, i, Some(total), Some(evidence));
    CorrectsExactly(books, i, total);
  }

  /** New evidenced usage is accepted exactly when it can be read and the invocation is closed; it becomes the total. */
  lemma {:induction false} ReconcileSucceedsExactly(sys: System, invocation: Id, id: EventId, report: Report, evidence: Evidence)
    requires Inv(sys) && invocation in sys.attempts && id !in IdsOf(sys.events)
    ensures var r := Reconcile(sys, invocation, id, report, evidence);
      && (r.Success? <==> sys.attempts[invocation].status != Running && Normalize(report).Some?)
      && (r.Success? ==> r.value.attempts == sys.attempts)
      && (r.Success? ==> TotalOf(r.value.events, Some(invocation)).total == Normalize(report).value.total.value)
  {
    if sys.attempts[invocation].status != Running && Normalize(report).Some? {
      RecordedWithEvidence(sys, invocation, id, report, evidence);
      var next := Record(sys, invocation, id, report, Snapshot, Some(evidence), true).value;
      var index := IndexOf(next.books.reservations, invocation);
      if index.Some? {
        RepairSucceeds(next.books, index.value, invocation, TotalOf(next.events, Some(invocation)).total, evidence);
      }
    }
  }

  /** A closed invocation still takes final usage: its outcome is unknown, or it was closed without any. */
  predicate TakesLate(attempt: Attempt) {
    attempt.status == UnknownOutcome || attempt.usage.None?
  }

  /** A final report of a closed invocation where late usage is not taken any more: it only may agree. */
  lemma {:induction false} LateReportAgrees(sys: System, invocation: Id, status: AttemptStatus, report: Option<Report>, evidence: Evidence)
    requires Inv(sys) && invocation in sys.attempts && sys.attempts[invocation].status != Running && Final(report).Some?
    ensures var r := Finish(sys, invocation, status, report, evidence);
      var usage, total := Final(report).value, TotalOf(sys.events, Some(invocation));
      && (!TakesLate(sys.attempts[invocation]) ==> Answers(sys, r, sys.attempts[invocation].usage == Some(usage)))
      && (TakesLate(sys.attempts[invocation]) && LateFinalOf(invocation) in IdsOf(sys.events) ==>
            Answers(sys, r, FindEvent(sys.events, LateFinalOf(invocation)).value.reported == usage))
      && (TakesLate(sys.attempts[invocation]) && LateFinalOf(invocation) !in IdsOf(sys.events) ==>
            HasEvidence(sys.events, invocation, LateFinalOf(invocation)) ==> Answers(sys, r, !Disagrees(usage, total)))
  {
    FoundMeans(sys.events, LateFinalOf(invocation));
  }

  /**
   * Where late usage is taken and neither a late report nor evidence came first, the report succeeds exactly when it is
   * not below the total, and it becomes the total, to which the reservation is settled or corrected.
   */
  lemma {:induction false} LateReportSettles(sys: System, invocation: Id, status: AttemptStatus, report: Option<Report>, evidence: Evidence)
    requires Inv(sys) && invocation in sys.attempts && sys.attempts[invocation].status != Running && Final(report).Some?
    requires TakesLate(sys.attempts[invocation]) && LateFinalOf(invocation) !in IdsOf(sys.events)
    requires !HasEvidence(sys.events, invocation, LateFinalOf(invocation))
    ensures var r := Finish(sys, invocation, status, report, evidence);
      var usage := Final(report).value;
      && (r.Success? <==> !Below(usage, TotalOf(sys.events, Some(invocation))))
      && (r.Success? ==> TotalOf(r.value.events, Some(invocation)).total == usage.total.value)
      && (r.Success? ==> forall i :: RowAt(sys.books, i, invocation) ==> ShowsAt(r.value.books, i, invocation, usage.total.value))
  {
    var usage := Final(report).value;
    FoundMeans(sys.events, LateFinalOf(invocation));
    NormalTwice(report.value);
    LateReconcile(sys, invocation, usage, evidence);
    LateIsReconciled(sys, invocation, usage, evidence);
  }

  lemma {:induction false} LateIsReconciled(sys: System, invocation: Id, usage: Report, evidence: Evidence)
    requires Valid(sys.books) && invocation in sys.attempts && TakesLate(sys.attempts[invocation])
    requires FindEvent(sys.events, LateFinalOf(invocation)).None? && !HasEvidence(sys.events, invocation, LateFinalOf(invocation))
    ensures FinishLate(sys, invocation, Some(usage), evidence)
         == if Below(usage, TotalOf(sys.events, Some(invocation))) then Failure(Decrease)
            else Reconcile(sys, invocation, LateFinalOf(invocation), usage, evidence)
  {
  }

  lemma {:induction false} LateReconcile(sys: System, invocation: Id, usage: Report, evidence: Evidence)
    requires Inv(sys) && invocation in sys.attempts && sys.attempts[invocation].status != Running
    requires LateFinalOf(invocation) !in IdsOf(sys.events) && Normalize(usage) == Some(usage)
    ensures var r := Reconcile(sys, invocation, LateFinalOf(invocation), usage, evidence);
      && r.Success? && TotalOf(r.value.events, Some(invocation)).total == usage.total.value
      && forall i :: RowAt(sys.books, i, invocation) ==> ShowsAt(r.value.books, i, invocation, usage.total.value)
  {
    ReconcileSucceedsExactly(sys, invocation, LateFinalOf(invocation), usage, evidence);
    forall i | RowAt(sys.books, i, invocation)
      ensures ShowsAt(Reconcile(sys, invocation, LateFinalOf(invocation), usage, evidence).value.books, i, invocation, usage.total.value)
    {
      ReconcileSettles(sys, invocation, LateFinalOf(invocation), usage, evidence, i);
    }
  }

  lemma NormalTwice(report: Report)
    requires Normalize(report).Some?
    ensures Normalize(Normalize(report).value) == Normalize(report)
  {
    var usage := Normalize(report).value;
    assert OrZero(usage.Get(Input)) >= 0 && OrZero(usage.Get(Output)) >= 0 && OrZero(usage.Get(Total)) >= 0;
  }

  /** The call succeeds exactly when it agrees, and changes nothing either way. */
  ghost predicate Answers(sys: System, r: Outcome, agrees: bool) {
    if agrees then r == Success(sys) else r.Failure?
  }

  // ----- Partial snapshots ----------------------------------------------------------------------

  /** A running invocation's new partial snapshot raises each counter it mentions to what it says. */
  lemma {:induction false} PartialCounts(sys: System, invocation: Id, report: Report, c: Counter)
    requires invocation in sys.attempts && sys.attempts[invocation].status == Running && Normalize(report).Some?
    requires PartialOf(invocation, Normalize(report).value) !in IdsOf(sys.events)
    ensures var r := RecordPartial(sys, invocation, report);
      var usage := Normalize(report).value;
      && (r.Success? <==> !Below(usage, TotalOf(sys.events, Some(invocation))))
      && (r.Success? && usage.Get(c).Some? ==> TotalOf(r.value.events, Some(invocation)).Get(c) == usage.Get(c).value)
  {
    var usage := Normalize(report).value;
    NormalTwice(report);
    FoundMeans(sys.events, PartialOf(invocation, usage));
    BelowMeansFalls(usage, TotalOf(sys.events, Some(invocation)));
    if RecordPartial(sys, invocation, report).Success? {
      var next := RecordPartial(sys, invocation, report).value;
      assert next.events[..|sys.events|] == sys.events;
    }
  }

  /** After that invocation closed, a snapshot that adds nothing is ignored and any other is refused. */
  lemma {:induction false} PartialComesTooLate(sys: System, invocation: Id, report: Report)
    requires invocation in sys.attempts && sys.attempts[invocation].status != Running && Normalize(report).Some?
    requires PartialOf(invocation, Normalize(report).value) !in IdsOf(sys.events)
    ensures Answers(sys, RecordPartial(sys, invocation, report),
                    forall c :: Normalize(report).value.Get(c).Some? ==>
                      Normalize(report).value.Get(c).value <= TotalOf(sys.events, Some(invocation)).Get(c))
  {
    FoundMeans(sys.events, PartialOf(invocation, Normalize(report).value));
  }

  // ----- New invocations, recovery and the counter column -------------------------------------

  /** Counters the task had before there were events: neither empty nor inherited from another task. */
  predicate HasHistory(sys: System, task: Id) {
    && task in sys.tasks && sys.tasks[task].usage.Some? && sys.tasks[task].usage != Some(Report(None, None, None))
    && sys.tasks[task].origin != Inherited && forall i :: 0 <= i < |sys.events| ==> sys.events[i].task != task
  }

  /**
   * A new invocation runs without usage, and its task's counters from before the events, if any, become one event
   * that belongs to no invocation; no other row and no counter changes.
   */
  lemma StartBegins(sys: System, task: Id, id: Id)
    requires id !in sys.attempts
    ensures var r := StartAttempt(sys, task, id);
      && (r.Success? <==> (HasHistory(sys, task) ==>
            Normalize(sys.tasks[task].usage.value).Some? && LegacyOf(task) !in IdsOf(sys.events)))
      && (r.Success? ==>
            && r.value.attempts == sys.attempts[id := Attempt(task, Running, None)]
            && r.value.books == sys.books && r.value.tasks == sys.tasks
            && r.value.events == sys.events + if HasHistory(sys, task) then [Baseline(task, sys.tasks[task].usage.value)] else [])
  {
    FoundMeans(sys.events, LegacyOf(task));
    HistoryMeans(sys, task);
    HistoryMeans(NoteFirst(sys, task), task);
  }

  /** What the task's counters say, with a missing total filled in. */
  function Baseline(task: Id, usage: Report): Event {
    var input, output := OrZero(usage.input), OrZero(usage.output);
    var total := if usage.total.Some? then usage.total.value else input + output;
    Event(LegacyOf(task), None, task, Legacy, usage.(total := Some(total)), Counters(input, output, total), None)
  }

  lemma HistoryMeans(sys: System, task: Id)
    ensures HasHistory(sys, task) <==> NeedsBaseline(sys, task)
  {
  }

  /** Recovery leaves no invocation of the tree running, and touches no other. */
  lemma RecoverInterrupts(sys: System, tree: set<Id>, reconcile: bool, id: Id)
    requires Inv(sys) && id in sys.attempts
    ensures var after := Recover(sys, tree, reconcile);
      && id in after.attempts && after.attempts[id].task == sys.attempts[id].task && after.attempts[id].usage == sys.attempts[id].usage
      && after.attempts[id].status
         == if sys.attempts[id].task in tree && sys.attempts[id].status == Running then UnknownOutcome else sys.attempts[id].status
  {
  }

  /**
   * Reserved tokens of the tree become unknown exactly when the run is held for reconciliation or an invocation of the
   * tree is running or of unknown outcome; settled rows and other trees' rows stay.
   */
  lemma RecoverHolds(sys: System, tree: set<Id>, reconcile: bool, i: nat)
    requires Inv(sys) && i < |sys.books.reservations|
    ensures var before, after := sys.books.reservations, Recover(sys, tree, reconcile).books.reservations;
      && |after| == |before|
      && after[i] == if before[i].task in tree && before[i].state == Reserved && (reconcile || Unresolved(sys, tree))
                     then before[i].(state := Unknown, actual := None) else before[i]
  {
    assert Unresolved(sys, tree) <==> exists id :: id in sys.attempts && Accounting.Interrupted(sys.attempts[id], tree);
  }

  predicate Unresolved(sys: System, tree: set<Id>) {
    exists id :: id in sys.attempts && sys.attempts[id].task in tree && sys.attempts[id].status in {Running, UnknownOutcome}
  }

  /** No event and no invocation of the task is on record. */
  ghost predicate NoConsumption(sys: System, task: Id) {
    && (forall i :: 0 <= i < |sys.events| ==> sys.events[i].task != task)
    && (forall id :: id in sys.attempts ==> sys.attempts[id].task != task)
  }

  /** The old counter update works exactly for tasks that are neither enrolled nor archived and have no consumption on record. */
  lemma UpdatesExactly(sys: System, task: Id, report: Report)
    ensures UpdateUsage(sys, task, report).Success? <==>
      && OrZero(report.input) >= 0 && OrZero(report.output) >= 0 && OrZero(report.total) >= 0
      && task in sys.tasks && !sys.tasks[task].enrolled && sys.tasks[task].origin != Archived && NoConsumption(sys, task)
  {
    assert Touched(sys, task) <==> !NoConsumption(sys, task);
  }

  /** It adds what is reported, and input plus output where no total is. */
  lemma UpdateAdds(sys: System, task: Id, report: Report)
    requires UpdateUsage(sys, task, report).Success?
    ensures var after := UpdateUsage(sys, task, report).value;
      && task in sys.tasks && task in after.tasks && after == sys.(tasks := sys.tasks[task := after.tasks[task]])
      && CountersOf(after.tasks[task]).input == CountersOf(sys.tasks[task]).input + OrZero(report.input)
      && CountersOf(after.tasks[task]).output == CountersOf(sys.tasks[task]).output + OrZero(report.output)
      && CountersOf(after.tasks[task]).total == CountersOf(sys.tasks[task]).total
           + (if report.total.Some? then report.total.value else OrZero(report.input) + OrZero(report.output))
  {
  }
}
