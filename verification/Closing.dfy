/** What closing or reconciling an invocation does to its reservation, its account and its row. */
module Closing {
  import opened Prelude
  import opened Ledger
  import opened LedgerCalls
  import opened Usage
  import opened Accounting

  /** The row of a running invocation is open. */
  lemma RunningRowIsOpen(sys: System, i: nat, invocation: Id)
    requires Inv(sys) && invocation in sys.attempts && sys.attempts[invocation].status == Running && RowAt(sys.books, i, invocation)
    ensures sys.books.reservations[i].state != Settled && RowOf(sys.books, invocation) == Some(sys.books.reservations[i])
  {
    assert RowMatches(sys, sys.books.reservations[i]);
    SameIndex(sys.books.reservations, sys.books.reservations, invocation, i);
  }

  /** What a final report says: nothing when it is absent or empty. */
  function Final(report: Option<Report>): Option<Report> {
    if report.Some? && !report.value.Empty() then Normalize(report.value) else None
  }

  /** The invocation is closed with that status and usage, and no other changes. */
  ghost predicate ClosedAs(before: System, after: System, invocation: Id, status: AttemptStatus, usage: Option<Report>) {
    && invocation in before.attempts && after.attempts.Keys == before.attempts.Keys
    && after.attempts[invocation] == before.attempts[invocation].(status := status, usage := usage)
    && forall id :: id in before.attempts && id != invocation ==> after.attempts[id] == before.attempts[id]
  }

  /** A new snapshot that mentions the total makes it the total. */
  lemma {:induction false} RecordedTotal(sys: System, invocation: Id, id: EventId, usage: Report)
    requires Normal(usage) && FindEvent(sys.events, id).None?
    requires Record(sys, invocation, id, usage, Snapshot, None, false).Success?
    ensures TotalOf(Record(sys, invocation, id, usage, Snapshot, None, false).value.events, Some(invocation)).total == usage.total.value
  {
    NormalIsNormalized(usage);
    var total := TotalOf(sys.events, Some(invocation));
    var delta := Added(Snapshot, usage, total);
    var e := Event(id, Some(invocation), sys.attempts[invocation].task, Snapshot, usage, delta, None);
    OneMoreEvent(sys.events, e, invocation);
    assert usage.Get(Total) == usage.total && total.Get(Total) + delta.Get(Total) == usage.total.value;
  }

  lemma NormalIsNormalized(usage: Report)
    requires Normal(usage)
    ensures Normalize(usage) == Some(usage)
  {
    assert usage.Get(Total).Some?;
  }

  lemma {:induction false} OneMoreEvent(events: seq<Event>, e: Event, invocation: Id)
    requires e.invocation == Some(invocation)
    ensures TotalOf(events + [e], Some(invocation)).total == TotalOf(events, Some(invocation)).total + e.delta.total
  {
    assert (events + [e])[..|events|] == events;
  }

  /** Recording leaves books and invocations alone, and totals are never negative. */
  lemma {:induction false} RecordedFinal(sys: System, invocation: Id, usage: Report)
    requires Inv(sys) && Normal(usage) && Record(sys, invocation, FinalOf(invocation), usage, Snapshot, None, false).Success?
    ensures var next := Record(sys, invocation, FinalOf(invocation), usage, Snapshot, None, false).value;
      && next.books == sys.books && next.attempts == sys.attempts
      && TotalOf(next.events, Some(invocation)).total >= 0
  {
    var next := Record(sys, invocation, FinalOf(invocation), usage, Snapshot, None, false).value;
    RecordKeepsInv(sys, invocation, FinalOf(invocation), usage, Snapshot, None, false);
    SnapshotsTelescope(next.events, invocation, Total);
  }

  /**
   * Finishing a running invocation closes it with the given status and usage. With usage its open reservation is
   * settled at the total of its events, which is the reported total; without usage it becomes an unknown liability.
   * Nothing else moves.
   */
  lemma {:induction false} FinishSettles(sys: System, invocation: Id, status: AttemptStatus, report: Option<Report>, evidence: Evidence, i: nat)
    requires Inv(sys) && invocation in sys.attempts && sys.attempts[invocation].status == Running
    requires RowAt(sys.books, i, invocation)
    requires Finish(sys, invocation, status, report, evidence).Success?
    ensures var after := Finish(sys, invocation, status, report, evidence).value;
      && sys.books.reservations[i].scope in sys.books.accounts
      && ClosedAs(sys, after, invocation, status, Final(report))
      && match Final(report)
         case Some(usage) =>
           && usage.total.Some? && SettledAt(sys.books, after.books, i, TotalOf(after.events, Some(invocation)).total)
           && (FindEvent(sys.events, FinalOf(invocation)).None? ==> TotalOf(after.events, Some(invocation)).total == usage.total.value)
         case None => UnknownAt(sys.books, after.books, i) && after.events == sys.events
  {
    RunningRowIsOpen(sys, i, invocation);
    match Final(report)
    case Some(usage) =>
      if FindEvent(sys.events, FinalOf(invocation)).None? {
        RecordedTotal(sys, invocation, FinalOf(invocation), usage);
      }
      RecordedFinal(sys, invocation, usage);
      var next := Record(sys, invocation, FinalOf(invocation), usage, Snapshot, None, false).value;
      SettleMeans(sys.books, i, Some(TotalOf(next.events, Some(invocation)).total), None);
    case None =>
      SettleMeans(sys.books, i, None, None);
  }

  /** An invocation without a reservation is closed all the same, and the ledger is left alone. */
  lemma FinishCloses(sys: System, invocation: Id, status: AttemptStatus, report: Option<Report>, evidence: Evidence)
    requires Inv(sys) && invocation in sys.attempts && sys.attempts[invocation].status == Running
    requires forall i :: 0 <= i < |sys.books.reservations| ==> sys.books.reservations[i].id != invocation
    requires Finish(sys, invocation, status, report, evidence).Success?
    ensures var after := Finish(sys, invocation, status, report, evidence).value;
      ClosedAs(sys, after, invocation, status, Final(report)) && after.books == sys.books
  {
  }

  /** The reservation of a running invocation, if there is one, can be settled. */
  lemma OpenRowSettles(sys: System, invocation: Id, actual: Option<int>)
    requires Inv(sys) && invocation in sys.attempts && sys.attempts[invocation].status == Running
    requires (actual.Some? ==> actual.value >= 0) && RowOf(sys.books, invocation).Some?
    ensures Settle(sys.books, invocation, actual, None).Success?
  {
    var i := IndexOf(sys.books.reservations, invocation).value;
    RunningRowIsOpen(sys, i, invocation);
    SettleMeans(sys.books, i, actual, None);
  }

  /**
   * A running invocation can be finished exactly when its usage can be read and does not fall below what it reported,
   * unless somebody else has used the identifier of its final report.
   */
  lemma {:induction false} FinishSucceedsExactly(sys: System, invocation: Id, status: AttemptStatus, report: Option<Report>, evidence: Evidence)
    requires Inv(sys) && invocation in sys.attempts && sys.attempts[invocation].status == Running
    requires FindEvent(sys.events, FinalOf(invocation)).None?
    ensures Finish(sys, invocation, status, report, evidence).Success? <==>
      (report.Some? && !report.value.Empty() ==>
         Final(report).Some? && !Below(Final(report).value, TotalOf(sys.events, Some(invocation))))
  {
    if Final(report).Some? {
      FinalIsRecordedExactly(sys, invocation, Final(report).value);
      if !Below(Final(report).value, TotalOf(sys.events, Some(invocation))) {
        RecordedFinal(sys, invocation, Final(report).value);
        var next := Record(sys, invocation, FinalOf(invocation), Final(report).value, Snapshot, None, false).value;
        if RowOf(sys.books, invocation).Some? {
          OpenRowSettles(sys, invocation, Some(TotalOf(next.events, Some(invocation)).total));
        }
      }
    } else if RowOf(sys.books, invocation).Some? {
      OpenRowSettles(sys, invocation, None);
    }
  }

  lemma {:induction false} FinalIsRecordedExactly(sys: System, invocation: Id, usage: Report)
    requires invocation in sys.attempts && sys.attempts[invocation].status == Running && Normal(usage)
    requires FindEvent(sys.events, FinalOf(invocation)).None?
    ensures Record(sys, invocation, FinalOf(invocation), usage, Snapshot, None, false).Success?
      <==> !Below(usage, TotalOf(sys.events, Some(invocation)))
  {
    assert Normalize(usage) == Some(usage);
    BelowMeansFalls(usage, TotalOf(sys.events, Some(invocation)));
  }

  lemma BelowMeansFalls(usage: Report, total: Counters)
    requires Normal(usage)
    ensures Below(usage, total) <==> Falls(Added(Snapshot, usage, total))
  {
    var delta := Added(Snapshot, usage, total);
    assert delta.input < 0 ==> usage.Get(Input).Some? && usage.Get(Input).value < total.Get(Input);
    assert delta.output < 0 ==> usage.Get(Output).Some? && usage.Get(Output).value < total.Get(Output);
    assert delta.total < 0 ==> usage.Get(Total).Some? && usage.Get(Total).value < total.Get(Total);
  }

  // ----- Reconciliation ------------------------------------------------------------------------

  predicate ShowsAt(books: Books, i: nat, id: Id, actual: int) {
    RowAt(books, i, id) && books.reservations[i].state == Settled && books.reservations[i].actual == Some(actual)
  }

  lemma SettleShows(books: Books, i: nat, id: Id, actual: int, evidence: Evidence)
    requires Valid(books) && RowAt(books, i, id) && Settle(books, id, Some(actual), Some(evidence)).Success?
    ensures ShowsAt(Settle(books, id, Some(actual), Some(evidence)).value, i, id, actual)
  {
    SameIndex(books.reservations, books.reservations, id, i);
  }

  lemma CorrectShows(books: Books, i: nat, id: Id, actual: int)
    requires Valid(books) && RowAt(books, i, id) && Correct(books, id, actual).Success?
    ensures ShowsAt(Correct(books, id, actual).value, i, id, actual)
  {
    SameIndex(books.reservations, books.reservations, id, i);
  }

  /** After evidenced usage of a closed invocation its reservation, if there is one, is settled at the new total. */
  lemma {:induction false} ReconcileSettles(sys: System, invocation: Id, id: EventId, report: Report, evidence: Evidence, i: nat)
    requires Inv(sys) && RowAt(sys.books, i, invocation) && Reconcile(sys, invocation, id, report, evidence).Success?
    ensures var after := Reconcile(sys, invocation, id, report, evidence).value;
      && invocation in sys.attempts && sys.attempts[invocation].status != Running && after.attempts == sys.attempts
      && ShowsAt(after.books, i, invocation, TotalOf(after.events, Some(invocation)).total)
  {
    RecordKeepsInv(sys, invocation, id, report, Snapshot, Some(evidence), true);
    SameIndex(sys.books.reservations, sys.books.reservations, invocation, i);
    var next := Record(sys, invocation, id, report, Snapshot, Some(evidence), true).value;
    ReconcileRepairs(sys, invocation, id, report, evidence, next);
    var after := Reconcile(sys, invocation, id, report, evidence).value;
    RepairShows(next, after, invocation, TotalOf(next.events, Some(invocation)).total, evidence, i);
  }

  /** The row is corrected when it was settled at another total, and settled otherwise. */
  ghost predicate Repaired(next: System, after: System, invocation: Id, total: int, evidence: Evidence)
    requires Valid(next.books)
  {
    && after == next.(books := after.books)
    && RowOf(next.books, invocation).Some?
    && var row := RowOf(next.books, invocation).value;
    if row.state == Settled && row.actual != Some(total) then
      && Correct(next.books, invocation, total).Success?
      && after.books == RecordEvidence(Correct(next.books, invocation, total).value, invocation, total, evidence)
    else Settle(next.books, invocation, Some(total), Some(evidence)) == Success(after.books)
  }

  lemma {:induction false} ReconcileRepairs(sys: System, invocation: Id, id: EventId, report: Report, evidence: Evidence, next: System)
    requires Valid(sys.books) && Valid(next.books) && RowOf(next.books, invocation).Some?
    requires Reconcile(sys, invocation, id, report, evidence).Success?
    requires Record(sys, invocation, id, report, Snapshot, Some(evidence), true) == Success(next)
    ensures Repaired(next, Reconcile(sys, invocation, id, report, evidence).value, invocation,
                     TotalOf(next.events, Some(invocation)).total, evidence)
  {
  }

  lemma RepairShows(next: System, after: System, invocation: Id, total: int, evidence: Evidence, i: nat)
    requires Valid(next.books) && Repaired(next, after, invocation, total, evidence) && RowAt(next.books, i, invocation)
    ensures ShowsAt(after.books, i, invocation, total) && after.attempts == next.attempts && after.events == next.events
  {
    SameIndex(next.books.reservations, next.books.reservations, invocation, i);
    if next.books.reservations[i].state == Settled && next.books.reservations[i].actual != Some(total) {
      CorrectShows(next.books, i, invocation, total);
    } else {
      SettleShows(next.books, i, invocation, total, evidence);
    }
  }

  // ----- Settled for good ----------------------------------------------------------------------

  /** Rows are only added, keep their identity, and once settled stay settled. */
  ghost predicate SettledStay(before: Books, after: Books) {
    && |before.reservations| <= |after.reservations|
    && forall k :: 0 <= k < |before.reservations| ==> RowStays(before.reservations[k], after.reservations[k])
  }

  predicate RowStays(before: Reservation, after: Reservation) {
    after.id == before.id && (before.state == Settled ==> after.state == Settled)
  }

  lemma SettleStays(books: Books, id: Id, actual: Option<int>, evidence: Option<Evidence>)
    requires Valid(books) && Settle(books, id, actual, evidence).Success?
    ensures SettledStay(books, Settle(books, id, actual, evidence).value)
  {
    var i := SettledRow(books, id, actual, evidence);
    var after := Settle(books, id, actual, evidence).value;
    assert books.reservations[i].state == Settled ==> after.reservations[i].state == Settled;
  }

  lemma CorrectStays(books: Books, id: Id, actual: int)
    requires Valid(books) && Correct(books, id, actual).Success?
    ensures SettledStay(books, Correct(books, id, actual).value)
  {
    var i := CorrectedRow(books, id, actual);
  }

  lemma ReconcileStays(sys: System, invocation: Id, id: EventId, report: Report, evidence: Evidence)
    requires Inv(sys) && Reconcile(sys, invocation, id, report, evidence).Success?
    ensures SettledStay(sys.books, Reconcile(sys, invocation, id, report, evidence).value.books)
  {
    RecordKeepsInv(sys, invocation, id, report, Snapshot, Some(evidence), true);
    var next := Record(sys, invocation, id, report, Snapshot, Some(evidence), true).value;
    var row := RowOf(next.books, invocation);
    var total := TotalOf(next.events, Some(invocation)).total;
    if row.Some? && row.value.state == Settled && row.value.actual != Some(total) {
      CorrectStays(next.books, invocation, total);
    } else if row.Some? {
      SettleStays(next.books, invocation, Some(total), Some(evidence));
    }
  }

  lemma FinishStays(sys: System, invocation: Id, status: AttemptStatus, report: Option<Report>, evidence: Evidence)
    requires Inv(sys) && Finish(sys, invocation, status, report, evidence).Success?
    ensures SettledStay(sys.books, Finish(sys, invocation, status, report, evidence).value.books)
  {
    if sys.attempts[invocation].status != Running {
      FinishLateStays(sys, invocation, Final(report), evidence);
    } else if IndexOf(sys.books.reservations, invocation).Some? {
      FinishRunningStays(sys, invocation, status, report, evidence, IndexOf(sys.books.reservations, invocation).value);
    } else {
      FinishCloses(sys, invocation, status, report, evidence);
    }
  }

  lemma FinishLateStays(sys: System, invocation: Id, usage: Option<Report>, evidence: Evidence)
    requires Inv(sys) && invocation in sys.attempts && FinishLate(sys, invocation, usage, evidence).Success?
    ensures SettledStay(sys.books, FinishLate(sys, invocation, usage, evidence).value.books)
  {
    if usage.Some? && Reconcile(sys, invocation, LateFinalOf(invocation), usage.value, evidence).Success? {
      ReconcileStays(sys, invocation, LateFinalOf(invocation), usage.value, evidence);
    }
  }

  lemma FinishRunningStays(sys: System, invocation: Id, status: AttemptStatus, report: Option<Report>, evidence: Evidence, i: nat)
    requires Inv(sys) && invocation in sys.attempts && sys.attempts[invocation].status == Running
    requires RowAt(sys.books, i, invocation) && Finish(sys, invocation, status, report, evidence).Success?
    ensures SettledStay(sys.books, Finish(sys, invocation, status, report, evidence).value.books)
  {
    FinishSettles(sys, invocation, status, report, evidence, i);
    RunningRowIsOpen(sys, i, invocation);
    var after := Finish(sys, invocation, status, report, evidence).value;
    OthersStay(sys.books, after.books, i);
  }

  lemma OthersStay(before: Books, after: Books, i: nat)
    requires i < |before.reservations| && OnlyThere(before, after, i) && RowStays(before.reservations[i], after.reservations[i])
    ensures SettledStay(before, after)
  {
  }

  lemma ConfirmStays(sys: System, id: Id, actual: int, evidence: Evidence)
    requires Inv(sys) && SettleConfirmed(sys, id, actual, evidence).Success?
    ensures SettledStay(sys.books, SettleConfirmed(sys, id, actual, evidence).value.books)
  {
    if id in sys.attempts {
      ReconcileStays(sys, id, ReconcileOf(id), Report(None, None, Some(actual)), evidence);
    } else {
      SettleStays(sys.books, id, Some(actual), Some(evidence));
    }
  }

  lemma HoldStays(sys: System, scope: Id, task: Id, id: Id, tokens: int)
    requires Inv(sys) && ReserveTokens(sys, scope, task, id, tokens).Success?
    ensures SettledStay(sys.books, ReserveTokens(sys, scope, task, id, tokens).value.books)
  {
  }

  lemma RecoverStays(sys: System, tree: set<Id>, reconcile: bool)
    requires Inv(sys)
    ensures SettledStay(sys.books, Recover(sys, tree, reconcile).books)
  {
  }

  /** The other write paths leave every row alone. */
  predicate LeavesRows(a: Accounting.Action) {
    !a.Close? && !a.Confirm? && !a.Hold? && !a.Crash?
  }

  lemma OtherStays(sys: System, a: Accounting.Action)
    requires Inv(sys) && Perform(sys, a).Success? && LeavesRows(a)
    ensures Perform(sys, a).value.books.reservations == sys.books.reservations
  {
    match a
    case Partial(task, invocation, report) => PartialLeavesRows(sys, task, invocation, report);
    case Start(task, id) => StartLeavesRows(sys, task, id);
    case _ =>
  }

  lemma StartLeavesRows(sys: System, task: Id, id: Id)
    requires StartAttempt(sys, task, id).Success?
    ensures StartAttempt(sys, task, id).value.books == sys.books
  {
  }

  lemma PartialLeavesRows(sys: System, task: Id, invocation: Id, report: Report)
    requires Inv(sys) && Perform(sys, Partial(task, invocation, report)).Success?
    ensures Perform(sys, Partial(task, invocation, report)).value.books == sys.books
  {
    if invocation !in sys.attempts {
      StartLeavesRows(sys, task, invocation);
    }
  }

  lemma PerformStays(sys: System, a: Accounting.Action)
    requires Inv(sys) && Perform(sys, a).Success?
    ensures SettledStay(sys.books, Perform(sys, a).value.books)
  {
    match a
    case Close(invocation, status, report, evidence) => FinishStays(sys, invocation, status, report, evidence);
    case Confirm(id, actual, evidence) => ConfirmStays(sys, id, actual, evidence);
    case Hold(scope, task, id, tokens) => HoldStays(sys, scope, task, id, tokens);
    case Crash(tree, reconcile) => RecoverStays(sys, tree, reconcile);
    case _ => OtherStays(sys, a);
  }

  lemma RunStep(trace: seq<System>, actions: seq<Accounting.Action>, n: nat)
    requires IsRun(trace, actions) && n < |actions|
    ensures Step(trace[n], actions[n], trace[n + 1])
  {
    RunKeepsInv(trace, actions, n);
  }

  lemma StepStays(before: System, a: Accounting.Action, after: System, i: nat)
    requires Step(before, a, after) && i < |before.books.reservations|
    ensures i < |after.books.reservations| && RowStays(before.books.reservations[i], after.books.reservations[i])
  {
    if Perform(before, a).Success? {
      PerformStays(before, a);
    }
  }

  /** Row i is settled under that identifier. */
  predicate SettledRowAt(books: Books, i: nat, id: Id) {
    RowAt(books, i, id) && books.reservations[i].state == Settled
  }

  lemma StepKeepsSettled(trace: seq<System>, actions: seq<Accounting.Action>, n: nat, i: nat, id: Id)
    requires IsRun(trace, actions) && n < |actions| && SettledRowAt(trace[n].books, i, id)
    ensures SettledRowAt(trace[n + 1].books, i, id)
  {
    RunStep(trace, actions, n);
    StepStays(trace[n], actions[n], trace[n + 1], i);
  }

  lemma {:induction false} RunKeepsSettled(trace: seq<System>, actions: seq<Accounting.Action>, n: nat, m: nat, i: nat, id: Id)
    requires IsRun(trace, actions) && n <= m <= |actions| && SettledRowAt(trace[n].books, i, id)
    ensures SettledRowAt(trace[m].books, i, id)
  {
    if n < m {
      RunKeepsSettled(trace, actions, n, m - 1, i, id);
      StepKeepsSettled(trace, actions, m - 1, i, id);
    }
  }

  /**
   * Over runs: from the moment a running invocation is finished with usage, its reservation is settled and stays so,
   * and it carries the total of the invocation's events.
   */
  lemma FinishedWithUsageIsSettled(trace: seq<System>, actions: seq<Accounting.Action>, n: nat, m: nat, i: nat)
    requires IsRun(trace, actions) && n < m <= |actions| && actions[n].Close? && Final(actions[n].last).Some?
    requires actions[n].invocation in trace[n].attempts && trace[n].attempts[actions[n].invocation].status == Running
    requires RowAt(trace[n].books, i, actions[n].invocation) && trace[n + 1] != trace[n]
    ensures RowAt(trace[m].books, i, actions[n].invocation) && trace[m].books.reservations[i].state == Settled
    ensures actions[n].invocation in trace[m].attempts ==>
      trace[m].books.reservations[i].actual == Some(TotalOf(trace[m].events, Some(actions[n].invocation)).total)
  {
    var a := actions[n];
    RunKeepsInv(trace, actions, n);
    assert Step(trace[n], a, trace[n + 1]);
    FinishSettles(trace[n], a.invocation, a.status, a.last, a.evidence, i);
    RunKeepsSettled(trace, actions, n + 1, m, i, a.invocation);
    RunKeepsInv(trace, actions, m);
    assert RowMatches(trace[m], trace[m].books.reservations[i]);
  }
}
