/** The usage and attempt recorders as they run: loops and guarded row updates, tied to Accounting. */
module AttemptStore {
  import opened Prelude
  import opened Ledger
  import opened Usage
  import opened Accounting

  /** The transaction took effect as specified, or it rolled back with the specified error. */
  ghost predicate Ties(error: Option<AccountError>, before: System, after: System, outcome: Outcome) {
    if outcome.Success? then error == None && after == outcome.value
    else error == Some(outcome.error) && after == before
  }

  class AttemptRecorder {
    var books: Books
    var attempts: map<Id, Attempt>
    var events: seq<Event>
    var tasks: map<Id, TaskRow>
    ghost var first: map<Id, TaskRow>

    ghost function State(): System
      reads this
    {
      System(books, attempts, events, tasks, first)
    }

    constructor ()
      ensures State() == Empty
    {
      books, attempts, events, tasks := EmptyBooks, map[], [], map[];
      first := map[];
    }

    method Append(e: Event)
      modifies this
      ensures State() == AppendEvent(old(State()), e)
    {
      events := events + [e];
      if e.task in tasks && e.invocation.Some? {
        tasks := tasks[e.task := Incremented(tasks[e.task], e.delta)];
      }
    }

    method RecordEvent(invocation: Id, id: EventId, report: Report, kind: Kind, evidence: Option<Evidence>, allowTerminal: bool)
      returns (error: Option<AccountError>)
      modifies this
      ensures Ties(error, old(State()), State(), Record(old(State()), invocation, id, report, kind, evidence, allowTerminal))
    {
      var usage := Normalize(report);
      if usage.None? {
        return Some(InvalidUsage);
      }
      if invocation !in attempts {
        return Some(NoInvocation);
      }
      var existing := FindEvent(events, id);
      if existing.Some? {
        var e := existing.value;
        var same := e.invocation == Some(invocation) && e.kind == kind && e.reported == usage.value && e.evidence == evidence;
        return if same then None else Some(Conflict);
      }
      if attempts[invocation].status != Running && !allowTerminal {
        return Some(Terminal);
      }
      var previous := SumEvents(events, Some(invocation));
      var delta := Added(kind, usage.value, previous);
      if Falls(delta) && evidence.None? {
        return Some(Decrease);
      }
      Append(Event(id, Some(invocation), attempts[invocation].task, kind, usage.value, delta, evidence));
      return None;
    }

    method ReconcileUsage(invocation: Id, id: EventId, report: Report, evidence: Evidence) returns (error: Option<AccountError>)
      requires Valid(books)
      modifies this
      ensures Ties(error, old(State()), State(), Reconcile(old(State()), invocation, id, report, evidence))
    {
      if invocation !in attempts {
        return Some(NoInvocation);
      }
      if attempts[invocation].status == Running {
        return Some(StillRunning);
      }
      var eventsBefore, tasksBefore := events, tasks;
      error := RecordEvent(invocation, id, report, Snapshot, Some(evidence), true);
      if error.Some? {
        return;
      }
      var row := RowOf(books, invocation);
      if row.None? {
        return None;
      }
      var total := SumEvents(events, Some(invocation));
      if row.value.state == Settled && row.value.actual != Some(total.total) {
        var corrected := Correct(books, invocation, total.total);
        if corrected.Success? {
          books := RecordEvidence(corrected.value, invocation, total.total, evidence);
          return None;
        }
        error := Some(Refused(corrected.error));
      } else {
        var settled := Settle(books, invocation, Some(total.total), Some(evidence));
        if settled.Success? {
          books := settled.value;
          return None;
        }
        error := Some(Refused(settled.error));
      }
      events, tasks := eventsBefore, tasksBefore;
    }

    /** Some earlier event of the invocation, other than the late report itself, carries evidence. */
    method SeesEvidence(invocation: Id, other: EventId) returns (found: bool)
      ensures found == HasEvidence(events, invocation, other)
    {
      found := false;
      for i := 0 to |events|
        invariant found == exists k :: 0 <= k < i && events[k].invocation == Some(invocation) && events[k].id != other && events[k].evidence.Some?
      {
        if events[i].invocation == Some(invocation) && events[i].id != other && events[i].evidence.Some? {
          found := true;
        }
      }
    }

    method RecordLate(invocation: Id, usage: Option<Report>, evidence: Evidence) returns (error: Option<AccountError>)
      requires Valid(books) && invocation in attempts
      modifies this
      ensures Ties(error, old(State()), State(), FinishLate(old(State()), invocation, usage, evidence))
    {
      var attempt := attempts[invocation];
      if usage.None? {
        return None;
      }
      if attempt.status != UnknownOutcome && attempt.usage.Some? {
        return if attempt.usage != usage then Some(Conflict) else None;
      }
      var previous := FindEvent(events, LateFinalOf(invocation));
      if previous.Some? {
        return if previous.value.reported == usage.value then None else Some(Conflict);
      }
      var total := SumEvents(events, Some(invocation));
      var authoritative := SeesEvidence(invocation, LateFinalOf(invocation));
      if authoritative {
        return if Disagrees(usage.value, total) then Some(Conflict) else None;
      }
      if Below(usage.value, total) {
        return Some(Decrease);
      }
      error := ReconcileUsage(invocation, LateFinalOf(invocation), usage.value, evidence);
    }

    method FinishAttempt(invocation: Id, status: AttemptStatus, report: Option<Report>, evidence: Evidence)
      returns (error: Option<AccountError>)
      requires Valid(books)
      modifies this
      ensures Ties(error, old(State()), State(), Finish(old(State()), invocation, status, report, evidence))
    {
      var usage: Option<Report> := None;
      if report.Some? && !report.value.Empty() {
        usage := Normalize(report.value);
        if usage.None? {
          return Some(InvalidUsage);
        }
      }
      if invocation !in attempts {
        return Some(NoInvocation);
      }
      if attempts[invocation].status != Running {
        error := RecordLate(invocation, usage, evidence);
        return;
      }
      var eventsBefore, tasksBefore := events, tasks;
      if usage.Some? {
        error := RecordEvent(invocation, FinalOf(invocation), usage.value, Snapshot, None, false);
        if error.Some? {
          return;
        }
      }
      var total := SumEvents(events, Some(invocation));
      if RowOf(books, invocation).Some? {
        var settled := Settle(books, invocation, if usage.Some? then Some(total.total) else None, None);
        if settled.Failure? {
          events, tasks := eventsBefore, tasksBefore;
          return Some(Refused(settled.error));
        }
        books := settled.value;
      }
      attempts := attempts[invocation := attempts[invocation].(status := status, usage := usage)];
      return None;
    }

    method RecordPartialSnapshot(invocation: Id, report: Report) returns (error: Option<AccountError>)
      modifies this
      ensures Ties(error, old(State()), State(), RecordPartial(old(State()), invocation, report))
    {
      var usage := Normalize(report);
      if usage.None? {
        return Some(InvalidUsage);
      }
      if invocation !in attempts {
        return Some(NoInvocation);
      }
      var id := PartialOf(invocation, usage.value);
      if FindEvent(events, id).None? && attempts[invocation].status != Running {
        var total := SumEvents(events, Some(invocation));
        return if Above(usage.value, total) then Some(Terminal) else None;
      }
      error := RecordEvent(invocation, id, usage.value, Snapshot, None, false);
    }

    method StartInvocation(task: Id, id: Id) returns (error: Option<AccountError>)
      modifies this
      ensures Ties(error, old(State()), State(), StartAttempt(old(State()), task, id))
    {
      if task in tasks && Countable(tasks[task]) && !TaskHasEvents(events, task) {
        var usage := Normalize(tasks[task].usage.value);
        if usage.None? {
          return Some(InvalidUsage);
        }
        if FindEvent(events, LegacyOf(task)).Some? {
          return Some(Conflict);
        }
        first := NoteFirst(State(), task).first;
        Append(BaselineEvent(task, usage.value));
      } else {
        first := NoteFirst(State(), task).first;
      }
      attempts := attempts[id := Attempt(task, Running, None)];
      return None;
    }
  }
}
