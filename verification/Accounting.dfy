/** Invocations, their usage events, and their reservations, kept together by every write path. */
module Accounting {
  import opened Prelude
  import opened Ledger
  import opened Usage

  datatype AttemptStatus = Running | Finished | FailedAttempt | CancelledAttempt | UnknownOutcome

  datatype Attempt = Attempt(task: Id, status: AttemptStatus, usage: Option<Report>)

  /** Copies and links inherit the counters of another task; archived tasks keep theirs. */
  datatype Origin = Created | Inherited | Archived

  /** usage is the task's counter column, in which any counter may be absent. */
  datatype TaskRow = TaskRow(usage: Option<Report>, origin: Origin, enrolled: bool)

  /** first is history: the row of a task as it was at its first invocation. */
  datatype System = System(
    books: Books,
    attempts: map<Id, Attempt>,
    events: seq<Event>,
    tasks: map<Id, TaskRow>,
    first: map<Id, TaskRow>)

  datatype AccountError =
    | InvalidUsage | NoInvocation | Conflict | Terminal | Decrease | StillRunning | Managed | NoTask
    | Refused(reason: LedgerError)

  type Outcome = Result<System, AccountError>

  /** The counters a report mentions; the database reads an absent one as zero. */
  function Whole(report: Report): Counters {
    Counters(OrZero(report.input), OrZero(report.output), OrZero(report.total))
  }

  function CountersOf(task: TaskRow): Counters {
    if task.usage.Some? then Whole(task.usage.value) else Zero
  }

  /** increment_token_usage: every counter is present afterwards; archived tasks are left alone. */
  function Incremented(task: TaskRow, delta: Counters): TaskRow {
    if task.origin.Archived? then task
    else
      var sum := CountersOf(task).Plus(delta);
      task.(usage := Some(Report(Some(sum.input), Some(sum.output), Some(sum.total))))
  }

  function FindEvent(events: seq<Event>, id: EventId): (e: Option<Event>)
    ensures e.Some? ==> e.value in events && e.value.id == id
    ensures e.None? ==> forall i :: 0 <= i < |events| ==> events[i].id != id
  {
    if events == [] then None
    else if events[|events| - 1].id == id then Some(events[|events| - 1])
    else FindEvent(events[..|events| - 1], id)
  }

  predicate TaskHasEvents(events: seq<Event>, task: Id) {
    exists i :: 0 <= i < |events| && events[i].task == task
  }

  predicate TaskHasAttempts(attempts: map<Id, Attempt>, task: Id) {
    exists id :: id in attempts && attempts[id].task == task
  }

  // ----- Write paths ------------------------------------------------------------------------

  /** The event row and the task counters move together. */
  ghost function AppendEvent(sys: System, e: Event): System {
    sys.(events := sys.events + [e],
         tasks := if e.task in sys.tasks && e.invocation.Some?
           then sys.tasks[e.task := Incremented(sys.tasks[e.task], e.delta)]
           else sys.tasks)
  }

  /** _record: deduplicate, refuse terminal invocations, and append what the report adds. */
  ghost function Record(sys: System, invocation: Id, id: EventId, report: Report, kind: Kind, evidence: Option<Evidence>,
                        allowTerminal: bool): Outcome
  {
    var usage := Normalize(report);
    if usage.None? then Failure(InvalidUsage)
    else if invocation !in sys.attempts then Failure(NoInvocation)
    else
      var existing := FindEvent(sys.events, id);
      if existing.Some? then
        var e := existing.value;
        if e.invocation == Some(invocation) && e.kind == kind && e.reported == usage.value && e.evidence == evidence
        then Success(sys) else Failure(Conflict)
      else if sys.attempts[invocation].status != Running && !allowTerminal then Failure(Terminal)
      else
        var delta := Added(kind, usage.value, TotalOf(sys.events, Some(invocation)));
        if Falls(delta) && evidence.None? then Failure(Decrease)
        else Success(AppendEvent(sys, Event(id, Some(invocation), sys.attempts[invocation].task, kind, usage.value, delta, evidence)))
  }

  ghost function WithBooks(sys: System, r: Result<Books, LedgerError>): Outcome {
    if r.Success? then Success(sys.(books := r.value)) else Failure(Refused(r.error))
  }

  function RowOf(books: Books, id: Id): Option<Reservation> {
    var index := IndexOf(books.reservations, id);
    if index.Some? then Some(books.reservations[index.value]) else None
  }

  /** reconcile: evidenced usage of a terminal invocation, with its reservation settled or corrected to the total. */
  ghost function Reconcile(sys: System, invocation: Id, id: EventId, report: Report, evidence: Evidence): Outcome
    requires Valid(sys.books)
  {
    if invocation !in sys.attempts then Failure(NoInvocation)
    else if sys.attempts[invocation].status == Running then Failure(StillRunning)
    else
      var recorded := Record(sys, invocation, id, report, Snapshot, Some(evidence), true);
      if recorded.Failure? then recorded
      else
        var next := recorded.value;
        var row := RowOf(next.books, invocation);
        var total := TotalOf(next.events, Some(invocation)).total;
        if row.None? then Success(next)
        else if row.value.state == Settled && row.value.actual != Some(total) then
          var corrected := Correct(next.books, invocation, total);
          if corrected.Failure? then Failure(Refused(corrected.error))
          else Success(next.(books := RecordEvidence(corrected.value, invocation, total, evidence)))
        else WithBooks(next, Settle(next.books, invocation, Some(total), Some(evidence)))
  }

  /** Some counter the report mentions differs from, exceeds, or stays below the total. */
  predicate Disagrees(usage: Report, total: Counters) {
    exists c :: usage.Get(c).Some? && usage.Get(c).value != total.Get(c)
  }

  predicate Below(usage: Report, total: Counters) {
    exists c :: usage.Get(c).Some? && usage.Get(c).value < total.Get(c)
  }

  predicate Above(usage: Report, total: Counters) {
    exists c :: usage.Get(c).Some? && usage.Get(c).value > total.Get(c)
  }

  predicate HasEvidence(events: seq<Event>, invocation: Id, other: EventId) {
    exists i :: 0 <= i < |events| && events[i].invocation == Some(invocation) && events[i].id != other && events[i].evidence.Some?
  }

  /** A final report that arrives after the invocation was already closed. */
  ghost function FinishLate(sys: System, invocation: Id, usage: Option<Report>, evidence: Evidence): Outcome
    requires Valid(sys.books) && invocation in sys.attempts
  {
    var attempt := sys.attempts[invocation];
    if usage.Some? && (attempt.status == UnknownOutcome || attempt.usage.None?) then
      var previous := FindEvent(sys.events, LateFinalOf(invocation));
      var total := TotalOf(sys.events, Some(invocation));
      if previous.Some? then (if previous.value.reported == usage.value then Success(sys) else Failure(Conflict))
      else if HasEvidence(sys.events, invocation, LateFinalOf(invocation)) then
        (if Disagrees(usage.value, total) then Failure(Conflict) else Success(sys))
      else if Below(usage.value, total) then Failure(Decrease)
      else Reconcile(sys, invocation, LateFinalOf(invocation), usage.value, evidence)
    else if usage.Some? && attempt.usage != usage then Failure(Conflict)
    else Success(sys)
  }

  /** finish: final usage, settlement and the terminal status in one step. */
  ghost function Finish(sys: System, invocation: Id, status: AttemptStatus, report: Option<Report>, evidence: Evidence): Outcome
    requires Valid(sys.books)
  {
    var given := report.Some? && !report.value.Empty();
    var usage := if given then Normalize(report.value) else None;
    if given && usage.None? then Failure(InvalidUsage)
    else if invocation !in sys.attempts then Failure(NoInvocation)
    else if sys.attempts[invocation].status != Running then FinishLate(sys, invocation, usage, evidence)
    else
      var recorded := if usage.Some?
        then Record(sys, invocation, FinalOf(invocation), usage.value, Snapshot, None, false) else Success(sys);
      if recorded.Failure? then recorded
      else
        var next := recorded.value;
        var total := TotalOf(next.events, Some(invocation)).total;
        var settled := if RowOf(next.books, invocation).Some?
          then WithBooks(next, Settle(next.books, invocation, if usage.Some? then Some(total) else None, None)) else Success(next);
        if settled.Failure? then settled
        else Success(settled.value.(attempts := settled.value.attempts[invocation :=
               settled.value.attempts[invocation].(status := status, usage := usage)]))
  }

  /** Cancellation reports are snapshots named by their content; a closed invocation accepts no more usage. */
  ghost function RecordPartial(sys: System, invocation: Id, report: Report): Outcome {
    var usage := Normalize(report);
    if usage.None? then Failure(InvalidUsage)
    else if invocation !in sys.attempts then Failure(NoInvocation)
    else
      var id := PartialOf(invocation, usage.value);
      if FindEvent(sys.events, id).None? && sys.attempts[invocation].status != Running then
        (if Above(usage.value, TotalOf(sys.events, Some(invocation))) then Failure(Terminal) else Success(sys))
      else Record(sys, invocation, id, usage.value, Snapshot, None, false)
  }

  /** There are counters older than the events, and they are the task's own. */
  predicate Countable(task: TaskRow) {
    task.usage.Some? && !task.usage.value.Empty() && !task.origin.Inherited?
  }

  ghost predicate NeedsBaseline(sys: System, task: Id) {
    task in sys.tasks && Countable(sys.tasks[task]) && !TaskHasEvents(sys.events, task)
  }

  function BaselineEvent(task: Id, usage: Report): Event {
    Event(LegacyOf(task), None, task, Legacy, usage, Whole(usage), None)
  }

  /**
   * preserve_legacy: counters older than the events become one baseline event, which has the missing total filled
   * in; the key of the event table admits it once.
   */
  ghost function PreserveLegacy(sys: System, task: Id): Outcome {
    if !NeedsBaseline(sys, task) then Success(sys)
    else
      var usage := Normalize(sys.tasks[task].usage.value);
      if usage.None? then Failure(InvalidUsage)
      else if FindEvent(sys.events, LegacyOf(task)).Some? then Failure(Conflict)
      else Success(AppendEvent(sys, BaselineEvent(task, usage.value)))
  }

  ghost function Touched(sys: System, task: Id): bool {
    TaskHasEvents(sys.events, task) || TaskHasAttempts(sys.attempts, task)
  }

  /** History only. */
  ghost function NoteFirst(sys: System, task: Id): System {
    if Touched(sys, task) || task !in sys.tasks then sys else sys.(first := sys.first[task := sys.tasks[task]])
  }

  /** start: the baseline event of the task if it needs one, and the running row. */
  ghost function StartAttempt(sys: System, task: Id, id: Id): Outcome {
    var kept := PreserveLegacy(NoteFirst(sys, task), task);
    if kept.Failure? then kept
    else Success(kept.value.(attempts := kept.value.attempts[id := Attempt(task, Running, None)]))
  }

  ghost function ReserveTokens(sys: System, scope: Id, task: Id, id: Id, tokens: int): Outcome
    requires Valid(sys.books)
  {
    WithBooks(sys, Reserve(sys.books, scope, task, id, tokens))
  }

  /** An administrator's confirmation goes through the invocation when there is one. */
  ghost function SettleConfirmed(sys: System, id: Id, actual: int, evidence: Evidence): Outcome
    requires Valid(sys.books)
  {
    if id in sys.attempts then Reconcile(sys, id, ReconcileOf(id), Report(None, None, Some(actual)), evidence)
    else WithBooks(sys, Settle(sys.books, id, Some(actual), Some(evidence)))
  }

  predicate Interrupted(attempt: Attempt, tree: set<Id>) {
    attempt.task in tree && (attempt.status == Running || attempt.status == UnknownOutcome)
  }

  /**
   * Crash recovery of a tree: running invocations become unknown, and so do the reserved tokens when the run
   * needs reconciliation or some invocation was interrupted.
   */
  ghost function Recover(sys: System, tree: set<Id>, reconcile: bool): System
    requires Valid(sys.books)
  {
    var holds := reconcile || exists id :: id in sys.attempts && Interrupted(sys.attempts[id], tree);
    sys.(books := if holds then HoldUnknown(sys.books, tree, |sys.books.reservations|) else sys.books,
         attempts := map id | id in sys.attempts ::
           if sys.attempts[id].task in tree && sys.attempts[id].status == Running
           then sys.attempts[id].(status := UnknownOutcome) else sys.attempts[id])
  }

  /** The old projection-only path, refused once anything identifies the consumption. */
  ghost function UpdateUsage(sys: System, task: Id, report: Report): Outcome {
    if OrZero(report.input) < 0 || OrZero(report.output) < 0 || OrZero(report.total) < 0 then Failure(InvalidUsage)
    else if task !in sys.tasks then Failure(NoTask)
    else if sys.tasks[task].enrolled || Touched(sys, task) then Failure(Managed)
    else if sys.tasks[task].origin.Archived? then Failure(NoTask)
    else
      var delta := Counters(OrZero(report.input), OrZero(report.output),
        if report.total.Some? then report.total.value else OrZero(report.input) + OrZero(report.output));
      Success(sys.(tasks := sys.tasks[task := Incremented(sys.tasks[task], delta)]))
  }

  // ----- The invariant ----------------------------------------------------------------------

  /** A settled reservation of an invocation carries exactly the usage of that closed invocation. */
  ghost predicate SettledMatches(sys: System, except: Option<Id>) {
    forall i :: 0 <= i < |sys.books.reservations| && Some(sys.books.reservations[i].id) != except ==>
      RowMatches(sys, sys.books.reservations[i])
  }

  ghost predicate RowMatches(sys: System, row: Reservation) {
    row.id in sys.attempts && row.state == Settled ==>
      && sys.attempts[row.id].status != Running
      && row.actual == Some(TotalOf(sys.events, Some(row.id)).total)
  }

  ghost predicate EventsBelong(sys: System) {
    forall i :: 0 <= i < |sys.events| ==> BelongsTo(sys.events[i], sys.attempts)
  }

  predicate BelongsTo(e: Event, attempts: map<Id, Attempt>) {
    e.invocation.Some? ==> e.invocation.value in attempts && attempts[e.invocation.value].task == e.task
  }

  /** What the baseline event records of a row. */
  function BaselineOf(task: TaskRow): Counters {
    if Countable(task) && Normalize(task.usage.value).Some? then Whole(Normalize(task.usage.value).value) else Zero
  }

  /** What a row counts beyond the baseline event made of it. */
  function Beyond(task: TaskRow): Counters {
    var counters, baseline := CountersOf(task), BaselineOf(task);
    Counters(counters.input - baseline.input, counters.output - baseline.output, counters.total - baseline.total)
  }

  /** The counters of a task are the sum of its events plus what its first row counted beyond its baseline. */
  ghost predicate CountersMatch(sys: System, task: Id) {
    && task in sys.first && task in sys.tasks && sys.tasks[task].origin == sys.first[task].origin
    && (if sys.tasks[task].origin.Archived? then sys.tasks[task].usage == sys.first[task].usage
        else forall c ::
          CountersOf(sys.tasks[task]).Get(c) == TaskTotal(sys.events, task).Get(c) + Beyond(sys.first[task]).Get(c))
  }

  /** Its first row could be read as usage. */
  ghost predicate FirstReadable(sys: System, task: Id) {
    task in sys.first && (Countable(sys.first[task]) ==> Normalize(sys.first[task].usage.value).Some?)
  }

  ghost predicate TasksMatch(sys: System) {
    && (forall task :: task in sys.tasks && Touched(sys, task) ==> CountersMatch(sys, task) && FirstReadable(sys, task))
    && (forall task :: task in sys.tasks && TaskHasAttempts(sys.attempts, task) ==> !NeedsBaseline(sys, task))
  }

  /** The invariant, with the settled row of one invocation possibly out of date. */
  ghost predicate InvExcept(sys: System, except: Option<Id>) {
    && Valid(sys.books) && WellRecorded(sys.events) && SettledMatches(sys, except) && EventsBelong(sys) && TasksMatch(sys)
  }

  ghost predicate Inv(sys: System) {
    InvExcept(sys, None)
  }

  // ----- Preservation -----------------------------------------------------------------------

  lemma EventsGrow(sys: System, e: Event)
    requires TasksMatch(sys)
    requires e.invocation.Some? && e.invocation.value in sys.attempts && sys.attempts[e.invocation.value].task == e.task
    ensures TasksMatch(AppendEvent(sys, e))
  {
    var after := AppendEvent(sys, e);
    forall task ensures TaskHasEvents(after.events, task) <==> TaskHasEvents(sys.events, task) || task == e.task {
      assert after.events[|sys.events|] == e;
      assert forall i :: 0 <= i < |sys.events| ==> after.events[i] == sys.events[i];
    }
    assert TaskHasAttempts(sys.attempts, e.task);
    forall task | task in after.tasks && Touched(after, task) ensures CountersMatch(after, task) {
      assert Touched(sys, task);
      assert CountersMatch(sys, task);
    }
  }

  /** Appending an event disturbs only the settled row of its own invocation. */
  lemma AppendKeepsInv(sys: System, e: Event)
    requires Inv(sys) && e.invocation.Some? && e.invocation.value in sys.attempts
    requires sys.attempts[e.invocation.value].task == e.task && RecordedAfter(sys.events, e)
    ensures InvExcept(AppendEvent(sys, e), e.invocation)
    ensures sys.attempts[e.invocation.value].status == Running ==> Inv(AppendEvent(sys, e))
  {
    var after := AppendEvent(sys, e);
    WellRecordedAppend(sys.events, e);
    EventsGrow(sys, e);
    forall i | 0 <= i < |sys.books.reservations|
      ensures SameInvocation(sys, e, sys.books.reservations[i].id) || RowMatches(after, sys.books.reservations[i])
    {
      var row := sys.books.reservations[i];
      assert RowMatches(sys, row);
    }
    assert EventsBelong(after);
  }

  /** The one invocation whose settled row an event puts out of date. */
  predicate SameInvocation(sys: System, e: Event, id: Id) {
    e.invocation == Some(id) && id in sys.attempts && sys.attempts[id].status != Running
  }

  /** Recording touches nothing but the events and counters. */
  lemma RecordKeepsInv(sys: System, invocation: Id, id: EventId, report: Report, kind: Kind, evidence: Option<Evidence>,
                       allowTerminal: bool)
    requires Inv(sys) && Record(sys, invocation, id, report, kind, evidence, allowTerminal).Success?
    ensures var next := Record(sys, invocation, id, report, kind, evidence, allowTerminal).value;
      && InvExcept(next, Some(invocation)) && (!allowTerminal ==> Inv(next))
      && next.books == sys.books && next.attempts == sys.attempts && next.first == sys.first
      && invocation in sys.attempts
  {
    var usage := Normalize(report).value;
    var existing := FindEvent(sys.events, id);
    if existing.None? {
      var delta := Added(kind, usage, TotalOf(sys.events, Some(invocation)));
      AppendKeepsInv(sys, Event(id, Some(invocation), sys.attempts[invocation].task, kind, usage, delta, evidence));
    }
  }

  /** New books repair the exception when the row of that invocation now shows its total. */
  lemma {:induction false} RowRepaired(sys: System, books: Books, invocation: Id, i: nat)
    requires InvExcept(sys, Some(invocation)) && invocation in sys.attempts && sys.attempts[invocation].status != Running
    requires Valid(books) && OnlyRow(sys.books, books, i)
    requires books.reservations[i].id == invocation
    requires books.reservations[i].state == Settled ==>
      books.reservations[i].actual == Some(TotalOf(sys.events, Some(invocation)).total)
    ensures Inv(sys.(books := books))
  {
  }

  lemma ReconcileKeepsInv(sys: System, invocation: Id, id: EventId, report: Report, evidence: Evidence)
    requires Inv(sys) && Reconcile(sys, invocation, id, report, evidence).Success?
    ensures Inv(Reconcile(sys, invocation, id, report, evidence).value)
  {
    RecordKeepsInv(sys, invocation, id, report, Snapshot, Some(evidence), true);
    var next := Record(sys, invocation, id, report, Snapshot, Some(evidence), true).value;
    var row := RowOf(next.books, invocation);
    var total := TotalOf(next.events, Some(invocation)).total;
    if row.Some? && row.value.state == Settled && row.value.actual != Some(total) {
      var i := CorrectedRow(next.books, invocation, total);
      var corrected := Correct(next.books, invocation, total).value;
      EvidenceKeepsValid(corrected, invocation, total, evidence);
      RowRepaired(next, RecordEvidence(corrected, invocation, total, evidence), invocation, i);
    } else if row.Some? {
      var i := SettledRow(next.books, invocation, Some(total), Some(evidence));
      RowRepaired(next, Settle(next.books, invocation, Some(total), Some(evidence)).value, invocation, i);
    }
  }

  lemma FinishLateKeepsInv(sys: System, invocation: Id, usage: Option<Report>, evidence: Evidence)
    requires Inv(sys) && invocation in sys.attempts && FinishLate(sys, invocation, usage, evidence).Success?
    ensures Inv(FinishLate(sys, invocation, usage, evidence).value)
  {
    if usage.Some? && Reconcile(sys, invocation, LateFinalOf(invocation), usage.value, evidence).Success? {
      ReconcileKeepsInv(sys, invocation, LateFinalOf(invocation), usage.value, evidence);
    }
  }

  lemma FinishKeepsInv(sys: System, invocation: Id, status: AttemptStatus, report: Option<Report>, evidence: Evidence)
    requires Inv(sys) && status != Running && Finish(sys, invocation, status, report, evidence).Success?
    ensures Inv(Finish(sys, invocation, status, report, evidence).value)
  {
    var given := report.Some? && !report.value.Empty();
    var usage := if given then Normalize(report.value) else None;
    if sys.attempts[invocation].status != Running {
      FinishLateKeepsInv(sys, invocation, usage, evidence);
    } else {
      var next := sys;
      if usage.Some? {
        RecordKeepsInv(sys, invocation, FinalOf(invocation), usage.value, Snapshot, None, false);
        next := Record(sys, invocation, FinalOf(invocation), usage.value, Snapshot, None, false).value;
      }
      CloseKeepsInv(next, invocation, status, usage);
    }
  }

  /** Closing an invocation changes no task of any other invocation. */
  lemma StatusKeepsInv(sys: System, invocation: Id, attempt: Attempt)
    requires Inv(sys) && invocation in sys.attempts && attempt.task == sys.attempts[invocation].task
    requires attempt.status != Running
    ensures Inv(sys.(attempts := sys.attempts[invocation := attempt]))
  {
    var after := sys.(attempts := sys.attempts[invocation := attempt]);
    forall task ensures TaskHasAttempts(after.attempts, task) ==> TaskHasAttempts(sys.attempts, task) {
      if id :| id in after.attempts && after.attempts[id].task == task {
        assert id in sys.attempts && sys.attempts[id].task == task;
      }
    }
    forall task | task in after.tasks && Touched(after, task) ensures CountersMatch(after, task) && FirstReadable(after, task) {
      assert CountersMatch(sys, task);
    }
    forall k | 0 <= k < |sys.books.reservations| ensures RowMatches(after, sys.books.reservations[k]) {
      assert RowMatches(sys, sys.books.reservations[k]);
    }
  }

  /** Settling to the total and closing happen together, so the settled row matches a closed invocation. */
  lemma {:induction false} CloseKeepsInv(sys: System, invocation: Id, status: AttemptStatus, usage: Option<Report>)
    requires Inv(sys) && status != Running && invocation in sys.attempts
    requires RowOf(sys.books, invocation).Some? ==>
      Settle(sys.books, invocation, if usage.Some? then Some(TotalOf(sys.events, Some(invocation)).total) else None, None).Success?
    ensures var closed := sys.(attempts := sys.attempts[invocation := sys.attempts[invocation].(status := status, usage := usage)]);
      Inv(if RowOf(sys.books, invocation).None? then closed
          else closed.(books := Settle(sys.books, invocation,
            if usage.Some? then Some(TotalOf(sys.events, Some(invocation)).total) else None, None).value))
  {
    var closed := sys.(attempts := sys.attempts[invocation := sys.attempts[invocation].(status := status, usage := usage)]);
    StatusKeepsInv(sys, invocation, closed.attempts[invocation]);
    if RowOf(sys.books, invocation).Some? {
      var actual := if usage.Some? then Some(TotalOf(sys.events, Some(invocation)).total) else None;
      var i := SettledRow(sys.books, invocation, actual, None);
      var books := Settle(sys.books, invocation, actual, None).value;
      assert RowMatches(closed, sys.books.reservations[i]);
      RowRepaired(closed, books, invocation, i);
    }
  }

  lemma RecordPartialKeepsInv(sys: System, invocation: Id, report: Report)
    requires Inv(sys) && RecordPartial(sys, invocation, report).Success?
    ensures Inv(RecordPartial(sys, invocation, report).value)
  {
    var usage := Normalize(report).value;
    var id := PartialOf(invocation, usage);
    if FindEvent(sys.events, id).Some? || sys.attempts[invocation].status == Running {
      RecordKeepsInv(sys, invocation, id, usage, Snapshot, None, false);
    }
  }

  lemma ReserveTokensKeepsInv(sys: System, scope: Id, task: Id, id: Id, tokens: int)
    requires Inv(sys) && ReserveTokens(sys, scope, task, id, tokens).Success?
    ensures Inv(ReserveTokens(sys, scope, task, id, tokens).value)
  {
    ReserveKeepsValid(sys.books, scope, task, id, tokens);
  }

  lemma ConfigureKeepsInv(sys: System, scope: Id, limit: int)
    requires Inv(sys) && WithBooks(sys, ConfigureScope(sys.books, scope, limit)).Success?
    ensures Inv(WithBooks(sys, ConfigureScope(sys.books, scope, limit)).value)
  {
    ConfigureKeepsValid(sys.books, scope, limit);
  }

  lemma SettleConfirmedKeepsInv(sys: System, id: Id, actual: int, evidence: Evidence)
    requires Inv(sys) && SettleConfirmed(sys, id, actual, evidence).Success?
    ensures Inv(SettleConfirmed(sys, id, actual, evidence).value)
  {
    if id in sys.attempts {
      ReconcileKeepsInv(sys, id, ReconcileOf(id), Report(None, None, Some(actual)), evidence);
    } else {
      var i := SettledRow(sys.books, id, Some(actual), Some(evidence));
    }
  }

  /** Recovery closes invocations and turns reservations into liabilities, but settles nothing. */
  lemma RecoverKeepsInv(sys: System, tree: set<Id>, reconcile: bool)
    requires Inv(sys)
    ensures Inv(Recover(sys, tree, reconcile))
  {
  }

  /** The row of a task nothing has touched may take any counters. */
  lemma UntouchedRowMatches(sys: System, task: Id, row: TaskRow)
    requires TasksMatch(sys) && !Touched(sys, task)
    ensures TasksMatch(sys.(tasks := sys.tasks[task := row]))
  {
    var after := sys.(tasks := sys.tasks[task := row]);
    forall t | t in after.tasks && Touched(after, t) ensures CountersMatch(after, t) && FirstReadable(after, t) {
      assert Touched(sys, t) && CountersMatch(sys, t);
    }
  }

  lemma UpdateUsageKeepsInv(sys: System, task: Id, report: Report)
    requires Inv(sys) && UpdateUsage(sys, task, report).Success?
    ensures Inv(UpdateUsage(sys, task, report).value)
  {
    UntouchedRowMatches(sys, task, UpdateUsage(sys, task, report).value.tasks[task]);
  }

  lemma BaselineGrows(sys: System, e: Event, t: Id)
    ensures TaskHasEvents(sys.events + [e], t) <==> TaskHasEvents(sys.events, t) || t == e.task
  {
    var events := sys.events + [e];
    assert events[|sys.events|] == e;
    assert forall i :: 0 <= i < |sys.events| ==> events[i] == sys.events[i];
  }

  /** Right after its baseline event, a task counts what the event records and what its row had beyond. */
  lemma BaselineCounts(sys: System, task: Id, usage: Report)
    requires NeedsBaseline(sys, task) && task in sys.first && sys.first[task] == sys.tasks[task]
    requires Normalize(sys.tasks[task].usage.value) == Some(usage)
    ensures CountersMatch(sys.(events := sys.events + [BaselineEvent(task, usage)]), task)
  {
    SeededTotal(sys.events, task, usage);
  }

  /** The events of a task without any, and one baseline event, add up to that event. */
  lemma {:induction false} SeededTotal(events: seq<Event>, task: Id, usage: Report)
    requires !TaskHasEvents(events, task)
    ensures TaskTotal(events + [BaselineEvent(task, usage)], task) == Whole(usage)
  {
    NoEventsNoTotal(events, task);
    var total := TaskTotal(events, task);
    assert total.Get(Input) == total.Get(Output) == total.Get(Total) == 0;
    assert (events + [BaselineEvent(task, usage)])[..|events|] == events;
  }

  /** The baseline event leaves every other task as it was. */
  lemma BaselineMatches(sys: System, task: Id, usage: Report)
    requires TasksMatch(sys) && NeedsBaseline(sys, task) && task in sys.first && sys.first[task] == sys.tasks[task]
    requires Normalize(sys.tasks[task].usage.value) == Some(usage)
    ensures TasksMatch(sys.(events := sys.events + [BaselineEvent(task, usage)]))
  {
    var e := BaselineEvent(task, usage);
    var after := sys.(events := sys.events + [e]);
    BaselineCounts(sys, task, usage);
    assert after.events[..|sys.events|] == sys.events;
    forall t ensures TaskHasEvents(after.events, t) <==> TaskHasEvents(sys.events, t) || t == task {
      BaselineGrows(sys, e, t);
    }
    forall t | t in after.tasks && Touched(after, t) ensures CountersMatch(after, t) && FirstReadable(after, t) {
      if t != task {
        assert Touched(sys, t) && CountersMatch(sys, t);
      }
    }
  }

  lemma PreserveLegacyKeepsInv(sys: System, task: Id)
    requires Inv(sys) && NeedsBaseline(sys, task) && task in sys.first && sys.first[task] == sys.tasks[task]
    requires PreserveLegacy(sys, task).Success?
    ensures Inv(PreserveLegacy(sys, task).value)
  {
    var usage := Normalize(sys.tasks[task].usage.value).value;
    var after := PreserveLegacy(sys, task).value;
    var e := BaselineEvent(task, usage);
    assert after == sys.(events := sys.events + [e]);
    BaselineMatches(sys, task, usage);
    WellRecordedAppend(sys.events, e);
    forall k | 0 <= k < |sys.books.reservations| ensures RowMatches(after, sys.books.reservations[k]) {
      assert RowMatches(sys, sys.books.reservations[k]);
      assert after.events[..|sys.events|] == sys.events;
    }
    assert EventsBelong(after);
  }

  lemma {:induction false} NoEventsNoTotal(events: seq<Event>, task: Id)
    requires !TaskHasEvents(events, task)
    ensures forall c :: TaskTotal(events, task).Get(c) == 0
  {
    if events != [] {
      var init := events[..|events| - 1];
      assert forall i :: 0 <= i < |init| ==> init[i] == events[i];
      NoEventsNoTotal(init, task);
    }
  }

  lemma NoteFirstKeepsInv(sys: System, task: Id)
    requires Inv(sys)
    ensures Inv(NoteFirst(sys, task))
  {
    var after := NoteFirst(sys, task);
    forall t | t in after.tasks && Touched(after, t) ensures CountersMatch(after, t) && FirstReadable(after, t) {
      assert Touched(sys, t) && CountersMatch(sys, t);
    }
    forall k | 0 <= k < |sys.books.reservations| ensures RowMatches(after, sys.books.reservations[k]) {
      assert RowMatches(sys, sys.books.reservations[k]);
    }
  }

  /** Before its first invocation a task is brought to counters == events + what is beyond them. */
  lemma PreparedTask(sys: System, task: Id)
    requires Inv(sys) && PreserveLegacy(NoteFirst(sys, task), task).Success?
    ensures var kept := PreserveLegacy(NoteFirst(sys, task), task).value;
      && Inv(kept) && kept.attempts == sys.attempts && kept.books == sys.books && kept.tasks == sys.tasks
      && !NeedsBaseline(kept, task)
      && (task in kept.tasks ==> CountersMatch(kept, task) && FirstReadable(kept, task))
      && (task in sys.tasks && !Touched(sys, task) ==> kept.first[task] == sys.tasks[task])
  {
    NoteFirstKeepsInv(sys, task);
    var noted := NoteFirst(sys, task);
    if NeedsBaseline(noted, task) {
      PreserveLegacyKeepsInv(noted, task);
      BaselineGrows(noted, BaselineEvent(task, Normalize(noted.tasks[task].usage.value).value), task);
      BaselineCounts(noted, task, Normalize(noted.tasks[task].usage.value).value);
    } else if task in sys.tasks && !Touched(sys, task) {
      NoEventsNoTotal(sys.events, task);
    }
  }

  /** A new running row is harmless once the counters of its task are accounted for. */
  lemma {:induction false} BeginKeepsInv(sys: System, task: Id, id: Id)
    requires Inv(sys) && id !in sys.attempts && IndexOf(sys.books.reservations, id).None?
    requires !NeedsBaseline(sys, task) && (task in sys.tasks ==> CountersMatch(sys, task) && FirstReadable(sys, task))
    ensures Inv(sys.(attempts := sys.attempts[id := Attempt(task, Running, None)]))
  {
    var after := sys.(attempts := sys.attempts[id := Attempt(task, Running, None)]);
    forall t | t != task && TaskHasAttempts(after.attempts, t) ensures TaskHasAttempts(sys.attempts, t) {
      var other :| other in after.attempts && after.attempts[other].task == t;
      assert other in sys.attempts && sys.attempts[other].task == t;
    }
    forall t | t in after.tasks && Touched(after, t) ensures CountersMatch(after, t) && FirstReadable(after, t) {
      assert t != task ==> Touched(sys, t);
      assert CountersMatch(sys, t);
    }
    forall k | 0 <= k < |sys.books.reservations| ensures RowMatches(after, sys.books.reservations[k]) {
      assert RowMatches(sys, sys.books.reservations[k]);
    }
  }

  lemma {:induction false} StartAttemptKeepsInv(sys: System, task: Id, id: Id)
    requires Inv(sys) && id !in sys.attempts && IndexOf(sys.books.reservations, id).None?
    requires StartAttempt(sys, task, id).Success?
    ensures Inv(StartAttempt(sys, task, id).value)
  {
    PreparedTask(sys, task);
    BeginKeepsInv(PreserveLegacy(NoteFirst(sys, task), task).value, task, id);
  }

  // ----- Whole runs -------------------------------------------------------------------------

  datatype Action =
    | NewTask(task: Id, row: TaskRow)
    | Enroll(task: Id)
    | Start(task: Id, id: Id)
    | Consume(invocation: Id, event: EventId, report: Report, kind: Kind, proof: Option<Evidence>)
    | Partial(task: Id, invocation: Id, report: Report)
    | Close(invocation: Id, status: AttemptStatus, last: Option<Report>, evidence: Evidence)
    | Confirm(id: Id, actual: int, evidence: Evidence)
    | Configure(scope: Id, limit: int)
    | Hold(scope: Id, task: Id, id: Id, tokens: int)
    | Crash(tree: set<Id>, reconcile: bool)
    | Project(task: Id, report: Report)

  predicate Unused(sys: System, id: Id) {
    id !in sys.attempts && IndexOf(sys.books.reservations, id).None?
  }

  /** Identifiers of new rows are fresh, and an invocation is closed with a terminal status. */
  ghost predicate Legal(sys: System, a: Action) {
    match a
    case NewTask(task, row) => task !in sys.tasks && !Touched(sys, task)
    case Enroll(task) => task in sys.tasks
    case Start(_, id) => Unused(sys, id)
    case Partial(_, invocation, _) => invocation in sys.attempts || Unused(sys, invocation)
    case Close(_, status, _, _) => status != Running
    case _ => true
  }

  ghost function Perform(sys: System, a: Action): Outcome
    requires Inv(sys)
  {
    match a
    case NewTask(task, row) => Success(sys.(tasks := sys.tasks[task := row]))
    case Enroll(task) =>
      if task in sys.tasks then Success(sys.(tasks := sys.tasks[task := sys.tasks[task].(enrolled := true)])) else Failure(NoTask)
    case Start(task, id) => StartAttempt(sys, task, id)
    case Consume(invocation, id, report, kind, evidence) => Record(sys, invocation, id, report, kind, evidence, false)
    case Partial(task, invocation, report) =>
      var started := if invocation in sys.attempts then Success(sys) else StartAttempt(sys, task, invocation);
      if started.Failure? then started else RecordPartial(started.value, invocation, report)
    case Close(invocation, status, report, evidence) => Finish(sys, invocation, status, report, evidence)
    case Confirm(id, actual, evidence) => SettleConfirmed(sys, id, actual, evidence)
    case Configure(scope, limit) => WithBooks(sys, ConfigureScope(sys.books, scope, limit))
    case Hold(scope, task, id, tokens) => ReserveTokens(sys, scope, task, id, tokens)
    case Crash(tree, reconcile) => Success(Recover(sys, tree, reconcile))
    case Project(task, report) => UpdateUsage(sys, task, report)
  }

  lemma PerformKeepsInv(sys: System, a: Action)
    requires Inv(sys) && Legal(sys, a) && Perform(sys, a).Success?
    ensures Inv(Perform(sys, a).value)
  {
    match a
    case NewTask(task, row) =>
    case Enroll(task) =>
    case Start(task, id) => StartAttemptKeepsInv(sys, task, id);
    case Consume(invocation, id, report, kind, evidence) => RecordKeepsInv(sys, invocation, id, report, kind, evidence, false);
    case Partial(task, invocation, report) =>
      if invocation !in sys.attempts {
        StartAttemptKeepsInv(sys, task, invocation);
      }
      RecordPartialKeepsInv(
        if invocation in sys.attempts then sys else StartAttempt(sys, task, invocation).value, invocation, report);
    case Close(invocation, status, report, evidence) => FinishKeepsInv(sys, invocation, status, report, evidence);
    case Confirm(id, actual, evidence) => SettleConfirmedKeepsInv(sys, id, actual, evidence);
    case Configure(scope, limit) => ConfigureKeepsInv(sys, scope, limit);
    case Hold(scope, task, id, tokens) => ReserveTokensKeepsInv(sys, scope, task, id, tokens);
    case Crash(tree, reconcile) => RecoverKeepsInv(sys, tree, reconcile);
    case Project(task, report) => UpdateUsageKeepsInv(sys, task, report);
  }

  /** A failed action rolls back. */
  ghost predicate Step(before: System, a: Action, after: System) {
    && Inv(before) && Legal(before, a)
    && after == (if Perform(before, a).Success? then Perform(before, a).value else before)
  }

  const Empty := System(EmptyBooks, map[], [], map[], map[])

  /** A run starts with empty tables and takes legal steps; trace[i] is the state before actions[i]. */
  ghost predicate IsRun(trace: seq<System>, actions: seq<Action>) {
    && |trace| == |actions| + 1 && trace[0] == Empty
    && forall i :: 0 <= i < |actions| ==> Legal(trace[i], actions[i]) && (Inv(trace[i]) ==> Step(trace[i], actions[i], trace[i + 1]))
  }

  lemma {:induction false} RunKeepsInv(trace: seq<System>, actions: seq<Action>, n: nat)
    requires IsRun(trace, actions) && n <= |actions|
    ensures Inv(trace[n])
  {
    if n > 0 {
      RunKeepsInv(trace, actions, n - 1);
      assert Step(trace[n - 1], actions[n - 1], trace[n]);
      if Perform(trace[n - 1], actions[n - 1]).Success? {
        PerformKeepsInv(trace[n - 1], actions[n - 1]);
      }
    }
  }

  /**
   * After any run, a settled reservation of an invocation means the invocation is closed, and its actual
   * tokens are what its reports amount to: the last accepted total plus the later deltas.
   */
  lemma SettledReservationsAgree(trace: seq<System>, actions: seq<Action>, n: nat, k: nat)
    requires IsRun(trace, actions) && n <= |actions| && k < |trace[n].books.reservations|
    requires trace[n].books.reservations[k].id in trace[n].attempts && trace[n].books.reservations[k].state == Settled
    ensures var row := trace[n].books.reservations[k];
      && trace[n].attempts[row.id].status != Running
      && row.actual == Some(TotalOf(trace[n].events, Some(row.id)).total)
      && row.actual == Some(Telescoped(trace[n].events, row.id, Total))
  {
    RunKeepsInv(trace, actions, n);
    assert RowMatches(trace[n], trace[n].books.reservations[k]);
    SnapshotsTelescope(trace[n].events, trace[n].books.reservations[k].id, Total);
  }

  /**
   * The condition under which a first row leaves nothing beyond its baseline: copies and links must not count
   * anything, and other rows need a total beside any input and output.
   */
  predicate Complete(task: TaskRow) {
    if task.origin.Inherited? then CountersOf(task) == Zero
    else task.usage.Some? && task.usage.value.total.None? ==> OrZero(task.usage.value.input) + OrZero(task.usage.value.output) == 0
  }

  lemma CompleteLeavesNothing(task: TaskRow)
    requires Countable(task) ==> Normalize(task.usage.value).Some?
    ensures Beyond(task) == Zero <==> Complete(task)
    ensures !task.origin.Inherited? ==> Beyond(task).input == Beyond(task).output == 0 && Beyond(task).total <= 0
  {
    if Countable(task) {
      assert forall c :: OrZero(task.usage.value.Get(c)) >= 0;
      assert OrZero(task.usage.value.Get(Input)) >= 0 && OrZero(task.usage.value.Get(Output)) >= 0;
    }
  }

  /**
   * After any run the counters of a task with consumption are its events plus what its first row counted beyond
   * them; the two agree exactly when that first row was complete. An archived task keeps the counters it had.
   */
  lemma {:induction false} ManagedCountersAgree(trace: seq<System>, actions: seq<Action>, n: nat, task: Id)
    requires IsRun(trace, actions) && n <= |actions| && task in trace[n].tasks && Touched(trace[n], task)
    ensures task in trace[n].first
    ensures trace[n].tasks[task].origin.Archived? ==> trace[n].tasks[task].usage == trace[n].first[task].usage
    ensures !trace[n].tasks[task].origin.Archived? ==>
      && (forall c :: CountersOf(trace[n].tasks[task]).Get(c) == TaskTotal(trace[n].events, task).Get(c) + Beyond(trace[n].first[task]).Get(c))
      && (CountersOf(trace[n].tasks[task]) == TaskTotal(trace[n].events, task) <==> Complete(trace[n].first[task]))
  {
    RunKeepsInv(trace, actions, n);
    assert CountersMatch(trace[n], task) && FirstReadable(trace[n], task);
    CompleteLeavesNothing(trace[n].first[task]);
    if !trace[n].tasks[task].origin.Archived? {
      BeyondDecides(CountersOf(trace[n].tasks[task]), TaskTotal(trace[n].events, task), Beyond(trace[n].first[task]));
    }
  }

  /** The first invocation of a task makes its counters equal its events exactly when its row is complete. */
  lemma {:induction false} FirstInvocationSeeds(sys: System, task: Id, id: Id)
    requires Inv(sys) && task in sys.tasks && !Touched(sys, task) && Unused(sys, id)
    requires StartAttempt(sys, task, id).Success?
    ensures var after := StartAttempt(sys, task, id).value;
      && after.tasks == sys.tasks
      && (CountersOf(after.tasks[task]) == TaskTotal(after.events, task) <==> Complete(sys.tasks[task]))
  {
    PreparedTask(sys, task);
    var after := StartAttempt(sys, task, id).value;
    CompleteLeavesNothing(sys.tasks[task]);
    SeededCounts(sys, task);
    BeyondDecides(CountersOf(after.tasks[task]), TaskTotal(after.events, task), Beyond(after.first[task]));
  }

  /** Archived or not, a task counts its baseline and what was beyond it when its first invocation starts. */
  lemma {:induction false} SeededCounts(sys: System, task: Id)
    requires task in sys.tasks && !Touched(sys, task) && PreserveLegacy(NoteFirst(sys, task), task).Success?
    ensures var kept := PreserveLegacy(NoteFirst(sys, task), task).value;
      forall c :: CountersOf(sys.tasks[task]).Get(c) == TaskTotal(kept.events, task).Get(c) + Beyond(sys.tasks[task]).Get(c)
  {
    if NeedsBaseline(sys, task) {
      SeededTotal(sys.events, task, Normalize(sys.tasks[task].usage.value).value);
    } else {
      NoEventsNoTotal(sys.events, task);
    }
  }

  lemma BeyondDecides(counters: Counters, total: Counters, beyond: Counters)
    requires forall c :: counters.Get(c) == total.Get(c) + beyond.Get(c)
    ensures counters == total <==> beyond == Zero
  {
    if counters == total {
      assert forall c :: beyond.Get(c) == Zero.Get(c);
      SameCounters(beyond, Zero);
    } else if beyond == Zero {
      SameCounters(counters, total);
    }
  }

  /** Historical counters without a total: after the first invocation the total stays behind the events. */
  lemma {:induction false} MissingTotalStaysBehind(task: Id, id: Id, input: nat, output: nat)
    requires input + output > 0
    ensures var row := TaskRow(Some(Report(Some(input), Some(output), None)), Created, false);
      var sys := Empty.(tasks := map[task := row]);
      && !Complete(row) && StartAttempt(sys, task, id).Success?
      && CountersOf(StartAttempt(sys, task, id).value.tasks[task]).total == 0
      && TaskTotal(StartAttempt(sys, task, id).value.events, task).total == input + output
  {
    var row := TaskRow(Some(Report(Some(input), Some(output), None)), Created, false);
    var sys := Empty.(tasks := map[task := row]);
    assert Countable(row) && !Touched(sys, task) && NeedsBaseline(NoteFirst(sys, task), task);
    assert row.usage.value.Get(Input) == Some(input) && row.usage.value.Get(Output) == Some(output) && row.usage.value.Get(Total) == None;
    SeededCounts(sys, task);
    assert Beyond(row).total == -(input + output);
    assert CountersOf(row).Get(Total) == TaskTotal(PreserveLegacy(NoteFirst(sys, task), task).value.events, task).Get(Total) + Beyond(row).Get(Total);
  }
}
