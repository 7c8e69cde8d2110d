/** The token ledger: shared accounts, reservations against them, and their settlement. */
module Ledger {
  import opened Prelude

  datatype ReservationState = Reserved | Unknown | Settled

  datatype Account = Account(limit: nat, spent: int, reserved: int, unknown: int)

  datatype Reservation = Reservation(id: Id, scope: Id, task: Id, state: ReservationState, tokens: nat, actual: Option<int>)

  datatype Evidence = Evidence(reference: string, actor: Option<string>, observedAt: string)

  /** Upward surprises so far: settlements above their reservation, and corrections above the settlement. */
  datatype Surprise = Surprise(overrun: nat, raised: nat)

  /** The two tables, the reconciliation receipts, and (as history only) the surprises per account. */
  datatype Books = Books(
    accounts: map<Id, Account>,
    reservations: seq<Reservation>,
    receipts: map<Id, (int, Evidence)>,
    surprises: map<Id, Surprise>)

  datatype LedgerError =
    | InvalidTokens | UnknownScope | DifferentLimit | BudgetExceeded | BoundElsewhere
    | NoReservation | AlreadySettled | NotSettled | EvidenceWithoutUsage

  // ----- Lookup and sums --------------------------------------------------------------------

  function IndexOf(rows: seq<Reservation>, id: Id): (index: Option<nat>)
    ensures index.Some? ==> index.value < |rows| && rows[index.value].id == id
    ensures index.None? ==> forall i :: 0 <= i < |rows| ==> rows[i].id != id
  {
    if rows == [] then None
    else if rows[|rows| - 1].id == id then Some(|rows| - 1)
    else IndexOf(rows[..|rows| - 1], id)
  }

  function HeldBy(row: Reservation, scope: Id, state: ReservationState): int {
    if row.scope == scope && row.state == state then row.tokens else 0
  }

  function SpentBy(row: Reservation, scope: Id): int {
    if row.scope == scope && row.state == Settled && row.actual.Some? then row.actual.value else 0
  }

  ghost function Held(rows: seq<Reservation>, scope: Id, state: ReservationState): int {
    if rows == [] then 0 else Held(rows[..|rows| - 1], scope, state) + HeldBy(rows[|rows| - 1], scope, state)
  }

  ghost function Spent(rows: seq<Reservation>, scope: Id): int {
    if rows == [] then 0 else Spent(rows[..|rows| - 1], scope) + SpentBy(rows[|rows| - 1], scope)
  }

  /** Changing one row moves the sums by the difference it makes. */
  lemma {:induction false} SumsAfterUpdate(rows: seq<Reservation>, i: nat, row: Reservation, scope: Id, state: ReservationState)
    requires i < |rows|
    ensures Held(rows[i := row], scope, state) == Held(rows, scope, state) - HeldBy(rows[i], scope, state) + HeldBy(row, scope, state)
    ensures Spent(rows[i := row], scope) == Spent(rows, scope) - SpentBy(rows[i], scope) + SpentBy(row, scope)
  {
    var last := |rows| - 1;
    if i < last {
      SumsAfterUpdate(rows[..last], i, row, scope, state);
      assert rows[i := row][..last] == rows[..last][i := row];
    } else {
      assert rows[i := row][..last] == rows[..last];
    }
  }

  // ----- The invariant ----------------------------------------------------------------------

  /** Each balance is the sum of the reservations in that state. */
  ghost predicate Balanced(books: Books, scope: Id) {
    && scope in books.accounts
    && books.accounts[scope].reserved == Held(books.reservations, scope, Reserved)
    && books.accounts[scope].unknown == Held(books.reservations, scope, Unknown)
    && books.accounts[scope].spent == Spent(books.reservations, scope)
  }

  function Committed(account: Account): int {
    account.reserved + account.unknown + account.spent
  }

  /** What an account has promised exceeds its limit by no more than the upward surprises so far. */
  ghost predicate Bounded(books: Books, scope: Id) {
    && scope in books.accounts && scope in books.surprises
    && Committed(books.accounts[scope]) <= books.accounts[scope].limit + books.surprises[scope].overrun + books.surprises[scope].raised
  }

  ghost predicate WellFormed(row: Reservation) {
    && (row.actual.Some? <==> row.state == Settled)
    && (row.actual.Some? ==> row.actual.value >= 0)
  }

  ghost predicate Valid(books: Books) {
    && books.surprises.Keys == books.accounts.Keys
    && (forall scope {:trigger Balanced(books, scope)} {:trigger Bounded(books, scope)} :: scope in books.accounts ==>
          Balanced(books, scope) && Bounded(books, scope))
    && (forall i :: 0 <= i < |books.reservations| ==>
          books.reservations[i].scope in books.accounts && WellFormed(books.reservations[i]))
    && (forall i, j :: 0 <= i < j < |books.reservations| ==> books.reservations[i].id != books.reservations[j].id)
  }

  // ----- Operations -------------------------------------------------------------------------

  function ConfigureScope(books: Books, scope: Id, limit: int): Result<Books, LedgerError> {
    if limit < 0 then Failure(InvalidTokens)
    else if scope !in books.accounts then
      Success(books.(accounts := books.accounts[scope := Account(limit, 0, 0, 0)],
                     surprises := books.surprises[scope := Surprise(0, 0)]))
    else if books.accounts[scope].limit != limit then Failure(DifferentLimit)
    else Success(books)
  }

  /** reserve: the row and the hold together, or nothing; the same call again changes nothing. */
  function Reserve(books: Books, scope: Id, task: Id, id: Id, tokens: int): Result<Books, LedgerError> {
    if tokens < 0 then Failure(InvalidTokens)
    else
      var found := IndexOf(books.reservations, id);
      if found.Some? then
        var row := books.reservations[found.value];
        if row.scope == scope && row.task == task && row.tokens == tokens then Success(books) else Failure(BoundElsewhere)
      else if scope !in books.accounts || books.accounts[scope].limit - Committed(books.accounts[scope]) < tokens
        then Failure(BudgetExceeded)
      else
        var account := books.accounts[scope];
        Success(books.(
          accounts := books.accounts[scope := account.(reserved := account.reserved + tokens)],
          reservations := books.reservations + [Reservation(id, scope, task, Reserved, tokens, None)]))
  }

  function Release(account: Account, source: ReservationState, tokens: nat): Account {
    match source
    case Reserved => account.(reserved := account.reserved - tokens)
    case Unknown => account.(unknown := account.unknown - tokens)
    case Settled => account
  }

  /** One conditional transition of row i, with the account update that goes with it. */
  function Transition(books: Books, i: nat, actual: Option<int>): Books
    requires i < |books.reservations| && books.reservations[i].scope in books.accounts
    requires books.reservations[i].scope in books.surprises
  {
    var row := books.reservations[i];
    var freed := Release(books.accounts[row.scope], row.state, row.tokens);
    match actual
    case None =>
      books.(reservations := books.reservations[i := row.(state := Unknown, actual := None)],
             accounts := books.accounts[row.scope := freed.(unknown := freed.unknown + row.tokens)])
    case Some(tokens) =>
      var seen := books.surprises[row.scope];
      books.(reservations := books.reservations[i := row.(state := Settled, actual := actual)],
             accounts := books.accounts[row.scope := freed.(spent := freed.spent + tokens)],
             surprises := books.surprises[row.scope := seen.(overrun := seen.overrun + Excess(tokens, row.tokens))])
  }

  function Excess(now: int, before: int): nat {
    if now > before then now - before else 0
  }

  /** The first evidence for a reservation is kept; later ones are ignored. */
  function RecordEvidence(books: Books, id: Id, actual: int, evidence: Evidence): Books {
    if id in books.receipts then books else books.(receipts := books.receipts[id := (actual, evidence)])
  }

  /**
   * settle: a reserved row may become unknown, a reserved or unknown row may become settled, and a row is
   * settled once; repeating a settlement changes nothing, contradicting it is an error.
   */
  function Settle(books: Books, id: Id, actual: Option<int>, evidence: Option<Evidence>): Result<Books, LedgerError>
    requires Valid(books)
  {
    if actual.Some? && actual.value < 0 then Failure(InvalidTokens)
    else
      var found := IndexOf(books.reservations, id);
      if found.None? then Failure(NoReservation)
      else
        var row := books.reservations[found.value];
        var moves := row.state == Reserved || (row.state == Unknown && actual.Some?);
        if !moves && actual.Some? && row.actual != actual then Failure(AlreadySettled)
        else if evidence.Some? && actual.None? then Failure(EvidenceWithoutUsage)
        else
          var moved := if moves then Transition(books, found.value, actual) else books;
          Success(if evidence.Some? then RecordEvidence(moved, id, actual.value, evidence.value) else moved)
  }

  /** _correct_settlement: replaces the usage of a settled row and moves the spent balance with it. */
  function Correct(books: Books, id: Id, actual: int): Result<Books, LedgerError>
    requires Valid(books)
  {
    if actual < 0 then Failure(InvalidTokens)
    else
      var found := IndexOf(books.reservations, id);
      if found.None? || books.reservations[found.value].state != Settled then Failure(NotSettled)
      else
        var row := books.reservations[found.value];
        var account := books.accounts[row.scope];
        var seen := books.surprises[row.scope];
        Success(books.(
          reservations := books.reservations[found.value := row.(actual := Some(actual))],
          accounts := books.accounts[row.scope := account.(spent := account.spent + actual - row.actual.value)],
          surprises := books.surprises[row.scope := seen.(raised := seen.raised + Excess(actual, row.actual.value))]))
  }

  /** Crash recovery: every reserved row of the tree becomes an unknown liability. */
  function HoldUnknown(books: Books, tasks: set<Id>, n: nat): (held: Books)
    requires Valid(books) && n <= |books.reservations|
    ensures Valid(held)
    ensures |held.reservations| == |books.reservations| && held.receipts == books.receipts
    ensures held.surprises == books.surprises && held.accounts.Keys == books.accounts.Keys
    ensures forall i :: 0 <= i < |books.reservations| ==>
      held.reservations[i] == if i < n && books.reservations[i].state == Reserved && books.reservations[i].task in tasks
                              then books.reservations[i].(state := Unknown, actual := None) else books.reservations[i]
  {
    if n == 0 then books
    else
      var before := HoldUnknown(books, tasks, n - 1);
      var row := before.reservations[n - 1];
      if row.state == Reserved && row.task in tasks then
        TransitionKeepsValid(before, n - 1, None);
        Transition(before, n - 1, None)
      else before
  }

  // ----- Preservation -----------------------------------------------------------------------

  /** The only transitions settle performs keep every balance and the bound. */
  lemma TransitionKeepsValid(books: Books, i: nat, actual: Option<int>)
    requires Valid(books) && i < |books.reservations|
    requires books.reservations[i].state == Reserved || (books.reservations[i].state == Unknown && actual.Some?)
    requires actual.Some? ==> actual.value >= 0
    ensures Valid(Transition(books, i, actual))
  {
    var after := Transition(books, i, actual);
    var row := books.reservations[i];
    forall scope | scope in books.accounts ensures Balanced(after, scope) && Bounded(after, scope) {
      SumsAfterUpdate(books.reservations, i, after.reservations[i], scope, Reserved);
      SumsAfterUpdate(books.reservations, i, after.reservations[i], scope, Unknown);
      assert Balanced(books, scope) && Bounded(books, scope);
    }
  }

  lemma CorrectKeepsValid(books: Books, id: Id, actual: int)
    requires Valid(books)
    ensures Correct(books, id, actual).Success? ==> Valid(Correct(books, id, actual).value)
  {
    var r := Correct(books, id, actual);
    if r.Success? {
      var i := IndexOf(books.reservations, id).value;
      forall scope | scope in books.accounts ensures Balanced(r.value, scope) && Bounded(r.value, scope) {
        SumsAfterUpdate(books.reservations, i, r.value.reservations[i], scope, Reserved);
        SumsAfterUpdate(books.reservations, i, r.value.reservations[i], scope, Unknown);
        assert Balanced(books, scope) && Bounded(books, scope);
      }
    }
  }

  /** A new hold is reflected in its account, and stays within the limit that was checked. */
  lemma HoldBalances(books: Books, row: Reservation, after: Books, s: Id)
    requires row.scope in books.accounts && s in books.accounts && row.state == Reserved
    requires Balanced(books, s) && Bounded(books, s)
    requires row.scope == s ==> Committed(books.accounts[s]) + row.tokens <= books.accounts[s].limit
    requires var account := books.accounts[row.scope];
      after == books.(accounts := books.accounts[row.scope := account.(reserved := account.reserved + row.tokens)],
                      reservations := books.reservations + [row])
    ensures Balanced(after, s) && Bounded(after, s)
  {
  }

  lemma ReserveKeepsValid(books: Books, scope: Id, task: Id, id: Id, tokens: int)
    requires Valid(books)
    ensures Reserve(books, scope, task, id, tokens).Success? ==> Valid(Reserve(books, scope, task, id, tokens).value)
  {
    var r := Reserve(books, scope, task, id, tokens);
    if r.Success? && IndexOf(books.reservations, id).None? {
      forall s | s in books.accounts ensures Balanced(r.value, s) && Bounded(r.value, s) {
        HoldBalances(books, Reservation(id, scope, task, Reserved, tokens, None), r.value, s);
      }
    }
  }

  lemma SettleKeepsValid(books: Books, id: Id, actual: Option<int>, evidence: Option<Evidence>)
    requires Valid(books)
    ensures Settle(books, id, actual, evidence).Success? ==> Valid(Settle(books, id, actual, evidence).value)
  {
    var found := IndexOf(books.reservations, id);
    if found.Some? && (actual.Some? ==> actual.value >= 0) {
      var row := books.reservations[found.value];
      if row.state == Reserved || (row.state == Unknown && actual.Some?) {
        TransitionKeepsValid(books, found.value, actual);
        if evidence.Some? && actual.Some? {
          EvidenceKeepsValid(Transition(books, found.value, actual), id, actual.value, evidence.value);
        }
      } else if evidence.Some? && actual.Some? {
        EvidenceKeepsValid(books, id, actual.value, evidence.value);
      }
    }
  }

  lemma EvidenceKeepsValid(books: Books, id: Id, actual: int, evidence: Evidence)
    requires Valid(books)
    ensures Valid(RecordEvidence(books, id, actual, evidence))
  {
    var after := RecordEvidence(books, id, actual, evidence);
    forall scope | scope in books.accounts ensures Balanced(after, scope) && Bounded(after, scope) {
      assert Balanced(books, scope) && Bounded(books, scope);
    }
  }

  lemma ConfigureKeepsValid(books: Books, scope: Id, limit: int)
    requires Valid(books)
    ensures ConfigureScope(books, scope, limit).Success? ==> Valid(ConfigureScope(books, scope, limit).value)
  {
    var r := ConfigureScope(books, scope, limit);
    if r.Success? && scope !in books.accounts {
      NoRowsNoSums(books.reservations, scope);
      forall s | s in r.value.accounts ensures Balanced(r.value, s) && Bounded(r.value, s) {
        if s != scope {
          assert Balanced(books, s) && Bounded(books, s);
        }
      }
    }
  }

  lemma {:induction false} NoRowsNoSums(rows: seq<Reservation>, scope: Id)
    requires forall i :: 0 <= i < |rows| ==> rows[i].scope != scope
    ensures Held(rows, scope, Reserved) == 0 && Held(rows, scope, Unknown) == 0 && Spent(rows, scope) == 0
  {
    if rows != [] {
      NoRowsNoSums(rows[..|rows| - 1], scope);
    }
  }

  // ----- Whole runs -------------------------------------------------------------------------

  datatype Action =
    | LConfigure(scope: Id, limit: int)
    | LReserve(scope: Id, task: Id, id: Id, tokens: int)
    | LSettle(id: Id, actual: Option<int>, evidence: Option<Evidence>)
    | LCorrect(id: Id, usage: int)
    | LHold(tasks: set<Id>)

  /** A failed call rolls back. */
  function Kept(books: Books, r: Result<Books, LedgerError>): Books {
    if r.Success? then r.value else books
  }

  function Apply(books: Books, a: Action): (after: Books)
    requires Valid(books)
    ensures Valid(after)
  {
    match a
    case LConfigure(scope, limit) =>
      ConfigureKeepsValid(books, scope, limit);
      Kept(books, ConfigureScope(books, scope, limit))
    case LReserve(scope, task, id, tokens) =>
      ReserveKeepsValid(books, scope, task, id, tokens);
      Kept(books, Reserve(books, scope, task, id, tokens))
    case LSettle(id, actual, evidence) =>
      SettleKeepsValid(books, id, actual, evidence);
      Kept(books, Settle(books, id, actual, evidence))
    case LCorrect(id, usage) =>
      CorrectKeepsValid(books, id, usage);
      Kept(books, Correct(books, id, usage))
    case LHold(tasks) => HoldUnknown(books, tasks, |books.reservations|)
  }

  function RunAll(books: Books, actions: seq<Action>): (after: Books)
    requires Valid(books)
    ensures Valid(after)
    decreases |actions|
  {
    if actions == [] then books else RunAll(Apply(books, actions[0]), actions[1..])
  }

  const EmptyBooks := Books(map[], [], map[], map[])

  /** Conservation and the commitment bound hold in every reachable state. */
  lemma {:induction false} EveryRunBalances(actions: seq<Action>, scope: Id)
    requires scope in RunAll(EmptyBooks, actions).accounts
    ensures Balanced(RunAll(EmptyBooks, actions), scope) && Bounded(RunAll(EmptyBooks, actions), scope)
  {
    var books := RunAll(EmptyBooks, actions);
    assert Valid(books);
  }

  ghost predicate Within(books: Books) {
    forall scope {:trigger InLimit(books, scope)} :: scope in books.accounts ==> InLimit(books, scope)
  }

  predicate InLimit(books: Books, scope: Id)
    requires scope in books.accounts
  {
    Committed(books.accounts[scope]) <= books.accounts[scope].limit
  }

  function Headroom(books: Books, scope: Id): int
    requires scope in books.accounts
  {
    books.accounts[scope].limit - Committed(books.accounts[scope])
  }

  /** What a caller can check before the call: the usage beyond what the row accounts for fits the account's headroom. */
  predicate Fits(books: Books, a: Action)
    requires forall i :: 0 <= i < |books.reservations| ==> books.reservations[i].scope in books.accounts
  {
    match a
    case LSettle(id, actual, _) =>
      var found := IndexOf(books.reservations, id);
      found.Some? && actual.Some? && actual.value >= 0 && books.reservations[found.value].state != Settled ==>
        actual.value - books.reservations[found.value].tokens <= Headroom(books, books.reservations[found.value].scope)
    case LCorrect(id, usage) =>
      var found := IndexOf(books.reservations, id);
      found.Some? && usage >= 0 && books.reservations[found.value].actual.Some? ==>
        usage - books.reservations[found.value].actual.value <= Headroom(books, books.reservations[found.value].scope)
    case _ => true
  }

  /** A correction keeps its account within the limit exactly when the increase fits the headroom. */
  lemma {:induction false} CorrectionFitsExactly(books: Books, id: Id, actual: int)
    requires Valid(books) && Correct(books, id, actual).Success?
    ensures var row := books.reservations[IndexOf(books.reservations, id).value];
      && row.actual.Some? && row.scope in Correct(books, id, actual).value.accounts
      && (InLimit(Correct(books, id, actual).value, row.scope) <==> actual - row.actual.value <= Headroom(books, row.scope))
  {
  }

  /** A first settlement keeps its account within the limit exactly when the excess over the reservation fits the headroom. */
  lemma {:induction false} SettlementFitsExactly(books: Books, id: Id, actual: int, evidence: Option<Evidence>)
    requires Valid(books) && Settle(books, id, Some(actual), evidence).Success?
    requires books.reservations[IndexOf(books.reservations, id).value].state != Settled
    ensures var row := books.reservations[IndexOf(books.reservations, id).value];
      && row.scope in Settle(books, id, Some(actual), evidence).value.accounts
      && (InLimit(Settle(books, id, Some(actual), evidence).value, row.scope) <==> actual - row.tokens <= Headroom(books, row.scope))
  {
  }

  ghost predicate SameCommitment(before: Books, after: Books, scope: Id) {
    && scope in before.accounts && scope in after.accounts
    && after.accounts[scope].limit == before.accounts[scope].limit
    && Committed(after.accounts[scope]) == Committed(before.accounts[scope])
  }

  lemma HoldingOneKeepsCommitted(books: Books, i: nat, scope: Id)
    requires i < |books.reservations| && books.reservations[i].state == Reserved && scope in books.accounts
    requires books.reservations[i].scope in books.accounts && books.reservations[i].scope in books.surprises
    ensures SameCommitment(books, Transition(books, i, None), scope)
  {
  }

  /** Turning reservations into liabilities commits no more and no less. */
  lemma {:induction false} HoldKeepsCommitted(books: Books, tasks: set<Id>, n: nat, scope: Id)
    requires Valid(books) && n <= |books.reservations| && scope in books.accounts
    ensures SameCommitment(books, HoldUnknown(books, tasks, n), scope)
  {
    if n > 0 {
      HoldKeepsCommitted(books, tasks, n - 1, scope);
      var before := HoldUnknown(books, tasks, n - 1);
      HoldStep(before, tasks, n - 1, scope);
      assert HoldUnknown(books, tasks, n) == HeldOne(before, tasks, n - 1);
    }
  }

  ghost function HeldOne(books: Books, tasks: set<Id>, i: nat): Books
    requires Valid(books) && i < |books.reservations|
  {
    if books.reservations[i].state == Reserved && books.reservations[i].task in tasks then Transition(books, i, None) else books
  }

  lemma HoldStep(books: Books, tasks: set<Id>, i: nat, scope: Id)
    requires Valid(books) && i < |books.reservations| && scope in books.accounts
    ensures SameCommitment(books, HeldOne(books, tasks, i), scope)
  {
    if books.reservations[i].state == Reserved {
      HoldingOneKeepsCommitted(books, i, scope);
    }
  }

  /** From accounts within their limits, a call leaves them so exactly when it fits. */
  lemma StepStaysWithinLimits(books: Books, a: Action)
    requires Valid(books) && Within(books)
    ensures Within(Apply(books, a)) <==> Fits(books, a)
  {
    var after := Apply(books, a);
    match a
    case LHold(tasks) =>
      forall scope | scope in after.accounts ensures InLimit(after, scope) {
        HoldKeepsCommitted(books, tasks, |books.reservations|, scope);
        assert InLimit(books, scope);
      }
    case LSettle(id, actual, evidence) => SettleStaysWithinLimits(books, id, actual, evidence);
    case LCorrect(id, usage) => CorrectStaysWithinLimits(books, id, usage);
    case _ =>
      forall scope | scope in after.accounts ensures InLimit(after, scope) {
        assert scope in books.accounts ==> InLimit(books, scope);
      }
  }

  lemma SettleStaysWithinLimits(books: Books, id: Id, actual: Option<int>, evidence: Option<Evidence>)
    requires Valid(books) && Within(books)
    ensures Within(Apply(books, LSettle(id, actual, evidence))) <==> Fits(books, LSettle(id, actual, evidence))
  {
    var after := Apply(books, LSettle(id, actual, evidence));
    var found := IndexOf(books.reservations, id);
    forall scope | scope in after.accounts && (found.None? || scope != books.reservations[found.value].scope)
      ensures InLimit(after, scope)
    {
      assert InLimit(books, scope);
    }
    if found.Some? {
      var scope := books.reservations[found.value].scope;
      assert InLimit(books, scope);
      assert scope in after.accounts && (InLimit(after, scope) <==> Fits(books, LSettle(id, actual, evidence)));
    }
  }

  lemma CorrectStaysWithinLimits(books: Books, id: Id, usage: int)
    requires Valid(books) && Within(books)
    ensures Within(Apply(books, LCorrect(id, usage))) <==> Fits(books, LCorrect(id, usage))
  {
    var after := Apply(books, LCorrect(id, usage));
    var found := IndexOf(books.reservations, id);
    forall scope | scope in after.accounts && (found.None? || scope != books.reservations[found.value].scope)
      ensures InLimit(after, scope)
    {
      assert InLimit(books, scope);
    }
    if found.Some? {
      var scope := books.reservations[found.value].scope;
      assert InLimit(books, scope);
      assert scope in after.accounts && (InLimit(after, scope) <==> Fits(books, LCorrect(id, usage)));
    }
  }

  ghost predicate WithinThroughout(books: Books, actions: seq<Action>)
    requires Valid(books)
    decreases |actions|
  {
    Within(books) && (actions != [] ==> WithinThroughout(Apply(books, actions[0]), actions[1..]))
  }

  ghost predicate EveryCallFits(books: Books, actions: seq<Action>)
    requires Valid(books)
    decreases |actions|
  {
    actions != [] ==> Fits(books, actions[0]) && EveryCallFits(Apply(books, actions[0]), actions[1..])
  }

  /** A run keeps every account within its limit all along exactly when every call of it fits. */
  lemma {:induction false} RunsStayWithinLimitsExactly(books: Books, actions: seq<Action>)
    requires Valid(books) && Within(books)
    ensures WithinThroughout(books, actions) <==> EveryCallFits(books, actions)
    ensures EveryCallFits(books, actions) ==> Within(RunAll(books, actions))
    decreases |actions|
  {
    if actions != [] {
      StepStaysWithinLimits(books, actions[0]);
      if Fits(books, actions[0]) {
        RunsStayWithinLimitsExactly(Apply(books, actions[0]), actions[1..]);
      }
    }
  }

  lemma {:induction false} RunAppend(books: Books, actions: seq<Action>, a: Action)
    requires Valid(books)
    ensures RunAll(books, actions + [a]) == Apply(RunAll(books, actions), a)
    decreases |actions|
  {
    if actions == [] {
      assert [] + [a] == [a] && [a][1..] == [];
    } else {
      RunAppend(Apply(books, actions[0]), actions[1..], a);
      assert (actions + [a])[1..] == actions[1..] + [a];
    }
  }

  /** An account opened with limit n, its whole limit reserved by one row, and then settled at a. */
  ghost function Opened(scope: Id, n: nat): Books {
    Books(map[scope := Account(n, 0, 0, 0)], [], map[], map[scope := Surprise(0, 0)])
  }

  ghost function FullyReserved(scope: Id, task: Id, id: Id, n: nat): Books {
    Books(map[scope := Account(n, 0, n, 0)], [Reservation(id, scope, task, Reserved, n, None)], map[], map[scope := Surprise(0, 0)])
  }

  ghost function FullySpent(scope: Id, task: Id, id: Id, n: nat): Books {
    Books(map[scope := Account(n, n, 0, 0)], [Reservation(id, scope, task, Settled, n, Some(n))], map[], map[scope := Surprise(0, 0)])
  }

  lemma ReserveEverything(scope: Id, task: Id, id: Id, n: nat)
    ensures Reserve(Opened(scope, n), scope, task, id, n) == Success(FullyReserved(scope, task, id, n))
  {
    assert Opened(scope, n).accounts[scope := Account(n, 0, n, 0)] == map[scope := Account(n, 0, n, 0)];
    var row := Reservation(id, scope, task, Reserved, n, None);
    assert Opened(scope, n).reservations + [row] == [row];
  }

  lemma SpendEverything(scope: Id, task: Id, id: Id, n: nat)
    requires Valid(FullyReserved(scope, task, id, n))
    ensures Settle(FullyReserved(scope, task, id, n), id, Some(n), None) == Success(FullySpent(scope, task, id, n))
  {
    var books := FullyReserved(scope, task, id, n);
    assert books.reservations[0].id == id;
    assert books.accounts[scope := Account(n, n, 0, 0)] == map[scope := Account(n, n, 0, 0)];
    assert books.surprises[scope := Surprise(0, 0)] == map[scope := Surprise(0, 0)];
    var row := Reservation(id, scope, task, Settled, n, Some(n));
    assert books.reservations[0 := row] == [row];
  }

  /** The bound needs the correction term: an upward correction alone passes the limit of a full account. */
  lemma CorrectionCanPassTheLimit(scope: Id, task: Id, id: Id, n: nat, extra: nat) returns (actions: seq<Action>)
    requires extra > 0
    ensures var books := RunAll(EmptyBooks, actions);
      scope in books.accounts && Committed(books.accounts[scope]) == books.accounts[scope].limit + extra
      && books.surprises[scope] == Surprise(0, extra)
  {
    actions := FullySpentRun(scope, task, id, n);
    var books := RunAll(EmptyBooks, actions);
    assert books.reservations[0].id == id;
    RunAppend(EmptyBooks, actions, LCorrect(id, n + extra));
    actions := actions + [LCorrect(id, n + extra)];
  }

  lemma FullySpentRun(scope: Id, task: Id, id: Id, n: nat) returns (actions: seq<Action>)
    ensures RunAll(EmptyBooks, actions) == FullySpent(scope, task, id, n)
  {
    actions := [];
    RunAppend(EmptyBooks, actions, LConfigure(scope, n));
    actions := actions + [LConfigure(scope, n)];
    assert RunAll(EmptyBooks, actions) == Opened(scope, n);
    ReserveEverything(scope, task, id, n);
    RunAppend(EmptyBooks, actions, LReserve(scope, task, id, n));
    actions := actions + [LReserve(scope, task, id, n)];
    assert RunAll(EmptyBooks, actions) == FullyReserved(scope, task, id, n);
    SpendEverything(scope, task, id, n);
    RunAppend(EmptyBooks, actions, LSettle(id, Some(n), None));
    actions := actions + [LSettle(id, Some(n), None)];
  }

  // ----- Replays ----------------------------------------------------------------------------

  /** Repeating a reservation that succeeded succeeds and changes nothing. */
  lemma ReserveReplay(books: Books, scope: Id, task: Id, id: Id, tokens: int)
    requires Valid(books) && Reserve(books, scope, task, id, tokens).Success?
    ensures var once := Reserve(books, scope, task, id, tokens).value;
      Reserve(once, scope, task, id, tokens) == Success(once)
  {
  }

  lemma {:induction false} SameIndex(before: seq<Reservation>, after: seq<Reservation>, id: Id, i: nat)
    requires |before| == |after| && forall k :: 0 <= k < |before| ==> before[k].id == after[k].id
    requires forall j, k :: 0 <= j < k < |before| ==> before[j].id != before[k].id
    requires i < |before| && before[i].id == id
    ensures IndexOf(after, id) == Some(i)
  {
  }

  /** No reservation but row i differs, and row i keeps its identity. */
  ghost predicate OnlyRow(before: Books, after: Books, i: nat) {
    && i < |before.reservations| == |after.reservations|
    && (forall k :: 0 <= k < |before.reservations| && k != i ==> after.reservations[k] == before.reservations[k])
    && after.reservations[i].id == before.reservations[i].id
  }

  /** A successful correction replaces the usage of the settled row. */
  lemma CorrectedRow(books: Books, id: Id, actual: int) returns (i: nat)
    requires Valid(books) && Correct(books, id, actual).Success?
    ensures var after := Correct(books, id, actual).value;
      && Valid(after) && OnlyRow(books, after, i)
      && after.reservations[i].id == id && after.reservations[i].state == Settled
      && after.reservations[i].actual == Some(actual)
  {
    CorrectKeepsValid(books, id, actual);
    i := IndexOf(books.reservations, id).value;
  }

  /** After a successful settlement the row records it: unknown without usage, settled with it. */
  lemma SettledRow(books: Books, id: Id, actual: Option<int>, evidence: Option<Evidence>) returns (i: nat)
    requires Valid(books) && Settle(books, id, actual, evidence).Success?
    ensures var once := Settle(books, id, actual, evidence).value;
      && Valid(once) && IndexOf(once.reservations, id) == Some(i) && i < |once.reservations|
      && once.reservations[i].id == id && once.reservations[i].state != Reserved
      && (actual.Some? ==> once.reservations[i].state == Settled && once.reservations[i].actual == actual)
      && OnlyRow(books, once, i)
  {
    SettleKeepsValid(books, id, actual, evidence);
    i := IndexOf(books.reservations, id).value;
    SameIndex(books.reservations, Settle(books, id, actual, evidence).value.reservations, id, i);
  }

  /** Repeating a settlement, with whatever evidence, changes no balance and no row. */
  lemma SettleReplay(books: Books, id: Id, actual: Option<int>, evidence: Option<Evidence>, again: Option<Evidence>)
    requires Valid(books) && Settle(books, id, actual, evidence).Success?
    requires again.Some? ==> actual.Some?
    ensures var once := Settle(books, id, actual, evidence).value;
      && Valid(once)
      && Settle(once, id, actual, again).Success?
      && Settle(once, id, actual, again).value.accounts == once.accounts
      && Settle(once, id, actual, again).value.reservations == once.reservations
  {
    var i := SettledRow(books, id, actual, evidence);
  }

  /** Contradicting a settlement is refused. */
  lemma SettleConflict(books: Books, id: Id, actual: int, other: int, evidence: Option<Evidence>)
    requires Valid(books) && Settle(books, id, Some(actual), None).Success? && other != actual && other >= 0
    ensures Valid(Settle(books, id, Some(actual), None).value)
    ensures Settle(Settle(books, id, Some(actual), None).value, id, Some(other), evidence) == Failure(AlreadySettled)
  {
    var i := SettledRow(books, id, Some(actual), None);
  }
}
