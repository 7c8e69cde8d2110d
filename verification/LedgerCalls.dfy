/** What one call to the ledger does, told from the rows and balances alone. */
module LedgerCalls {
  import opened Prelude
  import opened Ledger

  predicate RowAt(books: Books, i: nat, id: Id) {
    i < |books.reservations| && books.reservations[i].id == id
  }

  /** Only row i and the account of its scope may differ. */
  ghost predicate OnlyThere(before: Books, after: Books, i: nat)
    requires i < |before.reservations|
  {
    && |after.reservations| == |before.reservations|
    && (forall k :: 0 <= k < |before.reservations| && k != i ==> after.reservations[k] == before.reservations[k])
    && after.accounts.Keys == before.accounts.Keys
    && (forall s :: s in before.accounts && s != before.reservations[i].scope ==> after.accounts[s] == before.accounts[s])
  }

  /** Row i is settled at the usage: its tokens left the balance they were in, and the usage is spent. */
  ghost predicate SettledAt(before: Books, after: Books, i: nat, actual: int)
    requires i < |before.reservations| && before.reservations[i].scope in before.accounts
  {
    var row, account := before.reservations[i], before.accounts[before.reservations[i].scope];
    && OnlyThere(before, after, i)
    && after.reservations[i] == row.(state := Settled, actual := Some(actual))
    && after.accounts[row.scope] == Account(account.limit, account.spent + actual,
         account.reserved - (if row.state == Reserved then row.tokens else 0),
         account.unknown - (if row.state == Unknown then row.tokens else 0))
  }

  /** Row i is an unknown liability: its tokens are no longer reserved but unknown. */
  ghost predicate UnknownAt(before: Books, after: Books, i: nat)
    requires i < |before.reservations| && before.reservations[i].scope in before.accounts
  {
    var row, account := before.reservations[i], before.accounts[before.reservations[i].scope];
    var moved := if row.state == Reserved then row.tokens else 0;
    && OnlyThere(before, after, i)
    && after.reservations[i] == row.(state := Unknown, actual := None)
    && after.accounts[row.scope] == Account(account.limit, account.spent, account.reserved - moved, account.unknown + moved)
  }

  /** The first settlement of an open row. */
  lemma SettleMeans(books: Books, i: nat, actual: Option<int>, evidence: Option<Evidence>)
    requires Valid(books) && i < |books.reservations| && books.reservations[i].state != Settled
    requires (actual.Some? ==> actual.value >= 0) && (evidence.Some? ==> actual.Some?)
    ensures books.reservations[i].scope in books.accounts
    ensures var r := Settle(books, books.reservations[i].id, actual, evidence);
      && r.Success?
      && match actual
         case Some(tokens) => SettledAt(books, r.value, i, tokens)
         case None => UnknownAt(books, r.value, i)
  {
    SameIndex(books.reservations, books.reservations, books.reservations[i].id, i);
    assert WellFormed(books.reservations[i]);
  }

  /** An open row can be settled at any usage, a settled one only at its own, and evidence needs usage. */
  lemma SettlesExactly(books: Books, i: nat, actual: Option<int>, evidence: Option<Evidence>)
    requires Valid(books) && i < |books.reservations|
    ensures var row := books.reservations[i];
      Settle(books, row.id, actual, evidence).Success? <==>
        match actual
        case Some(tokens) => tokens >= 0 && (row.state == Settled ==> row.actual == actual)
        case None => evidence.None?
  {
    SameIndex(books.reservations, books.reservations, books.reservations[i].id, i);
    assert WellFormed(books.reservations[i]);
  }

  /** Settling again moves nothing, and the first evidence of a reservation is the one that is kept. */
  lemma SettleKeepsEvidence(books: Books, i: nat, actual: Option<int>, evidence: Option<Evidence>)
    requires Valid(books) && i < |books.reservations|
    requires Settle(books, books.reservations[i].id, actual, evidence).Success?
    ensures var row := books.reservations[i];
      var after := Settle(books, row.id, actual, evidence).value;
      && (row.state == Settled || (row.state == Unknown && actual.None?) ==>
            after.reservations == books.reservations && after.accounts == books.accounts)
      && after.receipts == if evidence.None? || row.id in books.receipts then books.receipts
                           else books.receipts[row.id := (actual.value, evidence.value)]
  {
    SameIndex(books.reservations, books.reservations, books.reservations[i].id, i);
    assert WellFormed(books.reservations[i]);
  }

  /** A correction succeeds exactly on a settled row, and moves only that row's usage and its scope's spent balance. */
  lemma CorrectsExactly(books: Books, i: nat, actual: int)
    requires Valid(books) && i < |books.reservations|
    ensures var row := books.reservations[i];
      && (Correct(books, row.id, actual).Success? <==> actual >= 0 && row.state == Settled)
      && (Correct(books, row.id, actual).Success? ==>
            var after := Correct(books, row.id, actual).value;
            && OnlyThere(books, after, i) && row.actual.Some? && row.scope in books.accounts
            && after.reservations[i] == row.(actual := Some(actual))
            && after.accounts[row.scope]
               == books.accounts[row.scope].(spent := books.accounts[row.scope].spent + actual - row.actual.value))
  {
    SameIndex(books.reservations, books.reservations, books.reservations[i].id, i);
    assert WellFormed(books.reservations[i]);
  }

  /** Without a row there is nothing to settle or to correct. */
  lemma NothingWithoutRow(books: Books, id: Id, actual: Option<int>, evidence: Option<Evidence>)
    requires Valid(books) && forall i :: 0 <= i < |books.reservations| ==> books.reservations[i].id != id
    ensures Settle(books, id, actual, evidence).Failure?
    ensures actual.Some? ==> Correct(books, id, actual.value).Failure?
  {
  }

  /** What the rows of a scope reserve, leave unknown and have spent. */
  ghost function Promised(rows: seq<Reservation>, scope: Id): int {
    Held(rows, scope, Reserved) + Held(rows, scope, Unknown) + Spent(rows, scope)
  }

  /** A new reservation is made exactly when its tokens fit what its scope has not promised yet; it takes just them. */
  lemma {:induction false} ReservesExactly(books: Books, scope: Id, task: Id, id: Id, tokens: int)
    requires Valid(books) && forall i :: 0 <= i < |books.reservations| ==> books.reservations[i].id != id
    ensures var r := Reserve(books, scope, task, id, tokens);
      && (r.Success? <==> tokens >= 0 && scope in books.accounts && Promised(books.reservations, scope) + tokens <= books.accounts[scope].limit)
      && (r.Success? ==>
            && r.value.reservations == books.reservations + [Reservation(id, scope, task, Reserved, tokens, None)]
            && r.value.accounts.Keys == books.accounts.Keys
            && (forall s :: s in books.accounts && s != scope ==> r.value.accounts[s] == books.accounts[s])
            && r.value.accounts[scope]
               == books.accounts[scope].(reserved := Held(books.reservations, scope, Reserved) + tokens)
            && r.value.receipts == books.receipts)
  {
    assert scope in books.accounts ==> Balanced(books, scope);
  }

  /** An identifier that is taken answers the same request and refuses every other; no balance moves. */
  lemma ReservedOnce(books: Books, i: nat, scope: Id, task: Id, tokens: int)
    requires Valid(books) && i < |books.reservations|
    ensures var row := books.reservations[i];
      Reserve(books, scope, task, row.id, tokens)
      == if tokens < 0 then Failure(InvalidTokens)
         else if (row.scope, row.task, row.tokens) == (scope, task, tokens) then Success(books)
         else Failure(BoundElsewhere)
  {
    SameIndex(books.reservations, books.reservations, books.reservations[i].id, i);
  }

  /** A scope is opened once, empty, and afterwards only answers the limit it was opened with. */
  lemma ConfiguresExactly(books: Books, scope: Id, limit: int)
    ensures var r := ConfigureScope(books, scope, limit);
      && (r.Success? <==> limit >= 0 && (scope in books.accounts ==> books.accounts[scope].limit == limit))
      && (r.Success? ==> r.value.reservations == books.reservations && r.value.receipts == books.receipts)
      && (r.Success? ==> scope in r.value.accounts && r.value.accounts - {scope} == books.accounts - {scope})
      && (r.Success? ==> r.value.accounts[scope] == if scope in books.accounts then books.accounts[scope] else Account(limit, 0, 0, 0))
  {
  }

  // ----- Over runs ------------------------------------------------------------------------------

  /** Evidence is final: no receipt is changed or lost. */
  ghost predicate ReceiptsFinal(before: Books, after: Books) {
    forall id :: id in before.receipts ==> id in after.receipts && after.receipts[id] == before.receipts[id]
  }

  lemma StepKeepsReceipts(books: Books, a: Action)
    requires Valid(books)
    ensures ReceiptsFinal(books, Apply(books, a))
  {
  }

  lemma {:induction false} RunKeepsReceipts(books: Books, actions: seq<Action>)
    requires Valid(books)
    ensures ReceiptsFinal(books, RunAll(books, actions))
    decreases |actions|
  {
    if actions != [] {
      StepKeepsReceipts(books, actions[0]);
      RunKeepsReceipts(Apply(books, actions[0]), actions[1..]);
    }
  }
}
