/** The ledger's methods: statements against the tables in order, with rollback on an error. */
module BudgetLedgerStore {
  import opened Prelude
  import opened Ledger

  predicate InState(rows: seq<Reservation>, id: Id, state: ReservationState) {
    IndexOf(rows, id).Some? && rows[IndexOf(rows, id).value].state == state
  }

  class BudgetLedger {
    var accounts: map<Id, Account>
    var reservations: seq<Reservation>
    var receipts: map<Id, (int, Evidence)>
    ghost var surprises: map<Id, Surprise>

    ghost function Contents(): Books
      reads this
    {
      Books(accounts, reservations, receipts, surprises)
    }

    constructor ()
      ensures Contents() == EmptyBooks
    {
      accounts, reservations, receipts, surprises := map[], [], map[], map[];
    }

    /** What a call with outcome r may leave behind: the specified books, or on an error the old ones. */
    ghost predicate Left(before: Books, r: Result<(), LedgerError>, specified: Result<Books, LedgerError>)
      reads this
    {
      match specified
      case Success(books) => r == Success(()) && Contents() == books
      case Failure(error) => r == Failure(error) && Contents() == before
    }

    /** The insert first, then the hold; a refused hold takes the row back. */
    method Reserve(scope: Id, task: Id, id: Id, tokens: int) returns (r: Result<(), LedgerError>)
      requires Valid(Contents())
      modifies this
      ensures Left(old(Contents()), r, Ledger.Reserve(old(Contents()), scope, task, id, tokens))
      ensures Valid(Contents())
    {
      ghost var before := Contents();
      ReserveKeepsValid(before, scope, task, id, tokens);
      if tokens < 0 {
        return Failure(InvalidTokens);
      }
      var saved := reservations;
      var existing := IndexOf(reservations, id);
      if existing.Some? {
        var row := reservations[existing.value];
        if (row.scope, row.task, row.tokens) != (scope, task, tokens) {
          return Failure(BoundElsewhere);
        }
        return Success(());
      }
      reservations := reservations + [Reservation(id, scope, task, Reserved, tokens, None)];
      var held := HoldTokens(scope, tokens);
      if !held {
        reservations := saved;
        return Failure(BudgetExceeded);
      }
      return Success(());
    }

    /** One conditional update of the account row. */
    method HoldTokens(scope: Id, tokens: nat) returns (held: bool)
      modifies this`accounts
      ensures held <==> scope in old(accounts) && old(accounts)[scope].limit - Committed(old(accounts)[scope]) >= tokens
      ensures accounts == if held
        then old(accounts)[scope := old(accounts)[scope].(reserved := old(accounts)[scope].reserved + tokens)]
        else old(accounts)
    {
      if scope !in accounts {
        return false;
      }
      var account := accounts[scope];
      var available := account.limit - account.spent - account.reserved - account.unknown;
      if available < tokens {
        return false;
      }
      accounts := accounts[scope := account.(reserved := account.reserved + tokens)];
      return true;
    }

    /** The conditional update of a reservation in one source state, and of its account. */
    method TransitionReservation(id: Id, source: ReservationState, actual: Option<int>) returns (moved: bool)
      requires Valid(Contents())
      modifies this`accounts, this`reservations, this`surprises
      ensures moved <==> InState(old(reservations), id, source) && source != Settled
      ensures Contents() == if moved
        then Transition(old(Contents()), IndexOf(old(reservations), id).value, actual) else old(Contents())
    {
      var index := IndexOf(reservations, id);
      if index.None? || reservations[index.value].state != source || source == Settled {
        return false;
      }
      var row := reservations[index.value];
      var account := accounts[row.scope];
      reservations := reservations[index.value := row.(state := if actual.None? then Unknown else Settled, actual := actual)];
      if source == Reserved {
        account := account.(reserved := account.reserved - row.tokens);
      } else {
        account := account.(unknown := account.unknown - row.tokens);
      }
      if actual.None? {
        account := account.(unknown := account.unknown + row.tokens);
      } else {
        account := account.(spent := account.spent + actual.value);
        surprises := surprises[row.scope := surprises[row.scope].(
          overrun := surprises[row.scope].overrun + Excess(actual.value, row.tokens))];
      }
      accounts := accounts[row.scope := account];
      return true;
    }

    /** Tries the source states in turn, and otherwise checks that this settlement already happened. */
    method Settle(id: Id, actual: Option<int>, evidence: Option<Evidence>) returns (r: Result<(), LedgerError>)
      requires Valid(Contents())
      modifies this
      ensures Left(old(Contents()), r, Ledger.Settle(old(Contents()), id, actual, evidence))
      ensures Valid(Contents())
    {
      SettleKeepsValid(Contents(), id, actual, evidence);
      if actual.Some? && actual.value < 0 {
        return Failure(InvalidTokens);
      }
      var savedAccounts, savedReservations := accounts, reservations;
      ghost var savedSurprises := surprises;
      var moved := TransitionReservation(id, Reserved, actual);
      if !moved && actual.Some? {
        moved := TransitionReservation(id, Unknown, actual);
      }
      if !moved {
        var index := IndexOf(reservations, id);
        if index.None? {
          return Failure(NoReservation);
        }
        var row := reservations[index.value];
        if actual.Some? && (row.state != Settled || row.actual != actual) {
          return Failure(AlreadySettled);
        }
      }
      if evidence.Some? {
        if actual.None? {
          accounts, reservations, surprises := savedAccounts, savedReservations, savedSurprises;
          return Failure(EvidenceWithoutUsage);
        }
        if id !in receipts {
          receipts := receipts[id := (actual.value, evidence.value)];
        }
      }
      return Success(());
    }

    /**
     * Recovery turns each reserved row of the tree into a liability. Marking a row and moving its account
     * are one transaction, so the order in which rows are visited is not observable.
     */
    method HoldUnknownReservations(tasks: set<Id>)
      requires Valid(Contents())
      modifies this`accounts, this`reservations, this`surprises
      ensures Contents() == HoldUnknown(old(Contents()), tasks, |old(reservations)|)
      ensures Valid(Contents())
    {
      ghost var states := HoldStates(Contents(), tasks, |reservations|);
      for i := 0 to |reservations|
        invariant |reservations| == |old(reservations)|
        invariant Contents() == states[i] && Valid(Contents())
      {
        assert HoldsOne(states[i], states[i + 1], tasks, i);
        if reservations[i].state == Reserved && reservations[i].task in tasks {
          var moved := TransitionAt(i);
        }
      }
    }

    method TransitionAt(i: nat) returns (moved: bool)
      requires Valid(Contents()) && i < |reservations| && reservations[i].state == Reserved
      modifies this`accounts, this`reservations, this`surprises
      ensures moved && Contents() == Transition(old(Contents()), i, None)
    {
      SameIndex(reservations, reservations, reservations[i].id, i);
      moved := TransitionReservation(reservations[i].id, Reserved, None);
    }
  }

  /** Recovery row by row: the books before each row is visited, and after the last. */
  lemma HoldStates(books: Books, tasks: set<Id>, n: nat) returns (states: seq<Books>)
    requires Valid(books) && n <= |books.reservations|
    ensures |states| == n + 1 && states[0] == books
    ensures forall i :: 0 <= i < n ==> HoldsOne(states[i], states[i + 1], tasks, i)
    ensures states[n] == HoldUnknown(books, tasks, n) && Valid(states[n])
  {
    states := seq(n + 1, i requires 0 <= i <= n => HoldUnknown(books, tasks, i));
    forall i | 0 <= i < n ensures HoldsOne(states[i], states[i + 1], tasks, i) {
    }
  }

  ghost predicate HoldsOne(before: Books, after: Books, tasks: set<Id>, i: nat) {
    && Valid(before) && Valid(after) && i < |before.reservations| == |after.reservations|
    && after == (if before.reservations[i].state == Reserved && before.reservations[i].task in tasks
                 then Transition(before, i, None) else before)
  }
}
