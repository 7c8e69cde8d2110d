/** Delivering usage events to a billing consumer: cursor pages, acknowledgements, and late commits. */
module UsageDelivery {
  import opened Prelude

  /** A committed event; indexes are handed out in order but may become visible in any order. */
  datatype Row = Row(index: nat, owner: Id, legacy: bool, delivered: bool)

  ghost predicate Sorted(rows: seq<Row>) {
    forall i, j {:trigger Before(rows, i, j)} :: 0 <= i < j < |rows| ==> Before(rows, i, j)
  }

  predicate Before(rows: seq<Row>, i: int, j: int)
    requires 0 <= i < j < |rows|
  {
    rows[i].index < rows[j].index
  }

  /** Unacknowledged events are delivered again even below the cursor. */
  predicate Deliverable(r: Row, owner: Id, cursor: nat) {
    r.owner == owner && (r.index > cursor || !r.delivered) && !r.legacy
  }

  function Due(rows: seq<Row>, owner: Id, cursor: nat): (due: seq<Row>)
    ensures forall r :: r in due <==> r in rows && Deliverable(r, owner, cursor)
  {
    if rows == [] then []
    else
      assert forall r :: r in rows <==> r == rows[0] || r in rows[1..];
      (if Deliverable(rows[0], owner, cursor) then [rows[0]] else []) + Due(rows[1..], owner, cursor)
  }

  function Page(rows: seq<Row>, owner: Id, cursor: nat, limit: nat): seq<Row> {
    var due := Due(rows, owner, cursor);
    if |due| <= limit then due else due[..limit]
  }

  /** The cursor a consumer follows. */
  function NextIndex(cursor: nat, page: seq<Row>): nat {
    if page == [] || page[|page| - 1].index <= cursor then cursor else page[|page| - 1].index
  }

  /** Delivery of the events in the set is recorded, and nothing else changes. */
  function Acked(rows: seq<Row>, acked: set<nat>): (after: seq<Row>)
    ensures |after| == |rows|
    ensures forall k :: 0 <= k < |rows| ==> after[k] == if rows[k].index in acked then rows[k].(delivered := true) else rows[k]
  {
    seq(|rows|, k requires 0 <= k < |rows| => if rows[k].index in acked then rows[k].(delivered := true) else rows[k])
  }

  function Indexes(page: seq<Row>): set<nat> {
    set r | r in page :: r.index
  }

  // ----- One poll ---------------------------------------------------------------------------

  lemma SortedTail(rows: seq<Row>)
    requires Sorted(rows) && rows != []
    ensures Sorted(rows[1..]) && forall r :: r in rows[1..] ==> rows[0].index < r.index
  {
    var rest := rows[1..];
    forall i, j | 0 <= i < j < |rest| ensures Before(rest, i, j) {
      assert Before(rows, i + 1, j + 1);
    }
    forall r | r in rest ensures rows[0].index < r.index {
      var i :| 0 <= i < |rest| && rest[i] == r;
      assert Before(rows, 0, i + 1);
    }
  }

  lemma {:induction false} DueIsSorted(rows: seq<Row>, owner: Id, cursor: nat)
    requires Sorted(rows)
    ensures Sorted(Due(rows, owner, cursor))
  {
    if rows != [] {
      SortedTail(rows);
      DueIsSorted(rows[1..], owner, cursor);
      var due, rest := Due(rows, owner, cursor), Due(rows[1..], owner, cursor);
      forall i, j | 0 <= i < j < |due| ensures Before(due, i, j) {
        if due == rest {
          assert Before(rest, i, j);
        } else if i > 0 {
          assert Before(rest, i - 1, j - 1);
        } else {
          assert due[j] in rest;
        }
      }
    }
  }

  lemma AckedTail(rows: seq<Row>, acked: set<nat>)
    requires rows != []
    ensures Acked(rows, acked)[1..] == Acked(rows[1..], acked)
    ensures Acked(rows, acked)[0] == if rows[0].index in acked then rows[0].(delivered := true) else rows[0]
  {
  }

  /** The first n due events are acknowledged and below the new cursor; the others neither, unless below the old one. */
  ghost predicate Acknowledged(due: seq<Row>, n: nat, cursor: nat, next: nat, acked: set<nat>) {
    && n <= |due|
    && (forall k :: 0 <= k < n ==> due[k].index <= next && due[k].index in acked)
    && (forall k :: n <= k < |due| ==> due[k].index !in acked && (cursor < due[k].index ==> next < due[k].index))
  }

  lemma AcknowledgedTail(due: seq<Row>, n: nat, cursor: nat, next: nat, acked: set<nat>)
    requires due != [] && Acknowledged(due, n, cursor, next, acked)
    ensures Acknowledged(due[1..], if n > 0 then n - 1 else 0, cursor, next, acked)
  {
    var rest := due[1..];
    assert forall k :: 0 <= k < |rest| ==> rest[k] == due[k + 1];
  }

  /** Acknowledging what was delivered up to the new cursor removes exactly that from what is due. */
  lemma {:induction false} AckRemoves(rows: seq<Row>, owner: Id, cursor: nat, next: nat, n: nat, acked: set<nat>)
    requires Sorted(rows) && cursor <= next && Acknowledged(Due(rows, owner, cursor), n, cursor, next, acked)
    requires forall r :: r in rows && r.index in acked ==> r.owner == owner
    ensures Due(Acked(rows, acked), owner, next) == Due(rows, owner, cursor)[n..]
  {
    if rows != [] {
      SortedTail(rows);
      AckedTail(rows, acked);
      var rest := Due(rows[1..], owner, cursor);
      var due := Due(rows, owner, cursor);
      if Deliverable(rows[0], owner, cursor) {
        assert due[0] == rows[0] && due[1..] == rest;
        AcknowledgedTail(due, n, cursor, next, acked);
        AckRemoves(rows[1..], owner, cursor, next, if n > 0 then n - 1 else 0, acked);
        assert n > 0 ==> due[n..] == rest[n - 1..];
      } else {
        assert due == rest;
        AckRemoves(rows[1..], owner, cursor, next, n, acked);
      }
    }
  }

  /** A poll whose page is acknowledged leaves due what the page did not hold. */
  lemma {:induction false} PollRemovesPage(rows: seq<Row>, owner: Id, cursor: nat, limit: nat)
    requires Sorted(rows)
    ensures var page := Page(rows, owner, cursor, limit);
      Due(Acked(rows, Indexes(page)), owner, NextIndex(cursor, page)) == Due(rows, owner, cursor)[|page|..]
  {
    var due, page := Due(rows, owner, cursor), Page(rows, owner, cursor, limit);
    var next, acked := NextIndex(cursor, page), Indexes(page);
    DueIsSorted(rows, owner, cursor);
    forall k | 0 <= k < |page| ensures due[k].index <= next && due[k].index in acked {
      assert page[k] in page;
      if k < |page| - 1 {
        assert Before(due, k, |page| - 1);
      }
    }
    forall k | |page| <= k < |due| ensures due[k].index !in acked && (cursor < due[k].index ==> next < due[k].index) {
      forall r | r in page ensures r.index < due[k].index {
        var i :| 0 <= i < |page| && page[i] == r;
        assert Before(due, i, k);
      }
      if page != [] {
        assert page[|page| - 1] in page;
      }
    }
    forall r | r in rows && r.index in acked ensures r.owner == owner {
      var p :| p in page && p.index == r.index;
      assert p in rows;
      SameIndexSameRow(rows, p, r);
    }
    AckRemoves(rows, owner, cursor, next, |page|, acked);
  }

  lemma SameIndexSameRow(rows: seq<Row>, p: Row, r: Row)
    requires Sorted(rows) && p in rows && r in rows && p.index == r.index
    ensures p == r
  {
    var i :| 0 <= i < |rows| && rows[i] == p;
    var j :| 0 <= j < |rows| && rows[j] == r;
    assert i < j ==> Before(rows, i, j);
    assert j < i ==> Before(rows, j, i);
  }

  /** An event to deliver: the owner's, no baseline, and either behind the cursor and unacknowledged or past it. */
  predicate Wanted(r: Row, owner: Id, cursor: nat) {
    r.owner == owner && !r.legacy && (if r.index <= cursor then !r.delivered else true)
  }

  /** A page holds nothing but wanted events, in order, and leaves one out only when it is full and ends before it. */
  lemma PageIsExact(rows: seq<Row>, owner: Id, cursor: nat, limit: nat)
    requires Sorted(rows)
    ensures var page := Page(rows, owner, cursor, limit);
      && |page| <= limit && Sorted(page) && (forall r :: r in page ==> r in rows && Wanted(r, owner, cursor))
      && forall r :: r in rows && Wanted(r, owner, cursor) && r !in page ==>
           |page| == limit && forall k :: 0 <= k < |page| ==> page[k].index < r.index
  {
    DueIsSorted(rows, owner, cursor);
    var due, page := Due(rows, owner, cursor), Page(rows, owner, cursor, limit);
    forall i, j | 0 <= i < j < |page| ensures Before(page, i, j) {
      assert Before(due, i, j);
    }
    forall r, k | r in due && r !in page && 0 <= k < |page| ensures page[k].index < r.index {
      assert due == page + due[|page|..];
      var j :| 0 <= j < |due| - |page| && due[|page|..][j] == r;
      assert Before(due, k, |page| + j);
    }
  }

  // ----- Draining ---------------------------------------------------------------------------

  /** k pages of the given size hold n events, and no fewer pages do: k is n divided by limit, rounded up. */
  predicate IsCeiling(k: nat, n: nat, limit: nat) {
    n <= k * limit && (if k == 0 then n == 0 else (k - 1) * limit < n)
  }

  /** Every page but the last is full. */
  lemma PollCounts(all: seq<Row>, received: seq<Row>, due: seq<Row>, page: seq<Row>, polls: nat, limit: nat)
    requires limit > 0 && all == received + due && |received| == polls * limit && due != []
    requires page == if |due| <= limit then due else due[..limit]
    ensures page != [] && all == received + page + due[|page|..]
    ensures if due[|page|..] == [] then IsCeiling(polls + 1, |all|, limit) else |received + page| == (polls + 1) * limit
  {
  }

  lemma {:induction false} DueStep(rows: seq<Row>, owner: Id, cursor: nat, i: nat)
    requires i < |rows|
    ensures Due(rows[i..], owner, cursor)
      == (if Deliverable(rows[i], owner, cursor) then [rows[i]] else []) + Due(rows[i + 1..], owner, cursor)
  {
    assert rows[i..][0] == rows[i] && rows[i..][1..] == rows[i + 1..];
  }

  class UsageFeed {
    var rows: seq<Row>

    ghost predicate Valid()
      reads this
    {
      Sorted(rows)
    }

    /** list_events: the first rows, in index order, that match. */
    method ListEvents(owner: Id, cursor: nat, limit: nat) returns (page: seq<Row>)
      ensures page == Page(rows, owner, cursor, limit)
    {
      page := [];
      var i := 0;
      while i < |rows| && |page| < limit
        invariant i <= |rows| && |page| <= limit
        invariant Due(rows, owner, cursor) == page + Due(rows[i..], owner, cursor)
      {
        DueStep(rows, owner, cursor, i);
        if Deliverable(rows[i], owner, cursor) {
          page := page + [rows[i]];
        }
        i := i + 1;
      }
    }

    /** acknowledge, for each event of a page in turn. */
    method AcknowledgePage(page: seq<Row>)
      requires Valid()
      modifies this
      ensures rows == Acked(old(rows), Indexes(page)) && Valid()
    {
      ghost var before := rows;
      assert rows == Acked(before, Indexes(page[..0]));
      for k := 0 to |page|
        invariant rows == Acked(before, Indexes(page[..k]))
      {
        Acknowledge(page[k].index);
        assert Indexes(page[..k + 1]) == Indexes(page[..k]) + {page[k].index} by {
          assert page[..k + 1] == page[..k] + [page[k]];
        }
      }
      assert page[..|page|] == page;
      forall i, j | 0 <= i < j < |rows| ensures Before(rows, i, j) {
        assert Before(before, i, j);
      }
    }

    method Acknowledge(index: nat)
      modifies this
      ensures rows == Acked(old(rows), {index})
    {
      ghost var before := rows;
      for i := 0 to |rows|
        invariant |rows| == |before|
        invariant forall k :: 0 <= k < |rows| ==>
          rows[k] == if k < i && before[k].index == index then before[k].(delivered := true) else before[k]
      {
        if rows[i].index == index {
          rows := rows[i := rows[i].(delivered := true)];
        }
      }
    }

    /** A consumer that acknowledges each page and follows the cursor drains everything in the fewest possible polls. */
    method Drain(owner: Id, start: nat, limit: nat) returns (polls: nat, received: seq<Row>, cursor: nat)
      requires Valid() && limit > 0
      modifies this
      ensures IsCeiling(polls, |Due(old(rows), owner, start)|, limit)
      ensures received == Due(old(rows), owner, start)
      ensures Due(rows, owner, cursor) == []
    {
      polls, received, cursor := 0, [], start;
      ghost var all := Due(rows, owner, start);
      var page := ListEvents(owner, cursor, limit);
      while page != []
        invariant Valid() && page == Page(rows, owner, cursor, limit)
        invariant all == received + Due(rows, owner, cursor)
        invariant if Due(rows, owner, cursor) == [] then IsCeiling(polls, |all|, limit) else |received| == polls * limit
        decreases |Due(rows, owner, cursor)|
      {
        PollRemovesPage(rows, owner, cursor, limit);
        PollCounts(all, received, Due(rows, owner, cursor), page, polls, limit);
        polls := polls + 1;
        received := received + page;
        AcknowledgePage(page);
        cursor := NextIndex(cursor, page);
        page := ListEvents(owner, cursor, limit);
      }
    }
  }

  // ----- Nothing is lost --------------------------------------------------------------------

  /** The table, and what one owner's consumer knows: its cursor and the events it has seen. */
  datatype Delivery = Delivery(rows: seq<Row>, cursor: nat, received: set<nat>)

  datatype Action =
    | Commit(position: nat, row: Row)
    | Poll(limit: nat)
    | Ack(index: nat)
    | Forget(cursor: nat)

  /** Rows appear anywhere in index order, undelivered; the consumer acknowledges only what it received. */
  ghost predicate Legal(d: Delivery, a: Action) {
    match a
    case Commit(position, row) => position <= |d.rows| && !row.delivered && Sorted(d.rows[..position] + [row] + d.rows[position..])
    case Poll(_) => true
    case Ack(index) => index in d.received
    case Forget(cursor) => true
  }

  function Perform(d: Delivery, owner: Id, a: Action): Delivery {
    match a
    case Commit(position, row) =>
      if position <= |d.rows| then d.(rows := d.rows[..position] + [row] + d.rows[position..]) else d
    case Poll(limit) =>
      var page := Page(d.rows, owner, d.cursor, limit);
      d.(cursor := NextIndex(d.cursor, page), received := d.received + Indexes(page))
    case Ack(index) => d.(rows := Acked(d.rows, {index}))
    case Forget(cursor) => d.(cursor := cursor)
  }

  /** An event of the owner that was marked delivered was received. */
  ghost predicate Accounted(d: Delivery, owner: Id) {
    && Sorted(d.rows)
    && (forall r :: r in d.rows && r.owner == owner && !r.legacy && r.delivered ==> r.index in d.received)
  }

  lemma PerformKeepsAccount(d: Delivery, owner: Id, a: Action)
    requires Accounted(d, owner) && Legal(d, a)
    ensures Accounted(Perform(d, owner, a), owner)
  {
    match a
    case Ack(index) =>
      var after := Acked(d.rows, {index});
      forall i, j | 0 <= i < j < |after| ensures Before(after, i, j) {
        assert Before(d.rows, i, j);
      }
      forall r | r in after && r.owner == owner && !r.legacy && r.delivered ensures r.index in d.received {
        var k :| 0 <= k < |after| && after[k] == r;
        assert d.rows[k] in d.rows;
      }
    case _ =>
  }

  ghost predicate Reaches(d: Delivery, owner: Id, actions: seq<Action>, e: Delivery)
    decreases |actions|
  {
    if actions == [] then e == d
    else Legal(d, actions[0]) && Reaches(Perform(d, owner, actions[0]), owner, actions[1..], e)
  }

  lemma {:induction false} RunKeepsAccount(d: Delivery, owner: Id, actions: seq<Action>, e: Delivery)
    requires Accounted(d, owner) && Reaches(d, owner, actions, e)
    ensures Accounted(e, owner)
    decreases |actions|
  {
    if actions != [] {
      PerformKeepsAccount(d, owner, actions[0]);
      RunKeepsAccount(Perform(d, owner, actions[0]), owner, actions[1..], e);
    }
  }

  /**
   * Whatever order indexes commit in, below the cursor or above, and whatever cursor the consumer resumes from:
   * each event of its owner was received or is still due. So when a page comes back empty, all were received.
   */
  lemma {:induction false} NothingIsLost(owner: Id, actions: seq<Action>, e: Delivery, r: Row)
    requires Reaches(Delivery([], 0, {}), owner, actions, e)
    requires r in e.rows && r.owner == owner && !r.legacy
    ensures r.index in e.received || r in Due(e.rows, owner, e.cursor)
    ensures (exists limit: nat :: limit > 0 && Page(e.rows, owner, e.cursor, limit) == []) ==> r.index in e.received
  {
    RunKeepsAccount(Delivery([], 0, {}), owner, actions, e);
    assert Deliverable(r, owner, e.cursor) || r.delivered;
  }
}
