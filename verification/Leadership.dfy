/** Leader election over one database row, and what a node remembers of its lease. */
module Leadership {
  import opened Prelude

  /** The singleton row; since is history: when it was inserted. */
  datatype LeaderRow = LeaderRow(node: nat, token: nat, expires: real, since: real)

  /**
   * A finished hold on leadership: when its row was inserted, the expiry the row had when it was deleted, and
   * when its own holder released it, if that is how it ended.
   */
  datatype Holding = Holding(token: nat, start: real, expires: real, released: Option<real>)

  /** The hold grants nothing from the instant on: it was released by then, or all of its lease has passed. */
  predicate Over(h: Holding, at: real) {
    match h.released
    case Some(moment) => moment <= at
    case None => h.expires <= at
  }

  /**
   * One node's memory. granted is the database expiry its last noted call obtained; noted is the expiry it
   * computed itself afterwards; delay is history: the time between the clock readings of that call and of its
   * note. pending is the clock reading of a successful call it has not noted yet.
   */
  datatype Member = Member(
    leading: bool, token: Option<nat>, granted: real, noted: real, delay: real, pending: Option<real>, down: bool)

  datatype Cluster = Cluster(
    now: real,
    lease: real,
    row: Option<LeaderRow>,
    past: seq<Holding>,
    members: map<nat, Member>,
    tokens: set<nat>)

  // ----- Database steps, each with the clock reading it was called with -----------------------------

  /** Deleting the row ends its hold. */
  function End(c: Cluster, released: Option<real>): Cluster
    requires c.row.Some?
  {
    c.(row := None, past := c.past + [Holding(c.row.value.token, c.row.value.since, c.row.value.expires, released)])
  }

  /** cleanup_stale_leader. */
  function Cleanup(c: Cluster, read: real): Cluster {
    if c.row.Some? && c.row.value.expires <= read then End(c, None) else c
  }

  /** try_acquire: an expired row gives way, a live one does not. */
  function TryAcquire(c: Cluster, node: nat, token: nat, read: real): Cluster {
    var free := Cleanup(c, read);
    if free.row.Some? then c
    else
      free.(row := Some(LeaderRow(node, token, read + c.lease, c.now)),
            members := free.members[node := Member(false, Some(token), read + c.lease, read + c.lease, 0.0, Some(read), false)],
            tokens := free.tokens + {token})
  }

  predicate MayRenew(c: Cluster, node: nat, token: nat, read: real) {
    c.row.Some? && c.row.value.node == node && c.row.value.token == token && c.row.value.expires > read
  }

  /** renew_leadership with the node's own token; a refusal demotes the node. */
  function Renew(c: Cluster, node: nat, read: real): Cluster {
    if node !in c.members || c.members[node].token.None? || c.members[node].down then c
    else
      var m := c.members[node];
      if MayRenew(c, node, m.token.value, read) then
        c.(row := Some(c.row.value.(expires := read + c.lease)), members := c.members[node := m.(pending := Some(read))])
      else c.(members := c.members[node := m.(leading := false, token := None, pending := None)])
  }

  /** After a successful call the node reads the clock again for its own expiry. */
  function Note(c: Cluster, node: nat): Cluster {
    if node !in c.members || c.members[node].pending.None? then c
    else
      var m := c.members[node];
      c.(members := c.members[node := m.(
           leading := true, granted := m.pending.value + c.lease, noted := c.now + c.lease,
           delay := c.now - m.pending.value, pending := None)])
  }

  /** shutdown: the row is released, and the role is not cleared. */
  function Shutdown(c: Cluster, node: nat): Cluster {
    if node !in c.members || c.members[node].token.None? then c
    else
      var m := c.members[node];
      var closed := c.(members := c.members[node := m.(down := true)]);
      if c.row.Some? && c.row.value.node == node && c.row.value.token == m.token.value then End(closed, Some(c.now)) else closed
  }

  /** is_leader: the role, and the expiry in memory. */
  predicate IsLeader(c: Cluster, node: nat) {
    node in c.members && c.members[node].leading && c.now < c.members[node].noted
  }

  // ----- Runs -------------------------------------------------------------------------------

  datatype Action =
    | Tick(later: real)
    | Acquire(node: nat, token: nat, read: real)
    | Extend(node: nat, read: real)
    | Remember(node: nat)
    | Sweep(read: real)
    | Stop(node: nat)

  /** Tokens are fresh, a node selects its role once, and clock readings are neither from the future nor out of order. */
  predicate Legal(c: Cluster, a: Action) {
    match a
    case Tick(later) => later >= c.now
    case Acquire(node, token, read) => token !in c.tokens && read <= c.now && node !in c.members
    case Extend(node, read) =>
      read <= c.now && (node in c.members ==> c.members[node].pending.None? && c.members[node].granted <= read + c.lease)
    case Remember(_) => true
    case Sweep(read) => read <= c.now
    case Stop(_) => true
  }

  function Step(c: Cluster, a: Action): Cluster {
    match a
    case Tick(later) => c.(now := later)
    case Acquire(node, token, read) => TryAcquire(c, node, token, read)
    case Extend(node, read) => Renew(c, node, read)
    case Remember(node) => Note(c, node)
    case Sweep(read) => Cleanup(c, read)
    case Stop(node) => Shutdown(c, node)
  }

  ghost predicate Reaches(c: Cluster, actions: seq<Action>, d: Cluster)
    decreases |actions|
  {
    if actions == [] then d == c else Legal(c, actions[0]) && Reaches(Step(c, actions[0]), actions[1..], d)
  }

  // ----- The invariant ----------------------------------------------------------------------

  /** Past holds follow one another, and the present one follows them all. */
  ghost predicate InOrder(c: Cluster) {
    && (forall i, j {:trigger Follows(c, i, j)} :: 0 <= i < j < |c.past| ==> Follows(c, i, j))
    && (forall i :: 0 <= i < |c.past| ==> Over(c.past[i], c.now) && c.past[i].start <= c.now && c.past[i].token in c.tokens)
    && (c.row.Some? ==> c.row.value.since <= c.now && c.row.value.token in c.tokens)
    && (c.row.Some? ==> forall i :: 0 <= i < |c.past| ==>
          Over(c.past[i], c.row.value.since) && c.past[i].start <= c.row.value.since && c.past[i].token != c.row.value.token)
  }

  predicate Follows(c: Cluster, i: int, j: int)
    requires 0 <= i < j < |c.past|
  {
    Over(c.past[i], c.past[j].start) && c.past[i].start <= c.past[j].start && c.past[i].token != c.past[j].token
  }

  /** The expiry the database gave the member's token at its last noted or pending call. */
  function Promised(c: Cluster, m: Member): real {
    if m.pending.Some? then m.pending.value + c.lease else m.granted
  }

  ghost predicate HoldsRow(c: Cluster, node: nat, m: Member)
    requires m.token.Some?
  {
    c.row.Some? && c.row.value.token == m.token.value && c.row.value.node == node && c.row.value.expires >= Promised(c, m)
  }

  ghost predicate HeldBefore(c: Cluster, m: Member)
    requires m.token.Some?
  {
    exists i :: 0 <= i < |c.past| && HeldUntil(c.past[i], m.token.value, Promised(c, m))
  }

  /** The hold of that token was not released, and lasted until the instant at least. */
  predicate HeldUntil(h: Holding, token: nat, at: real) {
    h.token == token && h.released.None? && h.expires >= at
  }

  /** The member whose token was released has been stopped. */
  ghost predicate Stopped(c: Cluster, token: nat) {
    exists node :: node in c.members && c.members[node].token == Some(token) && c.members[node].down
  }

  ghost predicate OwnRelease(c: Cluster, h: Holding) {
    h.released.Some? ==> Stopped(c, h.token)
  }

  /** A running member's token holds the row, or held it until the promised expiry at least. */
  ghost predicate Backed(c: Cluster, node: nat)
    requires node in c.members
  {
    var m := c.members[node];
    m.token.Some? ==>
      m.token.value in c.tokens && Promised(c, m) >= m.granted && (m.down || HoldsRow(c, node, m) || HeldBefore(c, m))
  }

  ghost predicate Inv(c: Cluster) {
    && InOrder(c)
    && (forall i :: 0 <= i < |c.past| ==> OwnRelease(c, c.past[i]))
    && (forall node :: node in c.members ==> Backed(c, node))
    && (forall a, b :: a in c.members && b in c.members && a != b && c.members[a].token.Some? ==> c.members[a].token != c.members[b].token)
    && (forall node :: node in c.members && (c.members[node].leading || c.members[node].pending.Some?) ==> c.members[node].token.Some?)
    && (forall node :: node in c.members ==> c.members[node].noted == c.members[node].granted + c.members[node].delay)
  }

  /** Ending the present hold keeps the order, if its lease has passed or its holder has stopped and releases it. */
  lemma EndKeepsInv(c: Cluster, released: Option<real>)
    requires Inv(c) && c.row.Some?
    requires match released
      case None => c.row.value.expires <= c.now
      case Some(at) => at == c.now && Stopped(c, c.row.value.token)
    ensures Inv(End(c, released))
  {
    var d := End(c, released);
    var n := |c.past|;
    forall i, j | 0 <= i < j < |d.past| ensures Follows(d, i, j) {
      if j < n {
        assert Follows(c, i, j);
      }
    }
    forall node | node in d.members ensures Backed(d, node) {
      assert Backed(c, node);
      var m := c.members[node];
      if m.token.Some? && !m.down {
        if HoldsRow(c, node, m) {
          assert HeldUntil(d.past[n], m.token.value, Promised(d, m));
        } else {
          var i :| 0 <= i < n && HeldUntil(c.past[i], m.token.value, Promised(c, m));
          assert d.past[i] == c.past[i];
        }
      }
    }
    forall i | 0 <= i < |d.past| ensures OwnRelease(d, d.past[i]) {
      assert i < n ==> OwnRelease(c, c.past[i]);
      assert Stopped(c, d.past[i].token) ==> Stopped(d, d.past[i].token);
    }
  }

  lemma CleanupKeepsInv(c: Cluster, read: real)
    requires Inv(c) && read <= c.now
    ensures Inv(Cleanup(c, read)) && Cleanup(c, read).members == c.members && Cleanup(c, read).tokens == c.tokens
  {
    if c.row.Some? && c.row.value.expires <= read {
      EndKeepsInv(c, None);
    }
  }

  lemma TryAcquireKeepsInv(c: Cluster, node: nat, token: nat, read: real)
    requires Inv(c) && Legal(c, Acquire(node, token, read))
    ensures Inv(TryAcquire(c, node, token, read))
  {
    CleanupKeepsInv(c, read);
    var free := Cleanup(c, read);
    if free.row.None? {
      var d := TryAcquire(c, node, token, read);
      assert d.past == free.past;
      forall i, j | 0 <= i < j < |d.past| ensures Follows(d, i, j) {
        assert Follows(free, i, j);
      }
      forall other | other in d.members ensures Backed(d, other) {
        if other == node {
          assert HoldsRow(d, node, d.members[node]);
        } else {
          assert Backed(free, other);
          var m := free.members[other];
          assert m.token.Some? && HeldBefore(free, m) ==> HeldBefore(d, m);
        }
      }
      ReleasesStand(free, d);
      forall other | other in free.members && free.members[other].token.Some? ensures free.members[other].token.value != token {
        assert Backed(free, other);
      }
    }
  }

  /** A stopped member stays stopped and keeps its token. */
  lemma ReleasesStand(c: Cluster, d: Cluster)
    requires forall i :: 0 <= i < |c.past| ==> OwnRelease(c, c.past[i])
    requires d.past == c.past
    requires forall node :: node in c.members && c.members[node].down ==>
      node in d.members && d.members[node].down && d.members[node].token == c.members[node].token
    ensures forall i :: 0 <= i < |d.past| ==> OwnRelease(d, d.past[i])
  {
    forall i | 0 <= i < |d.past| ensures OwnRelease(d, d.past[i]) {
      assert OwnRelease(c, c.past[i]);
      if node :| node in c.members && c.members[node].token == Some(c.past[i].token) && c.members[node].down {
        assert d.members[node].down;
      }
    }
  }

  predicate OnlyExtended(c: Cluster, node: nat, m: Member, row: Option<LeaderRow>) {
    && c.row.Some? && row.Some? && c.row.value.node == node && m.token == Some(c.row.value.token)
    && row == Some(c.row.value.(expires := row.value.expires))
  }

  /** Changing one member's memory, or its row's expiry, disturbs nobody else. */
  lemma MemberKeepsInv(c: Cluster, node: nat, m: Member, row: Option<LeaderRow>)
    requires Inv(c) && node in c.members
    requires m.token.None? || (m.token == c.members[node].token && Promised(c, m) >= m.granted)
    requires m.leading || m.pending.Some? ==> m.token.Some?
    requires m.noted == m.granted + m.delay
    requires row == c.row || OnlyExtended(c, node, m, row)
    requires c.members[node].down ==> m.down && m.token == c.members[node].token
    requires m.token.Some? ==> m.down || HeldBefore(c, m) || HoldsRow(c.(row := row), node, m)
    ensures Inv(c.(row := row, members := c.members[node := m]))
  {
    var d := c.(row := row, members := c.members[node := m]);
    forall i, j | 0 <= i < j < |d.past| ensures Follows(d, i, j) {
      assert Follows(c, i, j);
    }
    forall other | other in d.members ensures Backed(d, other) {
      assert Backed(c, other);
      if other != node {
        var o := c.members[other];
        assert o.token.Some? && HeldBefore(c, o) ==> HeldBefore(d, o);
        assert o.token.Some? && HoldsRow(c, other, o) ==> row == c.row;
      } else if m.token.Some? && HeldBefore(c, m) {
        assert HeldBefore(d, m);
      }
    }
    ReleasesStand(c, d);
  }

  lemma RenewKeepsInv(c: Cluster, node: nat, read: real)
    requires Inv(c) && Legal(c, Extend(node, read))
    ensures Inv(Renew(c, node, read))
  {
    if node in c.members && c.members[node].token.Some? && !c.members[node].down {
      var m := c.members[node];
      assert Backed(c, node);
      if MayRenew(c, node, m.token.value, read) {
        MemberKeepsInv(c, node, m.(pending := Some(read)), Some(c.row.value.(expires := read + c.lease)));
      } else {
        MemberKeepsInv(c, node, m.(leading := false, token := None, pending := None), c.row);
        assert Renew(c, node, read).row == c.row;
      }
    }
  }

  lemma NoteKeepsInv(c: Cluster, node: nat)
    requires Inv(c)
    ensures Inv(Note(c, node))
  {
    if node in c.members && c.members[node].pending.Some? {
      var m := c.members[node];
      var next := m.(leading := true, granted := m.pending.value + c.lease, noted := c.now + c.lease,
                     delay := c.now - m.pending.value, pending := None);
      assert Backed(c, node) && Promised(c, next) == Promised(c, m);
      if HeldBefore(c, m) {
        assert HeldBefore(c, next);
      }
      MemberKeepsInv(c, node, next, c.row);
      assert Note(c, node).row == c.row;
    }
  }

  lemma ShutdownKeepsInv(c: Cluster, node: nat)
    requires Inv(c)
    ensures Inv(Shutdown(c, node))
  {
    if node in c.members && c.members[node].token.Some? {
      var m := c.members[node].(down := true);
      assert Backed(c, node);
      MemberKeepsInv(c, node, m, c.row);
      var closed := c.(row := c.row, members := c.members[node := m]);
      assert closed == c.(members := c.members[node := m]);
      if c.row.Some? && c.row.value.node == node && c.row.value.token == m.token.value {
        assert node in closed.members && closed.members[node].down;
        EndKeepsInv(closed, Some(c.now));
      }
    }
  }

  lemma TickKeepsInv(c: Cluster, later: real)
    requires Inv(c) && later >= c.now
    ensures Inv(c.(now := later))
  {
    var d := c.(now := later);
    forall i, j | 0 <= i < j < |d.past| ensures Follows(d, i, j) {
      assert Follows(c, i, j);
    }
    forall node | node in d.members ensures Backed(d, node) {
      assert Backed(c, node);
      var m := c.members[node];
      assert m.token.Some? && HeldBefore(c, m) ==> HeldBefore(d, m);
    }
    ReleasesStand(c, d);
  }

  lemma StepKeepsInv(c: Cluster, a: Action)
    requires Inv(c) && Legal(c, a)
    ensures Inv(Step(c, a)) && c.past <= Step(c, a).past
  {
    match a
    case Tick(later) => TickKeepsInv(c, later);
    case Acquire(node, token, read) => TryAcquireKeepsInv(c, node, token, read);
    case Extend(node, read) => RenewKeepsInv(c, node, read);
    case Remember(node) => NoteKeepsInv(c, node);
    case Sweep(read) => CleanupKeepsInv(c, read);
    case Stop(node) => ShutdownKeepsInv(c, node);
  }

  lemma {:induction false} RunKeepsInv(c: Cluster, actions: seq<Action>, d: Cluster)
    requires Inv(c) && Reaches(c, actions, d)
    ensures Inv(d) && c.past <= d.past
    decreases |actions|
  {
    if actions != [] {
      StepKeepsInv(c, actions[0]);
      RunKeepsInv(Step(c, actions[0]), actions[1..], d);
    }
  }

  /** An empty table. */
  ghost function Start(lease: real): Cluster {
    Cluster(0.0, lease, None, [], map[], {})
  }

  // ----- What elections guarantee -----------------------------------------------------------

  /**
   * In every run, a hold is over before the next one starts: all of the lease the database granted has passed by
   * then, unless the holder released it itself, which it does only when it stops.
   */
  lemma {:induction false} HoldsNeverOverlap(lease: real, actions: seq<Action>, c: Cluster, i: nat, j: nat)
    requires Reaches(Start(lease), actions, c) && i < j <= |c.past| && (j == |c.past| ==> c.row.Some?)
    ensures var next := if j < |c.past| then c.past[j].start else c.row.value.since;
      match c.past[i].released
      case None => c.past[i].expires <= next
      case Some(at) => at <= next && Stopped(c, c.past[i].token)
    ensures c.past[i].token != if j < |c.past| then c.past[j].token else c.row.value.token
  {
    RunKeepsInv(Start(lease), actions, c);
    assert OwnRelease(c, c.past[i]);
    if j < |c.past| {
      assert Follows(c, i, j);
    }
  }

  /** Once a token's hold is over, no later state lets it renew. */
  lemma {:induction false} SupersededNeverRenews(lease: real, before: seq<Action>, c: Cluster, after: seq<Action>, d: Cluster, i: nat, node: nat, read: real)
    requires Reaches(Start(lease), before, c) && i < |c.past| && Reaches(c, after, d)
    ensures !MayRenew(d, node, c.past[i].token, read)
  {
    RunKeepsInv(Start(lease), before, c);
    RunKeepsInv(c, after, d);
    assert d.past[i] == c.past[i];
  }

  /** The database gave the token a lease until then: its row still says so, or said so when it expired. */
  ghost predicate LeasedUntil(c: Cluster, token: nat, expires: real) {
    || (c.row.Some? && c.row.value.token == token && expires == c.row.value.expires)
    || exists i :: 0 <= i < |c.past| && c.past[i].token == token && c.past[i].released.None? && expires == c.past[i].expires
  }

  /**
   * In every run, a running node that believes it leads has a database lease, and outlives it by less than the
   * delay between the clock readings of its last noted call.
   */
  lemma {:induction false} NoteIsLateByItsDelay(lease: real, actions: seq<Action>, c: Cluster, node: nat)
    requires Reaches(Start(lease), actions, c) && IsLeader(c, node) && !c.members[node].down
    ensures c.members[node].token.Some?
    ensures exists expires :: LeasedUntil(c, c.members[node].token.value, expires)
    ensures forall expires :: LeasedUntil(c, c.members[node].token.value, expires) ==> c.now < expires + c.members[node].delay
  {
    RunKeepsInv(Start(lease), actions, c);
    assert Backed(c, node);
    var m := c.members[node];
    if HoldsRow(c, node, m) {
      assert LeasedUntil(c, m.token.value, c.row.value.expires);
    } else {
      var i :| 0 <= i < |c.past| && HeldUntil(c.past[i], m.token.value, Promised(c, m));
      assert LeasedUntil(c, m.token.value, c.past[i].expires);
      forall k | 0 <= k < |c.past| && c.past[k].token == m.token.value ensures k == i {
        HoldsDiffer(c, i, k);
      }
    }
    forall expires | LeasedUntil(c, m.token.value, expires) ensures m.granted <= expires {
      LeasesAreKept(c, node, expires);
    }
  }

  /** Whatever lease a running member's token has or had, it lasts as long as was promised. */
  lemma LeasesAreKept(c: Cluster, node: nat, expires: real)
    requires Inv(c) && node in c.members && c.members[node].token.Some? && !c.members[node].down
    requires LeasedUntil(c, c.members[node].token.value, expires)
    ensures c.members[node].granted <= expires
  {
    assert Backed(c, node);
    var m := c.members[node];
    if !HoldsRow(c, node, m) {
      var i :| 0 <= i < |c.past| && HeldUntil(c.past[i], m.token.value, Promised(c, m));
      if k :| 0 <= k < |c.past| && c.past[k].token == m.token.value && c.past[k].expires == expires {
        HoldsDiffer(c, i, k);
      }
    }
  }

  /** When the member's hold began: the row it has, or the one it had. */
  ghost predicate HoldBegan(c: Cluster, node: nat, start: real)
    requires node in c.members
  {
    var m := c.members[node];
    m.token.Some? &&
      ((c.row.Some? && c.row.value.token == m.token.value && start == c.row.value.since)
       || exists i :: 0 <= i < |c.past| && c.past[i].token == m.token.value && c.past[i].start == start)
  }

  /** Two running nodes that both believe they lead do so for less than the delay of the one that was superseded. */
  lemma {:induction false} DualLeadershipIsBrief(lease: real, actions: seq<Action>, c: Cluster, a: nat, b: nat, began: real)
    requires Reaches(Start(lease), actions, c) && a != b && IsLeader(c, a) && IsLeader(c, b)
    requires !c.members[a].down && !c.members[b].down
    requires HoldBegan(c, b, began) && exists start :: HoldBegan(c, a, start) && start < began
    ensures c.now - began < c.members[a].delay
  {
    RunKeepsInv(Start(lease), actions, c);
    assert Backed(c, a) && Backed(c, b);
    var m, o := c.members[a], c.members[b];
    var start :| HoldBegan(c, a, start) && start < began;
    assert m.token != o.token;
    SupersededEnds(c, a, start, began, b);
  }

  /** Different past holds have different tokens, and the earlier ended before the later began. */
  lemma HoldsDiffer(c: Cluster, i: nat, j: nat)
    requires InOrder(c) && i < |c.past| && j < |c.past|
    ensures i < j ==> Follows(c, i, j)
    ensures j < i ==> Follows(c, j, i)
  {
  }

  /** The earlier hold had reached its promised expiry before the later one began. */
  lemma SupersededEnds(c: Cluster, a: nat, start: real, began: real, b: nat)
    requires Inv(c) && a in c.members && b in c.members && !c.members[a].down && c.members[a].token != c.members[b].token
    requires HoldBegan(c, a, start) && HoldBegan(c, b, began) && start < began
    ensures c.members[a].granted <= began
  {
    assert Backed(c, a);
    var m, o := c.members[a], c.members[b];
    if !HoldsRow(c, a, m) {
      var i :| 0 <= i < |c.past| && HeldUntil(c.past[i], m.token.value, Promised(c, m));
      var k :| 0 <= k < |c.past| && c.past[k].token == m.token.value && c.past[k].start == start;
      HoldsDiffer(c, i, k);
      if j :| 0 <= j < |c.past| && c.past[j].token == o.token.value && c.past[j].start == began {
        HoldsDiffer(c, i, j);
      }
    }
  }

  /** A node that stopped, or was demoted, does nothing more with its memory, and the clock goes on. */
  lemma {:induction false} StoppedMemoryStays(c: Cluster, actions: seq<Action>, d: Cluster, node: nat)
    requires node in c.members && (c.members[node].down || c.members[node].token.None?) && c.members[node].pending.None?
    requires Reaches(c, actions, d)
    ensures node in d.members && d.members[node] == c.members[node] && c.now <= d.now
    decreases |actions|
  {
    if actions != [] {
      StoppedMemoryStays(Step(c, actions[0]), actions[1..], d, node);
    }
  }

  /**
   * Exactly how long a stopped node goes on reporting leadership: as it did when it stopped, and until the expiry
   * it had noted. A node never stops between a call and its note, which are one uninterrupted stretch.
   */
  lemma {:induction false} StoppedLeaderReportsUntilItsNote(lease: real, before: seq<Action>, c: Cluster, node: nat, after: seq<Action>, d: Cluster)
    requires Reaches(Start(lease), before, c) && node in c.members && c.members[node].pending.None?
    requires Reaches(Shutdown(c, node), after, d)
    ensures IsLeader(d, node) <==> IsLeader(c, node) && d.now < c.members[node].noted
  {
    RunKeepsInv(Start(lease), before, c);
    StoppedMemoryStays(Shutdown(c, node), after, d, node);
  }

  /** Before shutdown only: a node that released its row still calls itself the leader, beside its successor. */
  lemma ShutdownKeepsTheRole(lease: real) returns (actions: seq<Action>, c: Cluster)
    requires lease > 2.0
    ensures Reaches(Start(lease), actions, c) && IsLeader(c, 0) && IsLeader(c, 1) && c.now == 1.0
  {
    var c1 := Step(Start(lease), Acquire(0, 10, 0.0));
    var c2 := Step(c1, Remember(0));
    var c3 := Step(c2, Tick(1.0));
    var c4 := Step(c3, Stop(0));
    var c5 := Step(c4, Acquire(1, 11, 1.0));
    c := Step(c5, Remember(1));
    assert Reaches(c, [], c);
    actions := [Acquire(0, 10, 0.0), Remember(0), Tick(1.0), Stop(0), Acquire(1, 11, 1.0), Remember(1)];
  }

  /** That token is on the row, and its node is still up and has not been demoted. */
  ghost predicate InOffice(c: Cluster, node: nat, token: nat, expires: real) {
    && c.row.Some? && c.row.value.node == node && c.row.value.token == token && c.row.value.expires >= expires
    && node in c.members && c.members[node].token == Some(token) && !c.members[node].down
    && (c.members[node].leading || c.members[node].pending.Some?)
  }

  predicate Disturbs(c: Cluster, a: Action, node: nat, expires: real) {
    a == Stop(node) || (a.Extend? && a.node == node && a.read + c.lease < expires)
  }

  lemma StepKeepsOffice(c: Cluster, a: Action, node: nat, token: nat, expires: real)
    requires InOffice(c, node, token, expires) && Legal(c, a) && !Disturbs(c, a, node, expires) && c.now < expires
    ensures InOffice(Step(c, a), node, token, expires) && Step(c, a).lease == c.lease
  {
  }

  lemma {:induction false} TimePasses(c: Cluster, actions: seq<Action>, d: Cluster)
    requires Reaches(c, actions, d)
    ensures c.now <= d.now
    decreases |actions|
  {
    if actions != [] {
      TimePasses(Step(c, actions[0]), actions[1..], d);
    }
  }

  /**
   * Until the expiry on its row nobody takes the office from a node that goes on running and renews to no earlier
   * instant: whoever else acquires, sweeps, renews or stops, the row keeps its token, and no renewal of its own fails.
   */
  lemma {:induction false} OfficeIsKept(c: Cluster, actions: seq<Action>, d: Cluster, node: nat, token: nat, expires: real)
    requires InOffice(c, node, token, expires) && Reaches(c, actions, d) && d.now < expires
    requires forall i :: 0 <= i < |actions| ==> !Disturbs(c, actions[i], node, expires)
    ensures InOffice(d, node, token, expires)
    decreases |actions|
  {
    if actions != [] {
      TimePasses(c, actions, d);
      var next := Step(c, actions[0]);
      StepKeepsOffice(c, actions[0], node, token, expires);
      forall i | 0 <= i < |actions[1..]| ensures !Disturbs(next, actions[1..][i], node, expires) {
        assert !Disturbs(c, actions[i + 1], node, expires);
      }
      OfficeIsKept(next, actions[1..], d, node, token, expires);
    }
  }

  /** A node that acquires the office is in it for a whole lease from the reading of its clock, and leads once it notes so. */
  lemma AcquiringTakesOffice(c: Cluster, node: nat, token: nat, read: real)
    requires c.row.None? || c.row.value.expires <= read
    ensures var d := TryAcquire(c, node, token, read);
      && InOffice(d, node, token, read + c.lease) && d.row == Some(LeaderRow(node, token, read + c.lease, c.now))
      && (c.lease > 0.0 ==> IsLeader(Note(d, node), node))
  {
  }

  // ----- The election as it runs ------------------------------------------------------------

  /** The cluster this table belongs to, as far as the table can tell. */
  ghost predicate Tabled(c: Cluster, row: Option<LeaderRow>, lease: real, at: real) {
    c.row == row && c.lease == lease && c.now == at
  }

  /** The node is up and has that token in memory. */
  predicate Carries(c: Cluster, node: nat, token: nat) {
    node in c.members && c.members[node].token == Some(token) && !c.members[node].down
  }

  class LeaderElection {
    var row: Option<LeaderRow>
    const leaseSeconds: real

    constructor (leaseSeconds: real)
      ensures row == None && this.leaseSeconds == leaseSeconds
    {
      row := None;
      this.leaseSeconds := leaseSeconds;
    }

    /** try_acquire at a given time: delete the expired row, then insert unless a live one is there. */
    method Acquire(node: nat, token: nat, read: real, at: real) returns (acquired: bool)
      modifies this
      ensures forall c: Cluster {:trigger TryAcquire(c, node, token, read)} :: Tabled(c, old(row), leaseSeconds, at) ==> TryAcquire(c, node, token, read).row == row
      ensures acquired <==> old(row).None? || old(row).value.expires <= read
      ensures row == if acquired then Some(LeaderRow(node, token, read + leaseSeconds, at)) else old(row)
    {
      if row.Some? && row.value.expires > read {
        return false;
      }
      row := None;
      row := Some(LeaderRow(node, token, read + leaseSeconds, at));
      return true;
    }

    method RenewLeadership(node: nat, token: nat, read: real) returns (renewed: bool)
      modifies this
      ensures renewed <==> old(row).Some? && old(row).value.node == node && old(row).value.token == token && old(row).value.expires > read
      ensures row == if renewed then Some(old(row).value.(expires := read + leaseSeconds)) else old(row)
      ensures forall c: Cluster {:trigger Renew(c, node, read)} :: Tabled(c, old(row), leaseSeconds, c.now) && Carries(c, node, token) ==>
        Renew(c, node, read).row == row
    {
      if row.Some? && row.value.node == node && row.value.token == token && row.value.expires > read {
        row := Some(row.value.(expires := read + leaseSeconds));
        return true;
      }
      return false;
    }

    method ReleaseLeadership(node: nat, token: nat)
      modifies this
      ensures row == if old(row).Some? && old(row).value.node == node && old(row).value.token == token then None else old(row)
    {
      if row.Some? && row.value.node == node && row.value.token == token {
        row := None;
      }
    }

    method CleanupStaleLeader(read: real) returns (removed: bool)
      modifies this
      ensures removed <==> old(row).Some? && old(row).value.expires <= read
      ensures row == if removed then None else old(row)
      ensures forall c: Cluster {:trigger Cleanup(c, read)} :: c.row == old(row) ==> Cleanup(c, read).row == row
    {
      removed := row.Some? && row.value.expires <= read;
      if removed {
        row := None;
      }
    }
  }
}
