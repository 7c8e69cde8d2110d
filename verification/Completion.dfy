/** A submitted tree can be executed to the end, by a dispatcher, by a leased worker and locally. */
module Completion {
  import opened Prelude
  import opened Ownership

  const Fresh := Node(Pending, false, false, false, false, false)

  /** A new tree all of whose nodes are pending. */
  ghost predicate Submitted(t: Tree) {
    Initial(t) && t.leaseSeconds > 0 && forall n :: n in t.nodes ==> t.nodes[n] == Fresh
  }

  /** The owner has started the run and completed the nodes done, each by one invocation of its own. */
  ghost predicate Executing(t: Tree, owner: Owner, done: set<Id>) {
    && owner in t.runners && t.runners[owner].startedRun && t.run == Some(RunRunning)
    && OwnsRun(t, owner) && Fence(t, owner) && done <= t.nodes.Keys
    && (forall n :: n in t.nodes ==> t.nodes[n] == if n in done then Fresh.(status := Completed, started := true) else Fresh)
    && (forall n :: n in done ==> Invoked(t, owner, n))
    && (forall id :: id in t.attempts ==> t.attempts[id].status == AttemptCompleted && t.attempts[id].owner == owner)
  }

  ghost predicate Invoked(t: Tree, owner: Owner, n: Id) {
    exists id :: id in t.attempts && t.attempts[id] == Attempt(n, AttemptCompleted, owner)
  }

  /** What execution leaves alone. */
  ghost predicate SameSetting(t: Tree, u: Tree) {
    && u.nodes.Keys == t.nodes.Keys && u.root == t.root && u.now == t.now && u.leaseSeconds == t.leaseSeconds
    && u.dispatch == t.dispatch && u.lease == t.lease
  }

  /** Claim, invocation, its end, and the node's end. */
  function Moves(owner: Owner, n: Id, id: nat): seq<Action> {
    [AClaimNode(owner, n)] + ([AStartAttempt(owner, n, id)]
      + ([AFinishAttempt(id, AttemptCompleted)] + ([AFinishNode(owner, n, Completed, false)] + [])))
  }

  function Played(t: Tree, owner: Owner, n: Id, id: nat): Tree {
    FinishNode(FinishAttempt(StartAttempt(ClaimNode(t, owner, n), owner, n, id), id, AttemptCompleted), owner, n, Completed, false)
  }

  lemma {:induction false} InvocationReaches(t: Tree, owner: Owner, n: Id, id: nat, rest: seq<Action>, u: Tree)
    requires Reaches(FinishAttempt(StartAttempt(t, owner, n, id), id, AttemptCompleted), rest, u)
    ensures Reaches(t, [AStartAttempt(owner, n, id)] + ([AFinishAttempt(id, AttemptCompleted)] + rest), u)
  {
    var started := StartAttempt(t, owner, n, id);
    ReachesBy(started, AFinishAttempt(id, AttemptCompleted), FinishAttempt(started, id, AttemptCompleted), rest, u);
    ReachesBy(t, AStartAttempt(owner, n, id), started, [AFinishAttempt(id, AttemptCompleted)] + rest, u);
  }

  lemma {:induction false} NodeEndReaches(t: Tree, owner: Owner, n: Id)
    ensures Reaches(t, [AFinishNode(owner, n, Completed, false)] + [], FinishNode(t, owner, n, Completed, false))
  {
    var u := FinishNode(t, owner, n, Completed, false);
    assert Reaches(u, [], u);
    ReachesBy(t, AFinishNode(owner, n, Completed, false), u, [], u);
  }

  lemma {:induction false} MovesReach(t: Tree, owner: Owner, n: Id, id: nat)
    ensures Reaches(t, Moves(owner, n, id), Played(t, owner, n, id))
  {
    var claimed := ClaimNode(t, owner, n);
    var finished := FinishAttempt(StartAttempt(claimed, owner, n, id), id, AttemptCompleted);
    NodeEndReaches(finished, owner, n);
    InvocationReaches(claimed, owner, n, id, [AFinishNode(owner, n, Completed, false)] + [], Played(t, owner, n, id));
    ReachesBy(t, AClaimNode(owner, n), claimed, [AStartAttempt(owner, n, id)]
      + ([AFinishAttempt(id, AttemptCompleted)] + ([AFinishNode(owner, n, Completed, false)] + [])), Played(t, owner, n, id));
  }

  lemma NodeCompletes(t: Tree, owner: Owner, done: set<Id>, n: Id, id: nat) returns (actions: seq<Action>, u: Tree)
    requires Executing(t, owner, done) && n in t.nodes && n !in done && id !in t.attempts
    ensures Reaches(t, actions, u) && Executing(u, owner, done + {n}) && SameSetting(t, u)
    ensures u.attempts.Keys == t.attempts.Keys + {id}
  {
    actions, u := Moves(owner, n, id), Played(t, owner, n, id);
    MovesReach(t, owner, n, id);
    NodeMoves(t, owner, n, id);
    OneMoreExecutes(t, owner, done, n, id, u);
  }

  /** Node n is completed by one new invocation. */
  ghost predicate OneMore(t: Tree, owner: Owner, n: Id, id: nat, u: Tree) {
    && SameSetting(t, u) && u.run == t.run
    && u.nodes == t.nodes[n := Fresh.(status := Completed, started := true)]
    && u.attempts == t.attempts[id := Attempt(n, AttemptCompleted, owner)]
    && owner in u.runners && u.runners[owner].startedRun
  }

  lemma NodeMoves(t: Tree, owner: Owner, n: Id, id: nat)
    requires owner in t.runners && t.runners[owner].startedRun && t.run == Some(RunRunning) && Fence(t, owner)
    requires n in t.nodes && t.nodes[n] == Fresh && id !in t.attempts
    ensures OneMore(t, owner, n, id, Played(t, owner, n, id))
  {
    var claimed := ClaimNode(t, owner, n);
    assert claimed.nodes == t.nodes[n := Fresh.(status := InProgress, started := true)];
    var started := StartAttempt(claimed, owner, n, id);
    assert started.attempts == t.attempts[id := Attempt(n, AttemptRunning, owner)];
  }

  lemma OneMoreExecutes(t: Tree, owner: Owner, done: set<Id>, n: Id, id: nat, u: Tree)
    requires Executing(t, owner, done) && n in t.nodes && n !in done && id !in t.attempts && OneMore(t, owner, n, id, u)
    ensures Executing(u, owner, done + {n})
  {
    assert u.attempts[id] == Attempt(n, AttemptCompleted, owner);
    forall m | m in done ensures Invoked(u, owner, m) {
      assert Invoked(t, owner, m);
      var other :| other in t.attempts && t.attempts[other] == Attempt(m, AttemptCompleted, owner);
      assert u.attempts[other] == Attempt(m, AttemptCompleted, owner);
    }
  }

  lemma {:induction false} NodesComplete(t: Tree, owner: Owner, done: set<Id>, next: nat) returns (actions: seq<Action>, u: Tree)
    requires Executing(t, owner, done) && forall id :: id in t.attempts ==> id < next
    ensures Reaches(t, actions, u) && Executing(u, owner, t.nodes.Keys) && SameSetting(t, u)
    decreases t.nodes.Keys - done
  {
    if t.nodes.Keys <= done {
      assert done == t.nodes.Keys;
      actions, u := [], t;
    } else {
      var n :| n in t.nodes.Keys && n !in done;
      var first, v := NodeCompletes(t, owner, done, n, next);
      var rest: seq<Action>;
      rest, u := NodesComplete(v, owner, done + {n}, next + 1);
      ReachesOnward(t, first, v, rest, u);
      actions := first + rest;
    }
  }

  // ----- Getting hold of the tree -------------------------------------------------------------

  /** The rows under which the owner executes. */
  ghost predicate HeldBy(t: Tree, u: Tree, owner: Owner) {
    match owner
    case Dispatcher(token) => u.dispatch == Some(Dispatch(DispatchRunning, Some(token), t.now + t.leaseSeconds, 1)) && u.lease.None?
    case Worker(token) => u.lease == Some(Lease(token, t.now + t.leaseSeconds)) && u.dispatch.None?
    case Local(_) => u.dispatch.None? && u.lease.None?
  }

  lemma FreshIsAccepted(t: Tree)
    requires t.root in t.nodes && forall n :: n in t.nodes ==> t.nodes[n] == Fresh
    ensures SummarizeRun(t.nodes) == RunAccepted
  {
    assert t.nodes[t.root].status == Pending;
  }

  /** The rows are there, and the run is accepted or not yet on record. */
  ghost predicate Admitted(t: Tree, v: Tree, owner: Owner) {
    && v.nodes == t.nodes && v.root == t.root && v.now == t.now && v.leaseSeconds == t.leaseSeconds && v.attempts == map[]
    && (v.run.None? || v.run == Some(RunAccepted)) && owner in v.runners && HeldBy(t, v, owner)
  }

  lemma Admits(t: Tree, owner: Owner) returns (actions: seq<Action>, v: Tree)
    requires Submitted(t)
    ensures Reaches(t, actions, v) && Admitted(t, v, owner)
  {
    FreshIsAccepted(t);
    match owner
    case Dispatcher(token) =>
      var t1 := Step(t, AAccept);
      v := Step(t1, AClaimDispatch(token));
      assert Reaches(v, [], v);
      ReachesBy(t1, AClaimDispatch(token), v, [], v);
      ReachesBy(t, AAccept, t1, [AClaimDispatch(token)] + [], v);
      actions := [AAccept] + ([AClaimDispatch(token)] + []);
    case Worker(token) =>
      v := Step(t, AAcquireLease(token));
      assert Reaches(v, [], v);
      ReachesBy(t, AAcquireLease(token), v, [], v);
      actions := [AAcquireLease(token)] + [];
    case Local(token) =>
      v := Step(t, AEnterLocally(token));
      assert Reaches(v, [], v);
      ReachesBy(t, AEnterLocally(token), v, [], v);
      actions := [AEnterLocally(token)] + [];
  }

  lemma Starts(t: Tree, v: Tree, owner: Owner)
    requires Submitted(t) && Admitted(t, v, owner)
    ensures var u := StartRun(v, owner); Executing(u, owner, {}) && SameSetting(v, u) && u.attempts == map[]
  {
    FreshIsAccepted(v);
  }

  // ----- The end --------------------------------------------------------------------------------

  /** Everything is completed, and no row holds the tree any more. */
  ghost predicate CompletedBy(t: Tree, u: Tree, owner: Owner) {
    && u.nodes.Keys == t.nodes.Keys && u.run == Some(RunCompleted) && u.lease.None?
    && (forall n :: n in u.nodes ==> u.nodes[n].status == Completed && Invoked(u, owner, n))
    && (forall id :: id in u.attempts ==> u.attempts[id].status == AttemptCompleted && u.attempts[id].owner == owner)
    && (if owner.Dispatcher? then u.dispatch.Some? && u.dispatch.value.state == DispatchFinished && u.dispatch.value.owner.None?
        else u.dispatch.None?)
  }

  /** The last action of an owner: its row goes, or is finished. */
  function Leave(owner: Owner): Action {
    match owner
    case Dispatcher(token) => ASettleDispatch(token, false)
    case Worker(token) => AReleaseLease(token)
    case Local(_) => ACrash(owner)
  }

  lemma Ends(t: Tree, v: Tree, owner: Owner) returns (actions: seq<Action>, u: Tree)
    requires Executing(v, owner, v.nodes.Keys) && HeldBy(t, v, owner) && v.nodes.Keys == t.nodes.Keys
    ensures Reaches(v, actions, u) && CompletedBy(t, u, owner)
  {
    var v1 := Step(v, AFinishRun(owner, RunCompleted));
    u := Step(v1, Leave(owner));
    forall n | n in u.nodes ensures u.nodes[n].status == Completed && Invoked(u, owner, n) {
      assert Invoked(v, owner, n);
      var id :| id in v.attempts && v.attempts[id] == Attempt(n, AttemptCompleted, owner);
      assert u.attempts[id] == Attempt(n, AttemptCompleted, owner);
    }
    assert Reaches(u, [], u);
    ReachesBy(v1, Leave(owner), u, [], u);
    ReachesBy(v, AFinishRun(owner, RunCompleted), v1, [Leave(owner)] + [], u);
    actions := [AFinishRun(owner, RunCompleted)] + ([Leave(owner)] + []);
  }

  /**
   * Whatever the tree and whoever the owner, some run takes a submitted tree to the end: its run is completed, every
   * node is completed by an invocation of that owner, and nothing holds the tree any more.
   */
  lemma SubmittedTreeCanComplete(t: Tree, owner: Owner) returns (actions: seq<Action>, u: Tree)
    requires Submitted(t)
    ensures Reaches(t, actions, u) && CompletedBy(t, u, owner)
  {
    var first, v := Admits(t, owner);
    var w := StartRun(v, owner);
    Starts(t, v, owner);
    var nodes, x := NodesComplete(w, owner, {}, 0);
    var last: seq<Action>;
    last, u := Ends(t, x, owner);
    ReachesOnward(w, nodes, x, last, u);
    ReachesBy(v, AStartRun(owner), w, nodes + last, u);
    ReachesOnward(t, first, v, [AStartRun(owner)] + (nodes + last), u);
    actions := first + ([AStartRun(owner)] + (nodes + last));
  }
}
