/** When local execution, which carries no token, shares a tree with another owner, and when it cannot. */
module LocalExecution {
  import opened Prelude
  import opened Ownership

  // ----- The condition ----------------------------------------------------------------------

  predicate Started(t: Tree, o: Owner) {
    o in t.runners && t.runners[o].startedRun
  }

  /** The step makes a running run available again: an expired lease or dispatch row was recovered. */
  predicate Reopens(t: Tree, a: Action) {
    t.run == Some(RunRunning) && Step(t, a).run == Some(RunAccepted)
  }

  /** No run is made available again while a runner that started it is still there. */
  ghost predicate StartersAreAlone(t: Tree, actions: seq<Action>)
    decreases |actions|
  {
    actions != [] ==>
      && (Reopens(t, actions[0]) ==> forall o :: !Started(t, o))
      && StartersAreAlone(Step(t, actions[0]), actions[1..])
  }

  // ----- It suffices ------------------------------------------------------------------------

  predicate Taken(t: Tree) {
    t.run.Some? && t.run.value != RunAccepted
  }

  /** One live starter at most, who made every claim if there is any; and an available run has neither. */
  ghost predicate Sole(t: Tree) {
    && (forall o :: Started(t, o) ==> Taken(t))
    && (forall o, p :: Started(t, o) && Started(t, p) ==> o == p)
    && (t.claims != {} ==> Taken(t))
    && (forall c, d :: c in t.claims && d in t.claims ==> c.1 == d.1)
    && (forall c, o :: c in t.claims && Started(t, o) ==> c.1 == o)
  }

  /** Nothing a step does to runners, claims and the run, apart from starting and claiming. */
  ghost predicate Quiet(t: Tree, u: Tree) {
    && (forall o :: Started(u, o) ==> Started(t, o))
    && u.claims == t.claims
    && (Taken(t) && ((exists o :: Started(t, o)) || t.claims != {}) ==> Taken(u))
  }

  lemma QuietKeepsSole(t: Tree, u: Tree)
    requires Sole(t) && Quiet(t, u)
    ensures Sole(u)
  {
    forall o | Started(u, o) ensures Taken(u) {
      assert Started(t, o);
    }
  }

  lemma StepKeepsSole(t: Tree, a: Action)
    requires Inv(t) && Sole(t) && Legal(t, a) && (Reopens(t, a) ==> forall o :: !Started(t, o))
    ensures Sole(Step(t, a))
  {
    if a.AClaimNode? {
      ClaimKeepsSole(t, a.owner, a.node);
    } else if LeavesRunAlone(a) {
      OtherIsQuiet(t, a);
      QuietKeepsSole(t, Step(t, a));
    } else {
      WriterKeepsSole(t, a);
    }
  }

  lemma WriterKeepsSole(t: Tree, a: Action)
    requires Inv(t) && Sole(t) && Legal(t, a) && !LeavesRunAlone(a) && (Reopens(t, a) ==> forall o :: !Started(t, o))
    ensures Sole(Step(t, a))
  {
    match a
    case AStartRun(owner) => StartKeepsSole(t, owner);
    case AWriteRecovery(pass) => RecoveryIsQuiet(t, pass);
    case AAcquireLease(token) => LeaseIsQuiet(t, token);
    case ACleanupLease => DropIsQuiet(t, a);
    case ARecoverLease(token) => DropIsQuiet(t, a);
    case AAccept => QuietKeepsSole(t, Accept(t));
    case AFinishRun(owner, status) => QuietKeepsSole(t, FinishRun(t, owner, status));
  }

  lemma OtherIsQuiet(t: Tree, a: Action)
    requires LeavesRunAlone(a) && !a.AClaimNode?
    ensures Quiet(t, Step(t, a))
  {
    RunLeftAlone(t, a);
    forall o | Started(Step(t, a), o) ensures Started(t, o) {
    }
  }

  /** Only an available run is started, and then nobody else had started it or claimed anything. */
  lemma StartKeepsSole(t: Tree, owner: Owner)
    requires Inv(t) && Sole(t)
    ensures Sole(StartRun(t, owner))
  {
    var u := StartRun(t, owner);
    if owner in t.runners && EnsureRun(t).run == Some(RunAccepted) {
      assert !Taken(t) && t.claims == {};
      forall o ensures !Started(t, o) {
      }
      assert u.runners == t.runners || (u.run == Some(RunRunning) && u.runners == t.runners[owner := t.runners[owner].(startedRun := true)]);
      forall o ensures Started(u, o) ==> o == owner && Taken(u) {
        assert !Started(t, o);
      }
    } else {
      QuietKeepsSole(t, u);
    }
  }

  lemma ClaimKeepsSole(t: Tree, owner: Owner, n: Id)
    requires Sole(t)
    ensures Sole(ClaimNode(t, owner, n))
  {
    var u := ClaimNode(t, owner, n);
    forall o ensures Started(u, o) == Started(t, o) {
    }
    if u != t {
      assert Started(t, owner);
    }
  }

  lemma RecoveryIsQuiet(t: Tree, pass: nat)
    requires Inv(t) && Sole(t) && (Reopens(t, AWriteRecovery(pass)) ==> forall o :: !Started(t, o))
    ensures Sole(WriteRecovery(t, pass))
  {
    QuietKeepsSole(t, WriteRecovery(t, pass));
  }

  /** A tree with claims is started, so a dropped lease does not make it available. */
  lemma ClaimedTreeIsHeld(t: Tree)
    requires Inv(t) && t.claims != {} && Taken(t)
    ensures Taken(DropLease(t))
  {
    var c :| c in t.claims;
    assert t.nodes[c.0].started && NodeStarted(t.nodes[c.0]);
  }

  lemma DropIsQuiet(t: Tree, a: Action)
    requires Inv(t) && Sole(t) && (a == ACleanupLease || a.ARecoverLease?) && (Reopens(t, a) ==> forall o :: !Started(t, o))
    ensures Sole(Step(t, a))
  {
    if t.claims != {} {
      ClaimedTreeIsHeld(t);
    }
    QuietKeepsSole(t, Step(t, a));
  }

  lemma LeaseIsQuiet(t: Tree, token: nat)
    requires Inv(t) && Sole(t) && token !in t.tokens
    ensures Sole(AcquireLease(t, token))
  {
    if t.claims != {} {
      ClaimedTreeIsHeld(t);
    }
    QuietKeepsSole(t, AcquireLease(t, token));
  }

  lemma {:induction false} RunKeepsSole(t: Tree, actions: seq<Action>, u: Tree)
    requires Inv(t) && Sole(t) && Reaches(t, actions, u) && StartersAreAlone(t, actions)
    ensures Inv(u) && Sole(u)
    decreases |actions|
  {
    if actions != [] {
      StepKeepsInv(t, actions[0]);
      StepKeepsSole(t, actions[0]);
      RunKeepsSole(Step(t, actions[0]), actions[1..], u);
    }
  }

  /**
   * Local executions included: in every run in which no run is made available again beside a runner that started
   * it, all invocations in the tree belong to one owner.
   */
  lemma {:induction false} OneOwnerUnlessReopened(t: Tree, actions: seq<Action>, u: Tree, a: nat, b: nat)
    requires Initial(t) && Reaches(t, actions, u) && StartersAreAlone(t, actions)
    requires a in u.attempts && b in u.attempts
    ensures u.attempts[a].owner == u.attempts[b].owner
  {
    RunKeepsSole(t, actions, u);
    assert (u.attempts[a].node, u.attempts[a].owner) in u.claims;
    assert (u.attempts[b].node, u.attempts[b].owner) in u.claims;
  }

  /**
   * In such runs an available run has no invocation yet, so a start that read none and writes later reads no more
   * than the update it makes already checks.
   */
  lemma {:induction false} AvailableRunIsUntouched(t: Tree, actions: seq<Action>, u: Tree)
    requires Initial(t) && Reaches(t, actions, u) && StartersAreAlone(t, actions) && u.run == Some(RunAccepted)
    ensures u.attempts == map[] && u.claims == {}
  {
    RunKeepsSole(t, actions, u);
    ClaimsComeFirst(u);
  }

  // ----- And it is necessary ----------------------------------------------------------------

  ghost predicate TwoOwners(t: Tree) {
    exists a, b :: a in t.attempts && b in t.attempts && t.attempts[a].owner != t.attempts[b].owner
  }

  /** What a claim asks of a node. */
  predicate Open(t: Tree, n: Id) {
    n in t.nodes && t.nodes[n].status == Pending && !t.nodes[n].link && !t.nodes[n].frozen && !t.nodes[n].cancelRequested
  }

  /** A second owner can still start the run: the row is absent, settled, claimable, or will be. */
  predicate Restartable(t: Tree) {
    t.dispatch.Some? ==>
      match t.dispatch.value.state
      case DispatchAccepted => true
      case DispatchFinished => true
      case DispatchReconciliation => false
      case _ =>
        || RecoveryVerdict(t) == DispatchAccepted
        || (t.dispatch.value.owner.Some? && Dispatcher(t.dispatch.value.owner.value) in t.runners && t.dispatch.value.expires > t.now)
  }

  lemma FreshToken(tokens: set<nat>) returns (token: nat)
    ensures token !in tokens
  {
    token := 0;
    var rest := tokens;
    while rest != {}
      invariant rest <= tokens && forall k :: k in tokens && k !in rest ==> k < token
      decreases rest
    {
      var k :| k in rest;
      rest := rest - {k};
      token := if k >= token then k + 1 else token;
    }
  }

  /** The run is available, a local execution that started it is still there, and two nodes are to be claimed. */
  ghost predicate Exposed(t: Tree, l: nat, a: Id, b: Id) {
    && t.run == Some(RunAccepted) && t.attempts == map[] && Started(t, Local(l)) && l in t.tokens
    && (t.lease.Some? ==> t.lease.value.expires <= t.now)
    && a != b && Open(t, a) && Open(t, b)
  }

  /** An owner of the tree starts the available run, claims a node and starts its invocation. */
  lemma OwnerStarts(t: Tree, owner: Owner, a: Id) returns (actions: seq<Action>, u: Tree)
    requires t.run == Some(RunAccepted) && t.attempts == map[] && owner in t.runners && Open(t, a)
    requires OwnsRun(t, owner) && Fence(t, owner)
    ensures Reaches(t, actions, u) && WritableRun(u) && u.attempts == map[0 := Attempt(a, AttemptRunning, owner)]
    ensures u.dispatch == t.dispatch && u.lease == t.lease && u.now == t.now
    ensures forall o :: Started(t, o) ==> Started(u, o)
    ensures forall n :: n != a && Open(t, n) ==> Open(u, n)
  {
    var t1 := Step(t, AStartRun(owner));
    assert t1 == t.(run := Some(RunRunning), runners := t.runners[owner := t.runners[owner].(startedRun := true)]);
    var t2 := Step(t1, AClaimNode(owner, a));
    u := Step(t2, AStartAttempt(owner, a, 0));
    assert Reaches(u, [], u);
    ReachesBy(t2, AStartAttempt(owner, a, 0), u, [], u);
    actions := [AStartAttempt(owner, a, 0)] + [];
    ReachesBy(t1, AClaimNode(owner, a), t2, actions, u);
    actions := [AClaimNode(owner, a)] + actions;
    ReachesBy(t, AStartRun(owner), t1, actions, u);
    actions := [AStartRun(owner)] + actions;
  }

  /** A local execution that started the run before claims another node once no row or lease is in its way. */
  lemma LocalJoins(t: Tree, l: nat, b: Id, other: Owner) returns (actions: seq<Action>, u: Tree)
    requires Started(t, Local(l)) && other != Local(l) && Open(t, b) && WritableRun(t) && Fence(t, Local(l))
    requires 0 in t.attempts && t.attempts[0].owner == other && 1 !in t.attempts
    ensures Reaches(t, actions, u) && TwoOwners(u)
  {
    var t1 := Step(t, AClaimNode(Local(l), b));
    u := Step(t1, AStartAttempt(Local(l), b, 1));
    assert u.attempts[0].owner == other && u.attempts[1].owner == Local(l);
    assert Reaches(u, [], u);
    ReachesBy(t1, AStartAttempt(Local(l), b, 1), u, [], u);
    actions := [AStartAttempt(Local(l), b, 1)] + [];
    ReachesBy(t, AClaimNode(Local(l), b), t1, actions, u);
    actions := [AClaimNode(Local(l), b)] + actions;
  }

  /** Without an unsettled row a second local execution starts the run again. */
  lemma LocalsTogether(t: Tree, l: nat, a: Id, b: Id) returns (actions: seq<Action>, u: Tree)
    requires Exposed(t, l, a, b) && (t.dispatch.Some? ==> t.dispatch.value.state == DispatchFinished)
    ensures Reaches(t, actions, u) && TwoOwners(u)
  {
    var m := FreshToken(t.tokens);
    var t1 := Step(t, AEnterLocally(m));
    assert t1 == t.(runners := t.runners[Local(m) := Runner(false, {})], tokens := t.tokens + {m});
    assert Started(t1, Local(l)) && Open(t1, a) && Open(t1, b);
    var first, t2 := OwnerStarts(t1, Local(m), a);
    var second, t3 := LocalJoins(t2, l, b, Local(m));
    u := t3;
    ReachesOnward(t1, first, t2, second, u);
    ReachesBy(t, AEnterLocally(m), t1, first + second, u);
    actions := [AEnterLocally(m)] + (first + second);
  }

  /** A dispatcher that owns the row starts the run again, and settles the row when it is done. */
  lemma DispatcherThenLocal(t: Tree, k: nat, l: nat, a: Id, b: Id) returns (actions: seq<Action>, u: Tree)
    requires Exposed(t, l, a, b) && t.dispatch.Some? && t.dispatch.value.owner == Some(k) && ActiveDispatch(t.dispatch.value)
    requires t.dispatch.value.expires > t.now && Dispatcher(k) in t.runners
    ensures Reaches(t, actions, u) && TwoOwners(u)
  {
    var first, t1 := OwnerStarts(t, Dispatcher(k), a);
    var t2 := Step(t1, ASettleDispatch(k, false));
    assert Started(t2, Local(l)) && Open(t2, b);
    var second, t3 := LocalJoins(t2, l, b, Dispatcher(k));
    u := t3;
    ReachesBy(t1, ASettleDispatch(k, false), t2, second, u);
    second := [ASettleDispatch(k, false)] + second;
    ReachesOnward(t, first, t1, second, u);
    actions := first + second;
  }

  lemma ClaimedThenLocal(t: Tree, l: nat, a: Id, b: Id) returns (actions: seq<Action>, u: Tree)
    requires Exposed(t, l, a, b) && t.dispatch.Some? && t.dispatch.value.state == DispatchAccepted && t.leaseSeconds > 0
    ensures Reaches(t, actions, u) && TwoOwners(u)
  {
    var k := FreshToken(t.tokens);
    var t1 := Step(t, AClaimDispatch(k));
    actions, u := DispatcherThenLocal(t1, k, l, a, b);
    ReachesBy(t, AClaimDispatch(k), t1, actions, u);
    actions := [AClaimDispatch(k)] + actions;
  }

  /** An active row whose tree nothing has happened in expires, and is recovered to be claimed again. */
  lemma RecoveredThenLocal(t: Tree, l: nat, a: Id, b: Id) returns (actions: seq<Action>, u: Tree)
    requires Exposed(t, l, a, b) && DispatchRow(t) && t.leaseSeconds > 0
    requires t.dispatch.Some? && ActiveDispatch(t.dispatch.value) && RecoveryVerdict(t) == DispatchAccepted
    ensures Reaches(t, actions, u) && TwoOwners(u)
  {
    var seconds: nat := if t.dispatch.value.expires >= t.now then t.dispatch.value.expires - t.now + 1 else 0;
    var pass := FreshToken(t.recoveries.Keys);
    var t1 := Step(t, ATick(seconds));
    var t2 := Step(t1, AReadRow(pass));
    var t3 := Step(t2, AReadTree(pass));
    var t4 := Step(t3, AWriteRecovery(pass));
    assert RecoveryVerdict(t1) == RecoveryVerdict(t);
    RecoverNowIsThreeSteps(t1, pass);
    assert t4 == RecoverNow(t1);
    actions, u := ClaimedThenLocal(t4, l, a, b);
    ReachesBy(t3, AWriteRecovery(pass), t4, actions, u);
    actions := [AWriteRecovery(pass)] + actions;
    ReachesBy(t2, AReadTree(pass), t3, actions, u);
    actions := [AReadTree(pass)] + actions;
    ReachesBy(t1, AReadRow(pass), t2, actions, u);
    actions := [AReadRow(pass)] + actions;
    ReachesBy(t, ATick(seconds), t1, actions, u);
    actions := [ATick(seconds)] + actions;
  }

  lemma ClaimsComeFirst(t: Tree)
    requires Bookkeeping(t)
    ensures t.attempts != map[] ==> t.claims != {}
  {
    if id :| id in t.attempts {
      assert (t.attempts[id].node, t.attempts[id].owner) in t.claims;
    }
  }

  /** What making a run available again leaves behind. */
  ghost predicate FreshAgain(t: Tree, u: Tree) {
    && u.attempts == map[] && u.runners == t.runners && u.tokens == t.tokens && u.leaseSeconds == t.leaseSeconds
    && (u.lease.Some? ==> u.lease.value.expires <= u.now)
  }

  lemma ReopenedMeans(t: Tree, a: Action)
    requires Inv(t) && Reopens(t, a)
    ensures FreshAgain(t, Step(t, a))
  {
    if LeavesRunAlone(a) {
      RunLeftAlone(t, a);
    } else if a.AWriteRecovery? {
      RecoveredMeans(t, a.pass);
    } else {
      assert Interrupt(t.attempts).Keys == t.attempts.Keys;
    }
  }

  lemma RecoveredMeans(t: Tree, pass: nat)
    requires Inv(t) && Reopens(t, AWriteRecovery(pass))
    ensures FreshAgain(t, WriteRecovery(t, pass))
  {
    ClaimsComeFirst(t);
  }

  /**
   * Whenever a run is made available again beside a live local execution that started it, and a second owner can
   * still start it, two nodes that are open lead to invocations of two owners in one tree.
   */
  lemma ReopenedRunIsShared(t: Tree, step: Action, l: nat, a: Id, b: Id) returns (actions: seq<Action>, u: Tree)
    requires Inv(t) && Legal(t, step) && Reopens(t, step) && Started(t, Local(l)) && t.leaseSeconds > 0
    requires a != b && Open(Step(t, step), a) && Open(Step(t, step), b) && Restartable(Step(t, step))
    ensures Reaches(t, [step] + actions, u) && TwoOwners(u)
  {
    var v := Step(t, step);
    ReopenedMeans(t, step);
    StepKeepsInv(t, step);
    assert Local(l).token in t.tokens;
    if v.dispatch.None? || v.dispatch.value.state == DispatchFinished {
      actions, u := LocalsTogether(v, l, a, b);
    } else if v.dispatch.value.state == DispatchAccepted {
      actions, u := ClaimedThenLocal(v, l, a, b);
    } else if RecoveryVerdict(v) == DispatchAccepted {
      actions, u := RecoveredThenLocal(v, l, a, b);
    } else {
      actions, u := DispatcherThenLocal(v, v.dispatch.value.owner.value, l, a, b);
    }
    ReachesBy(t, step, v, actions, u);
  }

  /** A row held for reconciliation is not restartable because it stops every further claim, for good. */
  lemma {:induction false} HeldRowStopsClaims(t: Tree, actions: seq<Action>, u: Tree)
    requires Inv(t) && t.dispatch.Some? && t.dispatch.value.state == DispatchReconciliation && Reaches(t, actions, u)
    ensures u.claims == t.claims
    decreases |actions|
  {
    if actions != [] {
      StepKeepsInv(t, actions[0]);
      HeldRowStays(t, actions[0]);
      HeldRowStopsClaims(Step(t, actions[0]), actions[1..], u);
    }
  }

  lemma HeldRowStays(t: Tree, a: Action)
    requires Inv(t) && t.dispatch.Some? && t.dispatch.value.state == DispatchReconciliation
    ensures Step(t, a).dispatch == t.dispatch && Step(t, a).claims == t.claims
  {
    if !LeavesRunAlone(a) {
      HeldRowIsNotWritten(t, a);
    }
  }

  lemma HeldRowIsNotWritten(t: Tree, a: Action)
    requires Inv(t) && t.dispatch.Some? && t.dispatch.value.state == DispatchReconciliation && !LeavesRunAlone(a)
    ensures Step(t, a).dispatch == t.dispatch && Step(t, a).claims == t.claims
  {
    match a
    case AWriteRecovery(pass) =>
    case AStartRun(owner) =>
    case _ =>
  }
}
