/** What the recovery of an expired dispatch row does to it, in terms of the tree it read. */
module RecoveryOutcome {
  import opened Prelude
  import opened Ownership

  predicate AllCompleted(read: Tree) {
    forall n :: n in read.nodes ==> read.nodes[n].status == Completed
  }

  /** Neither started, nor in progress, nor of unknown delivery; and pending, or a link. */
  predicate Harmless(node: Node) {
    !node.started && node.status != InProgress && !node.unknownDelivery && (node.status == Pending || node.link)
  }

  predicate Untouched(read: Tree) {
    read.attempts == map[] && forall n :: n in read.nodes ==> Harmless(read.nodes[n])
  }

  predicate Live(run: Option<RunStatus>) {
    run == Some(RunAccepted) || run == Some(RunRunning)
  }

  /** The row is in that state without an owner; a live run has gone to the given status, any other run is as before. */
  ghost predicate Moved(t: Tree, u: Tree, state: DispatchState, run: RunStatus) {
    && t.dispatch.Some? && u.dispatch == Some(t.dispatch.value.(state := state, owner := None))
    && u.run == if Live(t.run) then Some(run) else t.run
  }

  /** No invocation stays running, and apart from that they are what they were. */
  ghost predicate Interrupted(before: map<nat, Attempt>, after: map<nat, Attempt>) {
    && after.Keys == before.Keys
    && forall id :: id in before ==>
         && after[id].node == before[id].node && after[id].owner == before[id].owner && after[id].status != AttemptRunning
         && after[id].status == if before[id].status == AttemptRunning then AttemptUnknown else before[id].status
  }

  ghost predicate RestKept(t: Tree, u: Tree) {
    && u.root == t.root && u.now == t.now && u.leaseSeconds == t.leaseSeconds && u.nodes == t.nodes && u.lease == t.lease
    && u.runners == t.runners && u.tokens == t.tokens && u.claims == t.claims
  }

  /** A completed tree finishes the row and completes the run; an untouched one frees both; anything else holds both. */
  ghost predicate Recovered(read: Tree, t: Tree, u: Tree) {
    && RestKept(t, u)
    && (AllCompleted(read) ==> Moved(t, u, DispatchFinished, RunCompleted) && u.attempts == t.attempts)
    && (!AllCompleted(read) && Untouched(read) ==> Moved(t, u, DispatchAccepted, RunAccepted) && u.attempts == t.attempts)
    && (!AllCompleted(read) && !Untouched(read) ==>
          Moved(t, u, DispatchReconciliation, RunReconciliation) && Interrupted(t.attempts, u.attempts))
  }

  /** So each state the row can end in says exactly what the tree was. */
  lemma RowTellsTheTree(read: Tree, t: Tree, u: Tree)
    requires Recovered(read, t, u)
    ensures u.dispatch.Some?
    ensures u.dispatch.value.state == DispatchFinished <==> AllCompleted(read)
    ensures u.dispatch.value.state == DispatchAccepted <==> !AllCompleted(read) && Untouched(read)
    ensures u.dispatch.value.state == DispatchReconciliation <==> !AllCompleted(read) && !Untouched(read)
  {
  }

  /** What the verdict means, tree by tree. */
  lemma VerdictTellsTheTree(t: Tree)
    ensures RecoveryVerdict(t) == if AllCompleted(t) then DispatchFinished else if Untouched(t) then DispatchAccepted else DispatchReconciliation
  {
    if !AllCompleted(t) && Uncertain(t) && t.attempts == map[] {
      var n :| n in t.nodes && MayHaveRun(t.nodes[n]);
      assert !Harmless(t.nodes[n]);
    }
  }

  lemma VerdictIsApplied(read: Tree, t: Tree)
    requires t.dispatch.Some?
    ensures Recovered(read, t, ApplyVerdict(t, RecoveryVerdict(read)))
  {
    VerdictTellsTheTree(read);
  }

  /** A recovery nothing interrupts. */
  lemma RecoveryIsRight(t: Tree)
    requires ExpiredRow(t)
    ensures Recovered(t, t, RecoverNow(t))
  {
    VerdictIsApplied(t, t);
  }

  // ----- Recovery over runs -------------------------------------------------------------------

  /** The pass goes on with what it read. */
  ghost predicate LeavesPass(actions: seq<Action>, pass: nat) {
    forall i :: 0 <= i < |actions| ==> actions[i] != AReadRow(pass) && actions[i] != AWriteRecovery(pass)
  }

  lemma {:induction false} ReadStays(t: Tree, actions: seq<Action>, u: Tree, pass: nat)
    requires Reaches(t, actions, u) && LeavesPass(actions, pass) && pass in t.recoveries && t.recoveries[pass].verdict.Some?
    ensures pass in u.recoveries && u.recoveries[pass] == t.recoveries[pass]
    decreases |actions|
  {
    if actions != [] {
      assert actions[0] != AReadRow(pass) && actions[0] != AWriteRecovery(pass);
      StepKeepsRead(t, actions[0], pass);
      assert forall i :: 0 <= i < |actions[1..]| ==> actions[1..][i] == actions[i + 1];
      ReadStays(Step(t, actions[0]), actions[1..], u, pass);
    }
  }

  predicate OfRecovery(a: Action) {
    a.AReadRow? || a.AReadTree? || a.AWriteRecovery?
  }

  lemma StepKeepsRead(t: Tree, a: Action, pass: nat)
    requires a != AReadRow(pass) && a != AWriteRecovery(pass) && pass in t.recoveries && t.recoveries[pass].verdict.Some?
    ensures pass in Step(t, a).recoveries && Step(t, a).recoveries[pass] == t.recoveries[pass]
  {
    if !OfRecovery(a) {
      OtherKeepsReads(t, a);
    }
  }

  lemma OtherKeepsReads(t: Tree, a: Action)
    requires !OfRecovery(a)
    ensures Step(t, a).recoveries == t.recoveries
  {
    if !LeavesRunAlone(a) {
      match a
      case AAccept =>
      case AStartRun(owner) =>
      case _ =>
    }
  }

  /** The row still has the owner the pass read, and has not been renewed since. */
  predicate StillExpired(rec: Recovery, u: Tree) {
    u.dispatch.Some? && rec.owner.Some? && u.dispatch.value.owner == rec.owner && u.dispatch.value.expires < rec.readAt
  }

  /**
   * Whatever happens between the reading of a tree and the late update: if the row is still the one that was read, the
   * update leaves it, the run and the invocations as the tree that was read asks for; otherwise it forgets the pass.
   */
  lemma {:induction false} LateUpdateFollowsTheReadTree(t: Tree, pass: nat, actions: seq<Action>, u: Tree)
    requires pass in t.recoveries && t.recoveries[pass].verdict.None?
    requires Reaches(ReadTree(t, pass), actions, u) && LeavesPass(actions, pass)
    ensures var w := WriteRecovery(u, pass);
      if StillExpired(t.recoveries[pass], u) then Recovered(t, u, w) else w == u.(recoveries := u.recoveries - {pass})
  {
    ReadStays(ReadTree(t, pass), actions, u, pass);
    if Applicable(u, u.recoveries[pass]) {
      VerdictIsApplied(t, u.(recoveries := u.recoveries - {pass}));
      assert WriteRecovery(u, pass) == ApplyVerdict(u.(recoveries := u.recoveries - {pass}), RecoveryVerdict(t));
    }
  }

  /** In particular recovery completes no run one of whose nodes was not completed when the tree was read. */
  lemma {:induction false} RecoveryCompletesOnlyCompletedTrees(t: Tree, pass: nat, actions: seq<Action>, u: Tree, n: Id)
    requires pass in t.recoveries && t.recoveries[pass].verdict.None? && n in t.nodes && t.nodes[n].status != Completed
    requires Reaches(ReadTree(t, pass), actions, u) && LeavesPass(actions, pass) && u.run != Some(RunCompleted)
    ensures WriteRecovery(u, pass).run != Some(RunCompleted)
    ensures WriteRecovery(u, pass).dispatch != u.dispatch ==>
      WriteRecovery(u, pass).dispatch.Some? && WriteRecovery(u, pass).dispatch.value.state != DispatchFinished
  {
    LateUpdateFollowsTheReadTree(t, pass, actions, u);
    assert !AllCompleted(t);
  }
}
