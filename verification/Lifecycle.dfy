/** Exactly when the writes to the ownership rows take effect, and what they leave behind. */
module Lifecycle {
  import opened Prelude
  import opened Ownership
  import RecoveryOutcome

  /** It is not known what became of the node. */
  predicate Unclear(node: Node) {
    node.unknownDelivery || node.status == InProgress || (node.status == Pending && node.started)
  }

  predicate SomeNode(nodes: map<Id, Node>, status: Status) {
    exists n :: n in nodes && nodes[n].status == status
  }

  predicate AllClear(nodes: map<Id, Node>) {
    forall n :: n in nodes ==> !Unclear(nodes[n])
  }

  /** What each run status says about the nodes it summarizes. */
  lemma SummaryTells(nodes: map<Id, Node>)
    ensures SummarizeRun(nodes) == RunReconciliation <==> !AllClear(nodes)
    ensures SummarizeRun(nodes) == RunFailed <==> AllClear(nodes) && SomeNode(nodes, Failed)
    ensures SummarizeRun(nodes) == RunCancelled <==> AllClear(nodes) && !SomeNode(nodes, Failed) && SomeNode(nodes, Cancelled)
    ensures SummarizeRun(nodes) == RunCompleted
      <==> nodes != map[] && forall n :: n in nodes ==> nodes[n].status == Completed && !nodes[n].unknownDelivery
    ensures SummarizeRun(nodes) == RunAccepted <==>
      && AllClear(nodes) && !SomeNode(nodes, Failed) && !SomeNode(nodes, Cancelled)
      && (nodes == map[] || SomeNode(nodes, Pending))
  {
    if nodes != map[] {
      assert nodes.Keys != {};
    } else {
      assert nodes.Keys == {};
    }
  }

  // ----- Submission ---------------------------------------------------------------------------

  /** A pending root, or the frozen link a retry leaves at the root of what it has to run again. */
  predicate SubmittableRoot(t: Tree, root: Node) {
    if root.link then t.run == Some(RunAccepted) && root.status == Completed && root.frozen else root.status == Pending
  }

  /** The run is available, or there is none yet and the nodes call for an available one. */
  predicate RunAvailable(t: Tree) {
    if t.run.Some? then t.run == Some(RunAccepted) else t.attempts == map[] && SummarizeRun(t.nodes) == RunAccepted
  }

  /**
   * A tree without a dispatch row gets one exactly when no lease on it is live, its root can be submitted, no node is in
   * progress or about to be cancelled, and its run is available; and then nothing but the row and the run changes.
   */
  lemma AcceptsExactly(t: Tree)
    requires t.dispatch.None? && t.root in t.nodes
    ensures Accept(t) == if Acceptable(t) then t.(run := Some(RunAccepted), dispatch := Some(Dispatch(DispatchAccepted, None, 0, 0))) else t
  {
  }

  predicate Acceptable(t: Tree)
    requires t.root in t.nodes
  {
    && (t.lease.Some? ==> t.now >= t.lease.value.expires) && SubmittableRoot(t, t.nodes[t.root]) && RunAvailable(t)
    && !SomeNode(t.nodes, InProgress) && forall n :: n in t.nodes ==> !t.nodes[n].cancelRequested
  }

  // ----- Dispatch rows --------------------------------------------------------------------------

  /** The holder of an unexpired active row. */
  predicate HoldsRow(t: Tree, token: nat) {
    && t.dispatch.Some?
    && var row := t.dispatch.value;
    row.owner == Some(token) && row.expires > t.now && row.state in {DispatchRunning, DispatchCancelRequested}
  }

  /** Only a waiting row is claimed, only its live holder extends it, and its holder alone takes it to its end. */
  lemma RowsMove(t: Tree, token: nat, reconcile: bool)
    requires t.dispatch.Some?
    ensures var row := t.dispatch.value;
      && ClaimDispatch(t, token).dispatch == (if row.state == DispatchAccepted
           then Some(Dispatch(DispatchRunning, Some(token), t.now + t.leaseSeconds, row.claims + 1)) else t.dispatch)
      && RenewDispatch(t, token).dispatch
           == (if HoldsRow(t, token) then Some(row.(expires := t.now + t.leaseSeconds)) else t.dispatch)
      && SettleDispatch(t, token, reconcile).dispatch == (if row.owner != Some(token) then t.dispatch
           else Some(row.(state := if reconcile then DispatchReconciliation else DispatchFinished, owner := None)))
  {
  }

  // ----- Leases -----------------------------------------------------------------------------------

  /** Work on the tree has begun. */
  predicate Begun(t: Tree) {
    t.attempts != map[] || exists n :: n in t.nodes && HasBegun(t.nodes[n])
  }

  predicate HasBegun(node: Node) {
    node.started || (!node.link && node.status != Pending)
  }

  /** The run a dropped lease leaves behind: available only if work has not begun, and never changed once terminal. */
  function RunAfterDrop(t: Tree): RunStatus {
    var present := if t.run.Some? then t.run.value else SummarizeRun(t.nodes);
    if !RecoveryOutcome.Live(Some(present)) then present else if Begun(t) then RunReconciliation else RunAccepted
  }

  lemma MarkingKeepsSummary(t: Tree)
    requires t.run.None?
    ensures RecoverRun(t).run == Some(SummarizeRun(t.nodes))
  {
    SummaryTells(t.nodes);
    SummaryTells(RecoverRun(t).nodes);
    var marked := RecoverRun(t).nodes;
    assert marked.Keys == t.nodes.Keys;
    assert forall n :: n in t.nodes ==> marked[n].status == t.nodes[n].status && (Unclear(marked[n]) <==> Unclear(t.nodes[n]));
    assert forall s :: SomeNode(marked, s) <==> SomeNode(t.nodes, s);
    assert AllClear(marked) <==> AllClear(t.nodes);
  }

  /** Dropping a lease: the lease is gone, no invocation stays running, and the run is as the tree calls for. */
  lemma DropTells(t: Tree)
    ensures var u := DropLease(t);
      && u.lease.None? && u.dispatch == t.dispatch && u.run == Some(RunAfterDrop(t))
      && RecoveryOutcome.Interrupted(t.attempts, u.attempts) && u.nodes.Keys == t.nodes.Keys
      && forall n :: n in t.nodes ==>
           u.nodes[n] == t.nodes[n].(unknownDelivery :=
             t.nodes[n].unknownDelivery || (t.run.None? && t.nodes[n].status == InProgress))
  {
    var released := t.(lease := None);
    if t.run.None? {
      MarkingKeepsSummary(released);
    }
    MarkingKeepsStart(released);
  }

  lemma MarkingKeepsStart(t: Tree)
    ensures StartedTree(RecoverRun(t)) <==> Begun(t)
  {
    var u := RecoverRun(t);
    assert forall n :: n in t.nodes ==> (NodeStarted(u.nodes[n]) <==> HasBegun(t.nodes[n]));
    if n :| n in t.nodes && HasBegun(t.nodes[n]) {
      assert NodeStarted(u.nodes[n]);
    }
  }

  /** No row stands in the way of a new lease, or an expired lease does whose work has not begun. */
  predicate Grantable(t: Tree) {
    && t.dispatch.None? && t.root in t.nodes && (t.run.None? || t.run == Some(RunAccepted))
    && (t.lease.Some? ==> t.lease.value.expires <= t.now && RunAfterDrop(t) == RunAccepted)
  }

  /** An expired lease goes when somebody else asks for an available tree, even where none is granted. */
  predicate Evicted(t: Tree) {
    t.dispatch.None? && t.root in t.nodes && (t.run.None? || t.run == Some(RunAccepted)) && LeaseExpired(t)
  }

  /** A lease is granted exactly then; an expired one that is in the way is dropped all the same, a live one stays. */
  lemma GrantsExactly(t: Tree, token: nat)
    requires token !in t.tokens && (t.lease.Some? ==> t.lease.value.token in t.tokens)
    ensures var u := AcquireLease(t, token);
      && u.lease == (if Grantable(t) then Some(Lease(token, t.now + t.leaseSeconds))
                     else if Evicted(t) then None else t.lease)
      && (t.lease.None? ==> u.nodes == t.nodes && u.attempts == t.attempts && u.run == t.run)
      && (u.lease != t.lease && t.lease.Some? ==>
            u.nodes == DropLease(t).nodes && u.attempts == DropLease(t).attempts && u.run == DropLease(t).run)
      && (t.lease.Some? && t.lease.value.expires > t.now ==> u == t)
  {
    DropTells(t);
  }

  // ----- Nodes ------------------------------------------------------------------------------------

  /** A dispatcher needs its live row, a worker its live lease and no dispatch row, local execution neither of the two. */
  predicate MayTouch(t: Tree, owner: Owner) {
    match owner
    case Dispatcher(token) => HoldsRow(t, token)
    case Worker(token) => t.dispatch.None? && LiveLease(t, Some(token))
    case Local(_) => (t.dispatch.None? || t.dispatch.value.state == DispatchFinished) && !LiveLease(t, None)
  }

  predicate LiveLease(t: Tree, token: Option<nat>) {
    t.lease.Some? && t.lease.value.expires > t.now && (token.Some? ==> token.value == t.lease.value.token)
  }

  lemma FenceMeans(t: Tree, owner: Owner)
    ensures Fence(t, owner) <==> MayTouch(t, owner)
  {
  }

  /** Pending, and neither a link nor frozen nor about to be cancelled. */
  predicate Claimable(node: Node) {
    node.status == Pending && !node.link && !node.frozen && !node.cancelRequested
  }

  /** The owner that started the run claims a claimable node of a run that is not terminal exactly when it may touch the tree. */
  lemma ClaimsExactly(t: Tree, owner: Owner, n: Id)
    requires owner in t.runners && t.runners[owner].startedRun && n in t.nodes
    ensures var u := ClaimNode(t, owner, n);
      if Claimable(t.nodes[n]) && (t.run.None? || RecoveryOutcome.Live(t.run)) && MayTouch(t, owner)
      then u.nodes == t.nodes[n := t.nodes[n].(status := InProgress, started := true)] && (n, owner) in u.claims
           && owner in u.runners && n in u.runners[owner].claimed
      else u == t
  {
    FenceMeans(t, owner);
  }

  /** A node in progress ends as its owner says, under the same conditions. */
  lemma EndsExactly(t: Tree, owner: Owner, n: Id, status: Status, unknown: bool)
    requires n in t.nodes && status != Pending && status != InProgress
    ensures FinishNode(t, owner, n, status, unknown).nodes
         == if t.nodes[n].status == InProgress && (t.run.None? || RecoveryOutcome.Live(t.run)) && MayTouch(t, owner)
            then t.nodes[n := t.nodes[n].(status := status, unknownDelivery := unknown)] else t.nodes
  {
    FenceMeans(t, owner);
  }

  /** The worker's final write needs its live lease, which it gives up; a root that has ended keeps its status. */
  lemma FinalizesExactly(t: Tree, token: nat, status: Status)
    requires t.root in t.nodes
    ensures var u := FinalizeTask(t, token, status);
      var root := t.nodes[t.root];
      if t.dispatch.None? && LiveLease(t, Some(token)) then
        && u.lease.None? && u.nodes.Keys == t.nodes.Keys && (forall n :: n in t.nodes && n != t.root ==> u.nodes[n] == t.nodes[n])
        && u.nodes[t.root] == (if root.status == Pending || root.status == InProgress
             then root.(status := if root.cancelRequested then Cancelled else status) else root)
      else u == t
  {
  }

  /** A run that is neither terminal nor missing ends once, at the word of whoever owns it. */
  lemma RunEndsExactly(t: Tree, owner: Owner, status: RunStatus)
    requires !RecoveryOutcome.Live(Some(status))
    ensures FinishRun(t, owner, status)
         == if RecoveryOutcome.Live(t.run) && OwnsRun(t, owner) then t.(run := Some(status)) else t
  {
  }
}
