/** The methods that write the ownership rows, proved against the transition system of Ownership. */
module ExecutionStore {
  import opened Prelude
  import opened Ownership
  import RecoveryOutcome

  datatype AcceptError = UnknownTask | TaskImmutable | NotSubmittable | RunNotExecutable

  /** The rows after f has been applied to those of some of the roots. */
  ghost function Updated(trees: map<Id, Tree>, some: set<Id>, f: Tree -> Tree): (after: map<Id, Tree>)
    ensures after.Keys == trees.Keys
  {
    map r | r in trees :: if r in some then f(trees[r]) else trees[r]
  }

  lemma UpdateOne(trees: map<Id, Tree>, some: set<Id>, f: Tree -> Tree, r: Id)
    requires r in trees && r !in some
    ensures Updated(trees, some, f)[r] == trees[r]
    ensures Updated(trees, some + {r}, f) == Updated(trees, some, f)[r := f(trees[r])]
  {
  }

  predicate Claimable(t: Tree) {
    t.dispatch.Some? && t.dispatch.value.state == DispatchAccepted
  }

  /** The rows after the claims of the first n selected roots, skipping those already running here. */
  function ClaimRows(trees: map<Id, Tree>, selected: seq<Id>, tokens: seq<nat>, taken: set<Id>, n: nat): (after: map<Id, Tree>)
    requires n <= |selected| == |tokens| && forall r :: r in selected ==> r in trees
    ensures after.Keys == trees.Keys
  {
    if n == 0 then trees
    else
      var before := ClaimRows(trees, selected, tokens, taken, n - 1);
      var r := selected[n - 1];
      if r in taken then before else before[r := ClaimDispatch(before[r], tokens[n - 1])]
  }

  /** With distinct roots, each claim applies to the row as it was before the poll. */
  lemma {:induction false} ClaimRowsAt(trees: map<Id, Tree>, selected: seq<Id>, tokens: seq<nat>, taken: set<Id>, n: nat, r: Id)
    requires n <= |selected| == |tokens| && forall s :: s in selected ==> s in trees
    requires forall i, j :: 0 <= i < j < |selected| ==> selected[i] != selected[j]
    requires r in trees
    ensures r !in selected[..n] || r in taken ==> ClaimRows(trees, selected, tokens, taken, n)[r] == trees[r]
    ensures forall i :: 0 <= i < n && selected[i] == r && r !in taken ==>
      ClaimRows(trees, selected, tokens, taken, n)[r] == ClaimDispatch(trees[r], tokens[i])
  {
    if n > 0 {
      ClaimRowsAt(trees, selected, tokens, taken, n - 1, r);
      assert selected[..n] == selected[..n - 1] + [selected[n - 1]];
      if r == selected[n - 1] {
        assert forall i :: 0 <= i < n - 1 ==> selected[i] != r;
      }
    }
  }

  /** This dispatcher's live executions after the same claims. */
  function Tracked(running: map<Id, nat>, selected: seq<Id>, tokens: seq<nat>, n: nat): (after: map<Id, nat>)
    requires n <= |selected| == |tokens|
    ensures forall r :: r in after <==> r in running || r in selected[..n]
    ensures |after| <= |running| + n
  {
    if n == 0 then running
    else
      var before := Tracked(running, selected, tokens, n - 1);
      var r := selected[n - 1];
      assert selected[..n] == selected[..n - 1] + [r];
      if r in running then before else before[r := tokens[n - 1]]
  }

  class Store {
    var trees: map<Id, Tree>    // the rows of each root task
    var running: map<Id, nat>   // this dispatcher's live executions: root to token

    ghost predicate Valid()
      reads this
    {
      forall r :: r in trees ==> trees[r].root == r && r in trees[r].nodes
    }

    constructor (trees: map<Id, Tree>)
      requires forall r :: r in trees ==> trees[r].root == r && r in trees[r].nodes
      ensures Valid() && this.trees == trees && running == map[]
    {
      this.trees := trees;
      running := map[];
    }

    // ----- Submission -----------------------------------------------------------------------

    /** The checks of a submission, in the order the source makes them. */
    method ValidateSubmissionRoot(t: Tree) returns (problem: Option<AcceptError>)
      requires t.root in t.nodes
      ensures problem.None? <==> Submittable(t)
    {
      if t.lease.Some? && t.lease.value.expires > t.now {
        return Some(TaskImmutable);
      }
      var root := t.nodes[t.root];
      var frozenRetryRoot := t.run == Some(RunAccepted) && root.status == Completed && root.link && root.frozen;
      if !frozenRetryRoot && (root.status != Pending || root.link) {
        return Some(NotSubmittable);
      }
      var rest := t.nodes.Keys;
      while rest != {}
        invariant rest <= t.nodes.Keys
        invariant forall n :: n in t.nodes.Keys - rest ==> t.nodes[n].status != InProgress && !t.nodes[n].cancelRequested
        decreases rest
      {
        var n :| n in rest;
        if t.nodes[n].status == InProgress || t.nodes[n].cancelRequested {
          return Some(TaskImmutable);
        }
        rest := rest - {n};
      }
      return None;
    }

    /** Accepting twice answers with the existing row; every error leaves the rows as they were. */
    method AcceptTask(root: Id) returns (r: Result<DispatchState, AcceptError>)
      requires Valid()
      modifies this`trees
      ensures Valid()
      ensures trees == (if root in old(trees) then old(trees)[root := Accept(old(trees)[root])] else old(trees))
      ensures r.Success? <==> root in trees && trees[root].dispatch.Some?
      ensures r.Success? ==> r.value == trees[root].dispatch.value.state
    {
      if root !in trees {
        return Failure(UnknownTask);
      }
      var t := trees[root];
      if t.dispatch.Some? {
        return Success(t.dispatch.value.state);
      }
      var problem := ValidateSubmissionRoot(t);
      if problem.Some? {
        return Failure(problem.value);
      }
      var status := if t.run.Some? then t.run.value else SummarizeRun(t.nodes);
      if t.run.None? && status == RunAccepted && t.attempts != map[] {
        status := RunReconciliation;
      }
      if status != RunAccepted {
        return Failure(RunNotExecutable);
      }
      trees := trees[root := t.(run := Some(status), dispatch := Some(Dispatch(DispatchAccepted, None, 0, 0)))];
      return Success(DispatchAccepted);
    }

    // ----- The dispatcher -------------------------------------------------------------------

    /** Scans the tree of an expired row for anything that may have happened. */
    method Judge(t: Tree) returns (verdict: DispatchState)
      ensures verdict == RecoveryVerdict(t)
      ensures verdict == DispatchFinished <==> RecoveryOutcome.AllCompleted(t)
      ensures verdict == DispatchAccepted <==> !RecoveryOutcome.AllCompleted(t) && RecoveryOutcome.Untouched(t)
    {
      RecoveryOutcome.VerdictTellsTheTree(t);
      var allCompleted, allUntouched, uncertain := true, true, t.attempts != map[];
      var rest := t.nodes.Keys;
      while rest != {}
        invariant rest <= t.nodes.Keys
        invariant allCompleted <==> forall n :: n in t.nodes.Keys - rest ==> t.nodes[n].status == Completed
        invariant allUntouched <==> forall n :: n in t.nodes.Keys - rest ==> t.nodes[n].status == Pending || t.nodes[n].link
        invariant uncertain <==> (t.attempts != map[] || exists n :: n in t.nodes.Keys - rest && MayHaveRun(t.nodes[n]))
        decreases rest
      {
        var n :| n in rest;
        var node := t.nodes[n];
        rest := rest - {n};
        allCompleted := allCompleted && node.status == Completed;
        allUntouched := allUntouched && (node.status == Pending || node.link);
        uncertain := uncertain || node.status == InProgress || node.unknownDelivery || node.started;
      }
      verdict := if allCompleted then DispatchFinished
        else if !uncertain && allUntouched then DispatchAccepted
        else DispatchReconciliation;
    }

    /** What the update of one expired row leaves behind. */
    method RecoverRow(t: Tree) returns (u: Tree)
      requires ExpiredRow(t)
      ensures u == RecoverNow(t) && u.root == t.root && u.nodes == t.nodes
      ensures RecoveryOutcome.Recovered(t, t, u)
    {
      RecoveryOutcome.RecoveryIsRight(t);
      var verdict := Judge(t);
      u := t.(dispatch := Some(t.dispatch.value.(state := verdict, owner := None)));
      if verdict == DispatchReconciliation {
        u := u.(attempts := Interrupt(u.attempts));
        if u.run.Some? && !TerminalRun(u.run.value) {
          u := u.(run := Some(RunReconciliation));
        }
      } else if verdict == DispatchAccepted {
        if u.run == Some(RunRunning) {
          u := u.(run := Some(RunAccepted));
        }
      } else {
        if u.run.Some? && !TerminalRun(u.run.value) {
          u := u.(run := Some(RunCompleted));
        }
      }
    }

    /** _recover: every expired row is recovered, every other row is left alone. */
    method RecoverExpired()
      requires Valid()
      modifies this`trees
      ensures Valid() && trees == map r | r in old(trees) :: RecoverNow(old(trees)[r])
      ensures forall r :: r in old(trees) ==>
        if ExpiredRow(old(trees)[r]) then RecoveryOutcome.Recovered(old(trees)[r], old(trees)[r], trees[r])
        else trees[r] == old(trees)[r]
    {
      var rows := set r | r in trees && ExpiredRow(trees[r]);
      ghost var all, before := rows, trees;
      assert Updated(before, {}, RecoverNow) == before;
      while rows != {}
        invariant rows <= all <= before.Keys
        invariant forall r :: r in all ==> ExpiredRow(before[r])
        invariant trees == Updated(before, all - rows, RecoverNow)
        decreases rows
      {
        var r :| r in rows;
        UpdateOne(before, all - rows, RecoverNow, r);
        assert all - (rows - {r}) == all - rows + {r};
        rows := rows - {r};
        var u := RecoverRow(trees[r]);
        trees := trees[r := u];
      }
      EveryExpiredRow(before, all);
      forall r | r in before && ExpiredRow(before[r]) ensures RecoveryOutcome.Recovered(before[r], before[r], trees[r]) {
        RecoveryOutcome.RecoveryIsRight(before[r]);
      }
    }

    static lemma EveryExpiredRow(before: map<Id, Tree>, all: set<Id>)
      requires all == set r | r in before && ExpiredRow(before[r])
      ensures Updated(before, all - {}, RecoverNow) == map r | r in before :: RecoverNow(before[r])
      ensures forall r :: r in before ==> RecoverNow(before[r]).root == before[r].root && RecoverNow(before[r]).nodes == before[r].nodes
    {
    }

    /**
     * The rest of a poll: claims accepted rows it is not running yet, within the free capacity and at
     * most 20 of them, each under a token of its own.
     */
    method ClaimAccepted(selected: seq<Id>, tokens: seq<nat>, maxConcurrent: nat)
      requires |tokens| == |selected|
      requires forall i, j :: 0 <= i < j < |selected| ==> selected[i] != selected[j]
      requires forall r :: r in selected ==> r in trees && Claimable(trees[r])
      requires |running| <= maxConcurrent && |selected| <= maxConcurrent - |running| && |selected| <= 20
      modifies this
      ensures trees == ClaimRows(old(trees), selected, tokens, old(running).Keys, |selected|)
      ensures running == Tracked(old(running), selected, tokens, |selected|) && |running| <= maxConcurrent
    {
      ghost var before := trees;
      ghost var taken := running;
      for i := 0 to |selected|
        invariant trees == ClaimRows(before, selected, tokens, taken.Keys, i)
        invariant running == Tracked(taken, selected, tokens, i)
      {
        var r := selected[i];
        assert r in selected && r !in selected[..i];
        if r !in running {
          ClaimRowsAt(before, selected, tokens, taken.Keys, i, r);
          ClaimRow(r, tokens[i]);
        }
      }
    }

    method ClaimRow(root: Id, token: nat)
      requires root in trees && Claimable(trees[root])
      modifies this
      ensures trees == old(trees)[root := ClaimDispatch(old(trees)[root], token)]
      ensures running == old(running)[root := token]
    {
      var t := trees[root];
      var row := t.dispatch.value;
      row := row.(state := DispatchRunning, owner := Some(token), claims := row.claims + 1);
      row := row.(expires := t.now + t.leaseSeconds);
      t := t.(dispatch := Some(row));
      t := t.(runners := t.runners[Dispatcher(token) := Runner(false, {})]);
      t := t.(tokens := t.tokens + {token});
      trees := trees[root := t];
      running := running[root := token];
    }

    // ----- The lease manager ----------------------------------------------------------------

    /** _recover_run followed by _reconcile_run, on a tree whose lease was just deleted. */
    method Relinquish(t: Tree) returns (u: Tree, reconcile: bool)
      ensures u == DropLease(t)
      ensures reconcile <==> u.run == Some(RunReconciliation)
    {
      u := t.(lease := None);
      if u.run.None? {
        var marked := map n | n in u.nodes ::
          if u.nodes[n].status == InProgress then u.nodes[n].(unknownDelivery := true) else u.nodes[n];
        u := u.(nodes := marked);
        u := u.(run := Some(SummarizeRun(marked)));
      }
      var started := u.attempts != map[];
      var rest := u.nodes.Keys;
      while rest != {} && !started
        invariant rest <= u.nodes.Keys
        invariant started <==> (u.attempts != map[] || exists n :: n in u.nodes.Keys - rest && NodeStarted(u.nodes[n]))
        decreases rest
      {
        var n :| n in rest;
        rest := rest - {n};
        started := u.nodes[n].started || (u.nodes[n].status != Pending && !u.nodes[n].link);
      }
      assert started <==> StartedTree(u);
      if !TerminalRun(u.run.value) {
        u := u.(run := Some(if started then RunReconciliation else RunAccepted));
      }
      u := u.(attempts := Interrupt(u.attempts));
      reconcile := u.run == Some(RunReconciliation);
    }

    method AcquireLease(root: Id, token: nat) returns (lease: Option<Lease>)
      requires Valid()
      modifies this`trees
      ensures Valid()
      ensures trees == (if root in old(trees) then old(trees)[root := Ownership.AcquireLease(old(trees)[root], token)] else old(trees))
      ensures lease.Some? ==> root in trees && trees[root].lease == lease && lease.value.token == token
      ensures lease.None? && root in trees && trees[root].lease.Some? ==> trees[root].lease == old(trees)[root].lease
      ensures lease.Some? ==> trees[root].dispatch.None? && (trees[root].run.None? || trees[root].run == Some(RunAccepted))
    {
      if root !in trees {
        return None;
      }
      var t := trees[root];
      if t.dispatch.Some? || (t.run.Some? && t.run != Some(RunAccepted)) {
        return None;
      }
      if t.lease.Some? && t.lease.value.expires <= t.now {
        var reconcile: bool;
        t, reconcile := Relinquish(t);
        if t.run != Some(RunAccepted) {
          trees := trees[root := t];
          return None;
        }
      }
      if t.lease.Some? {
        return None;
      }
      var granted := Lease(token, t.now + t.leaseSeconds);
      trees := trees[root := t.(lease := Some(granted), runners := t.runners[Worker(token) := Runner(false, {})],
                                tokens := t.tokens + {token})];
      return Some(granted);
    }

    /** The janitor: every expired lease goes, and the roots left for reconciliation are reported. */
    method CleanupExpiredLeases() returns (cleaned: set<Id>)
      requires Valid()
      modifies this`trees
      ensures Valid() && trees == map r | r in old(trees) :: CleanupLease(old(trees)[r])
      ensures forall r :: r in cleaned <==>
        r in old(trees) && LeaseExpired(old(trees)[r]) && CleanupLease(old(trees)[r]).run == Some(RunReconciliation)
    {
      cleaned := {};
      var leases := set r | r in trees && LeaseExpired(trees[r]);
      ghost var all, before := leases, trees;
      assert Updated(before, {}, CleanupLease) == before;
      while leases != {}
        invariant leases <= all <= before.Keys
        invariant forall r :: r in all ==> LeaseExpired(before[r])
        invariant trees == Updated(before, all - leases, CleanupLease)
        invariant forall r :: r in cleaned <==> r in all - leases && CleanupLease(before[r]).run == Some(RunReconciliation)
        decreases leases
      {
        var r :| r in leases;
        UpdateOne(before, all - leases, CleanupLease, r);
        assert all - (leases - {r}) == all - leases + {r};
        leases := leases - {r};
        var u, reconcile := Relinquish(trees[r]);
        trees := trees[r := u];
        if reconcile {
          cleaned := cleaned + {r};
        }
      }
      EveryExpiredLease(before, all);
    }

    static lemma EveryExpiredLease(before: map<Id, Tree>, all: set<Id>)
      requires all == set r | r in before && LeaseExpired(before[r])
      ensures Updated(before, all - {}, CleanupLease) == map r | r in before :: CleanupLease(before[r])
      ensures forall r :: r in before ==>
        CleanupLease(before[r]).root == before[r].root && CleanupLease(before[r]).nodes.Keys == before[r].nodes.Keys
    {
    }

    method RecoverLease(root: Id, token: nat) returns (released: bool)
      requires Valid()
      modifies this`trees
      ensures Valid()
      ensures trees == (if root in old(trees) then old(trees)[root := Ownership.RecoverLease(old(trees)[root], token)] else old(trees))
      ensures released <==> root in old(trees) && HoldsLease(old(trees)[root], token)
    {
      if root !in trees || trees[root].lease.None? || trees[root].lease.value.token != token || trees[root].dispatch.Some? {
        return false;
      }
      var u, _ := Relinquish(trees[root]);
      trees := trees[root := u];
      return true;
    }

    /** A status is written only by the holder of the live lease, and never over a terminal one. */
    method FinalizeTask(root: Id, token: nat, status: Status) returns (written: bool)
      requires Valid()
      modifies this`trees
      ensures Valid()
      ensures trees == (if root in old(trees) then old(trees)[root := Ownership.FinalizeTask(old(trees)[root], token, status)] else old(trees))
      ensures root in old(trees) && root in trees && trees[root].nodes != old(trees)[root].nodes ==>
        && old(trees)[root].dispatch.None? && old(trees)[root].lease.Some? && old(trees)[root].lease.value.token == token
        && old(trees)[root].lease.value.expires > old(trees)[root].now
        && !TerminalStatus(old(trees)[root].nodes[root].status)
        && trees[root].nodes[root].status in {status, Cancelled}
      ensures written ==> root in trees && trees[root].nodes[root].status == status
    {
      if root !in trees {
        return false;
      }
      var t := trees[root];
      if t.lease.None? || t.lease.value.token != token || t.lease.value.expires <= t.now || t.dispatch.Some? {
        return false;
      }
      t := t.(lease := None);
      t := t.(runners := t.runners - {Worker(token)});
      var task := t.nodes[root];
      if !TerminalStatus(task.status) {
        task := task.(status := if task.cancelRequested then Cancelled else status);
        t := t.(nodes := t.nodes[root := task]);
      }
      trees := trees[root := t];
      return task.status == status;
    }

    // ----- Runs -----------------------------------------------------------------------------

    /** start_run: the record is ensured first, and only its conditional update claims the run. */
    method StartRun(root: Id, owner: Owner) returns (started: bool)
      requires Valid() && root in trees && owner in trees[root].runners
      modifies this`trees
      ensures Valid()
      ensures trees == old(trees)[root := Ownership.StartRun(old(trees)[root], owner)]
      ensures started <==>
        (&& old(trees)[root].attempts == map[] && OwnsRun(old(trees)[root], owner)
         && EnsureRun(old(trees)[root]).run == Some(RunAccepted))
      ensures started ==> trees[root].run == Some(RunRunning)
    {
      var t := trees[root];
      if t.run.None? {
        var status := SummarizeRun(t.nodes);
        if status == RunAccepted && t.attempts != map[] {
          status := RunReconciliation;
        }
        t := t.(run := Some(status));
      }
      started := false;
      if t.run == Some(RunAccepted) {
        if t.attempts != map[] {
          if OwnsRun(t, owner) {
            t := t.(run := Some(RunReconciliation));
          }
        } else if OwnsRun(t, owner) {
          t := t.(run := Some(RunRunning));
          t := t.(runners := t.runners[owner := t.runners[owner].(startedRun := true)]);
          started := true;
        }
      }
      trees := trees[root := t];
    }

    /** The compare-and-swap every invocation must win first. */
    method ClaimNode(root: Id, owner: Owner, node: Id) returns (claimed: bool)
      requires Valid() && root in trees && owner in trees[root].runners && trees[root].runners[owner].startedRun
      modifies this`trees
      ensures Valid()
      ensures trees == old(trees)[root := Ownership.ClaimNode(old(trees)[root], owner, node)]
      ensures claimed ==>
        (&& Fence(old(trees)[root], owner) && node in trees[root].nodes
         && old(trees)[root].nodes[node].status == Pending && trees[root].nodes[node].status == InProgress)
    {
      var t := trees[root];
      if node !in t.nodes || !Fence(t, owner) || !WritableRun(t) {
        return false;
      }
      var row := t.nodes[node];
      if row.status != Pending || row.link || row.frozen || row.cancelRequested {
        return false;
      }
      var mine := t.runners[owner];
      mine := mine.(claimed := mine.claimed + {node});
      row := row.(status := InProgress);
      row := row.(started := true);
      t := t.(nodes := t.nodes[node := row], runners := t.runners[owner := mine], claims := t.claims + {(node, owner)});
      assert (node, owner) in t.claims;
      trees := trees[root := t];
      return true;
    }
  }
}
