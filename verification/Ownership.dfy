/**
 * Who may execute a task tree: the durable dispatch row, the worker lease, and the run lifecycle that
 * both of them and local execution write. One value of Tree holds the rows of one root task; every
 * statement of the source is keyed by the root, so trees evolve independently.
 */
module Ownership {
  import opened Prelude

  datatype Owner = Dispatcher(token: nat) | Worker(token: nat) | Local(token: nat)

  datatype RunStatus = RunAccepted | RunRunning | RunCompleted | RunFailed | RunCancelled | RunReconciliation

  predicate TerminalRun(status: RunStatus) {
    status != RunAccepted && status != RunRunning
  }

  datatype Node = Node(
    status: Status,
    started: bool,            // started_at is set
    unknownDelivery: bool,    // error_info says the delivery state is unknown
    link: bool,               // origin_type is link
    frozen: bool,             // result_snapshot_hash is set
    cancelRequested: bool)

  datatype DispatchState =
    DispatchAccepted | DispatchRunning | DispatchCancelRequested | DispatchReconciliation | DispatchFinished

  datatype Dispatch = Dispatch(state: DispatchState, owner: Option<nat>, expires: int, claims: nat)

  predicate ActiveDispatch(row: Dispatch) {
    row.state == DispatchRunning || row.state == DispatchCancelRequested
  }

  datatype Lease = Lease(token: nat, expires: int)

  datatype AttemptStatus = AttemptRunning | AttemptCompleted | AttemptFailed | AttemptCancelled | AttemptUnknown

  /** The owner is not a column: it records which runner inserted the row. */
  datatype Attempt = Attempt(node: Id, status: AttemptStatus, owner: Owner)

  /** Process-local state of one execution: whether it started the run, and the nodes it claimed. */
  datatype Runner = Runner(startedRun: bool, claimed: set<Id>)

  /** A dispatcher's recovery pass: the expired row it read, then the verdict on the tree it read later. */
  datatype Recovery = Recovery(owner: Option<nat>, readAt: int, verdict: Option<DispatchState>)

  datatype Tree = Tree(
    root: Id,
    now: int,
    leaseSeconds: nat,
    nodes: map<Id, Node>,
    dispatch: Option<Dispatch>,
    lease: Option<Lease>,
    run: Option<RunStatus>,
    attempts: map<nat, Attempt>,
    runners: map<Owner, Runner>,
    recoveries: map<nat, Recovery>,
    tokens: set<nat>,                 // every token issued so far
    claims: set<(Id, Owner)>)         // history: which owner moved which node to in_progress

  // ----- Runs -------------------------------------------------------------------------------

  function SummarizeRun(nodes: map<Id, Node>): RunStatus {
    if exists n :: n in nodes && nodes[n].unknownDelivery then RunReconciliation
    else if exists n :: n in nodes && nodes[n].status == Pending && nodes[n].started then RunReconciliation
    else if exists n :: n in nodes && nodes[n].status == InProgress then RunReconciliation
    else if exists n :: n in nodes && nodes[n].status == Failed then RunFailed
    else if exists n :: n in nodes && nodes[n].status == Cancelled then RunCancelled
    else if nodes.Keys != {} && forall n :: n in nodes ==> nodes[n].status == Completed then RunCompleted
    else RunAccepted
  }

  /** ensure_run: create the record once; a tree with invocations never gets an accepted one. */
  function EnsureRun(t: Tree): Tree {
    if t.run.Some? then t
    else
      var summary := SummarizeRun(t.nodes);
      t.(run := Some(if summary == RunAccepted && t.attempts != map[] then RunReconciliation else summary))
  }

  /** The ownership conditions of run updates; local execution has none. */
  predicate OwnsRun(t: Tree, owner: Owner) {
    match owner
    case Dispatcher(token) => t.dispatch.Some? && t.dispatch.value.owner == Some(token) && t.dispatch.value.expires > t.now
    case Worker(token) => t.lease.Some? && t.lease.value.token == token && t.lease.value.expires > t.now
    case Local(_) => true
  }

  /** The fence on every node transition. */
  predicate Fence(t: Tree, owner: Owner) {
    match owner
    case Dispatcher(token) =>
      && t.dispatch.Some? && t.dispatch.value.owner == Some(token)
      && ActiveDispatch(t.dispatch.value) && t.dispatch.value.expires > t.now
    case Worker(token) =>
      && t.lease.Some? && t.lease.value.token == token && t.lease.value.expires > t.now
      && t.dispatch.None?
    case Local(_) =>
      && (t.dispatch.Some? ==> t.dispatch.value.state == DispatchFinished)
      && (t.lease.Some? ==> t.lease.value.expires <= t.now)
  }

  function FinishRun(t: Tree, owner: Owner, status: RunStatus): Tree {
    if t.run.Some? && !TerminalRun(t.run.value) && TerminalRun(status) && OwnsRun(t, owner)
    then t.(run := Some(status)) else t
  }

  /** start_run: claim an accepted run whose tree has no invocation yet. */
  function StartRun(t: Tree, owner: Owner): Tree {
    if owner !in t.runners then t
    else
      var ensured := EnsureRun(t);
      if ensured.run != Some(RunAccepted) then ensured
      else if ensured.attempts != map[] then FinishRun(ensured, owner, RunReconciliation)
      else if !OwnsRun(ensured, owner) then ensured
      else ensured.(run := Some(RunRunning),
                    runners := ensured.runners[owner := ensured.runners[owner].(startedRun := true)])
  }

  // ----- Durable dispatch -------------------------------------------------------------------

  predicate Submittable(t: Tree) {
    && (t.lease.Some? ==> t.lease.value.expires <= t.now)
    && t.root in t.nodes
    && (var root := t.nodes[t.root];
        || (t.run == Some(RunAccepted) && root.status == Completed && root.link && root.frozen)
        || (root.status == Pending && !root.link))
    && (forall n :: n in t.nodes ==> t.nodes[n].status != InProgress && !t.nodes[n].cancelRequested)
  }

  /** accept_task: one row per root, and only for an accepted run. */
  function Accept(t: Tree): Tree {
    if t.dispatch.Some? || !Submittable(t) then t
    else
      var ensured := EnsureRun(t);
      if ensured.run != Some(RunAccepted) then t
      else ensured.(dispatch := Some(Dispatch(DispatchAccepted, None, 0, 0)))
  }

  /** The claiming update of a dispatch poll. */
  function ClaimDispatch(t: Tree, token: nat): Tree {
    if t.dispatch.Some? && t.dispatch.value.state == DispatchAccepted then
      t.(dispatch := Some(Dispatch(DispatchRunning, Some(token), t.now + t.leaseSeconds, t.dispatch.value.claims + 1)),
         runners := t.runners[Dispatcher(token) := Runner(false, {})],
         tokens := t.tokens + {token})
    else t
  }

  function RenewDispatch(t: Tree, token: nat): Tree {
    if t.dispatch.Some? && t.dispatch.value.owner == Some(token) && ActiveDispatch(t.dispatch.value)
       && t.dispatch.value.expires > t.now
    then t.(dispatch := Some(t.dispatch.value.(expires := t.now + t.leaseSeconds)))
    else t
  }

  predicate MayHaveRun(node: Node) {
    node.status == InProgress || node.unknownDelivery || node.started
  }

  /** Something in the tree may have had an external effect. */
  predicate Uncertain(t: Tree) {
    || t.attempts != map[]
    || exists n :: n in t.nodes && MayHaveRun(t.nodes[n])
  }

  function RecoveryVerdict(t: Tree): DispatchState {
    if forall n :: n in t.nodes ==> t.nodes[n].status == Completed then DispatchFinished
    else if !Uncertain(t) && forall n :: n in t.nodes ==> t.nodes[n].status == Pending || t.nodes[n].link
      then DispatchAccepted
    else DispatchReconciliation
  }

  /** A recovery pass selects an expired row, ... */
  function ReadRow(t: Tree, pass: nat): Tree {
    if ExpiredRow(t)
    then t.(recoveries := t.recoveries[pass := Recovery(t.dispatch.value.owner, t.now, None)])
    else t
  }

  /** ... later reads its tree, ... */
  function ReadTree(t: Tree, pass: nat): Tree {
    if pass in t.recoveries && t.recoveries[pass].verdict.None?
    then t.(recoveries := t.recoveries[pass := t.recoveries[pass].(verdict := Some(RecoveryVerdict(t)))])
    else t
  }

  function Interrupt(attempts: map<nat, Attempt>): map<nat, Attempt> {
    map id | id in attempts ::
      if attempts[id].status == AttemptRunning then attempts[id].(status := AttemptUnknown) else attempts[id]
  }

  /** The row still carries the token that was read, and its lease had expired when the pass began. */
  predicate Applicable(t: Tree, rec: Recovery) {
    && t.dispatch.Some? && rec.owner.Some? && t.dispatch.value.owner == rec.owner
    && t.dispatch.value.expires < rec.readAt
  }

  /** The row takes the verdict and loses its owner, and the run is settled to match. */
  function ApplyVerdict(t: Tree, verdict: DispatchState): Tree
    requires t.dispatch.Some?
  {
    var moved := t.(dispatch := Some(t.dispatch.value.(state := verdict, owner := None)));
    match verdict
    case DispatchReconciliation =>
      moved.(attempts := Interrupt(t.attempts),
             run := if t.run.Some? && !TerminalRun(t.run.value) then Some(RunReconciliation) else t.run)
    case DispatchAccepted =>
      moved.(run := if t.run == Some(RunRunning) then Some(RunAccepted) else t.run)
    case DispatchFinished =>
      moved.(run := if t.run.Some? && !TerminalRun(t.run.value) then Some(RunCompleted) else t.run)
    case _ => moved
  }

  /** ... and last of all updates the row under a guard. */
  function WriteRecovery(t: Tree, pass: nat): Tree {
    if pass !in t.recoveries || t.recoveries[pass].verdict.None? then t
    else
      var rec := t.recoveries[pass];
      var rest := t.(recoveries := t.recoveries - {pass});
      if Applicable(t, rec) then ApplyVerdict(rest, rec.verdict.value) else rest
  }

  predicate ExpiredRow(t: Tree) {
    t.dispatch.Some? && ActiveDispatch(t.dispatch.value) && t.dispatch.value.expires < t.now
  }

  /** A recovery nothing interrupts. */
  function RecoverNow(t: Tree): Tree {
    if ExpiredRow(t) then ApplyVerdict(t, RecoveryVerdict(t)) else t
  }

  lemma RecoverNowIsThreeSteps(t: Tree, pass: nat)
    requires DispatchRow(t) && pass !in t.recoveries
    ensures RecoverNow(t) == WriteRecovery(ReadTree(ReadRow(t, pass), pass), pass)
  {
    if ExpiredRow(t) {
      var read := ReadTree(ReadRow(t, pass), pass);
      assert RecoveryVerdict(ReadRow(t, pass)) == RecoveryVerdict(t);
      assert read.recoveries - {pass} == t.recoveries;
      assert read.(recoveries := read.recoveries - {pass}) == t;
    }
  }

  /** The last update of a dispatched execution checks the token only. */
  function SettleDispatch(t: Tree, token: nat, reconcile: bool): Tree {
    var quit := t.(runners := t.runners - {Dispatcher(token)});
    if t.dispatch.Some? && t.dispatch.value.owner == Some(token)
    then quit.(dispatch := Some(t.dispatch.value.(
           state := if reconcile then DispatchReconciliation else DispatchFinished, owner := None)))
    else quit
  }

  // ----- Worker leases ----------------------------------------------------------------------

  /** _recover_run: enroll a legacy tree, marking interrupted nodes unknown. */
  function RecoverRun(t: Tree): Tree {
    if t.run.Some? then t
    else
      var marked := map n | n in t.nodes ::
        if t.nodes[n].status == InProgress then t.nodes[n].(unknownDelivery := true) else t.nodes[n];
      t.(nodes := marked, run := Some(SummarizeRun(marked)))
  }

  predicate NodeStarted(node: Node) {
    node.started || (node.status != Pending && !node.link)
  }

  predicate StartedTree(t: Tree) {
    || t.attempts != map[]
    || exists n :: n in t.nodes && NodeStarted(t.nodes[n])
  }

  /** _reconcile_run: a started run is held for reconciliation, an unstarted one becomes available. */
  function ReconcileRun(t: Tree): Tree {
    var run := if t.run.Some? && !TerminalRun(t.run.value)
      then Some(if StartedTree(t) then RunReconciliation else RunAccepted) else t.run;
    t.(run := run, attempts := Interrupt(t.attempts))
  }

  function DropLease(t: Tree): Tree {
    ReconcileRun(RecoverRun(t.(lease := None)))
  }

  predicate LeaseExpired(t: Tree) {
    t.lease.Some? && t.lease.value.expires <= t.now
  }

  /** acquire_lease: an expired owner is recovered first, and expiry never authorizes a replay. */
  function AcquireLease(t: Tree, token: nat): Tree {
    if t.root !in t.nodes || t.dispatch.Some? || (t.run.Some? && t.run != Some(RunAccepted)) then t
    else
      var free := if LeaseExpired(t) then DropLease(t) else t;
      if LeaseExpired(t) && free.run != Some(RunAccepted) then free
      else if free.lease.Some? then t
      else free.(lease := Some(Lease(token, t.now + t.leaseSeconds)),
                 runners := free.runners[Worker(token) := Runner(false, {})],
                 tokens := free.tokens + {token})
  }

  function RenewLease(t: Tree, token: nat): Tree {
    if t.lease.Some? && t.lease.value.token == token && t.lease.value.expires > t.now
    then t.(lease := Some(Lease(token, t.now + t.leaseSeconds))) else t
  }

  function ReleaseLease(t: Tree, token: nat): Tree {
    if t.lease.Some? && t.lease.value.token == token then t.(lease := None) else t
  }

  /** One iteration of the janitor; unlike RecoverLease it does not look at the dispatch row. */
  function CleanupLease(t: Tree): Tree {
    if LeaseExpired(t) then DropLease(t) else t
  }

  function RecoverLease(t: Tree, token: nat): Tree {
    if t.lease.Some? && t.lease.value.token == token && t.dispatch.None? then DropLease(t) else t
  }

  predicate TerminalStatus(status: Status) {
    status == Completed || status == Failed || status == Cancelled
  }

  /** _finalize_task: the status write is gated on deleting the live lease. */
  function FinalizeTask(t: Tree, token: nat, status: Status): Tree {
    if t.lease.Some? && t.lease.value.token == token && t.lease.value.expires > t.now && t.dispatch.None? then
      var released := t.(lease := None, runners := t.runners - {Worker(token)});
      if t.root in t.nodes && !TerminalStatus(t.nodes[t.root].status)
      then released.(nodes := t.nodes[t.root := t.nodes[t.root].(
             status := if t.nodes[t.root].cancelRequested then Cancelled else status)])
      else released
    else t
  }

  // ----- Executing nodes --------------------------------------------------------------------

  function EnterLocally(t: Tree, token: nat): Tree {
    if Fence(t, Local(token))
    then t.(runners := t.runners[Local(token) := Runner(false, {})], tokens := t.tokens + {token})
    else t
  }

  predicate WritableRun(t: Tree) {
    t.run.Some? ==> !TerminalRun(t.run.value)
  }

  /** try_claim_for_execution: the compare-and-swap that precedes every invocation. */
  function ClaimNode(t: Tree, owner: Owner, n: Id): Tree {
    if owner in t.runners && t.runners[owner].startedRun && n in t.nodes
       && t.nodes[n].status == Pending && !t.nodes[n].link && !t.nodes[n].frozen && !t.nodes[n].cancelRequested
       && WritableRun(t) && Fence(t, owner)
    then t.(nodes := t.nodes[n := t.nodes[n].(status := InProgress, started := true)],
            runners := t.runners[owner := t.runners[owner].(claimed := t.runners[owner].claimed + {n})],
            claims := t.claims + {(n, owner)})
    else t
  }

  /** Starting the invocation of a claimed node is not fenced again. */
  function StartAttempt(t: Tree, owner: Owner, n: Id, id: nat): Tree {
    if owner in t.runners && n in t.runners[owner].claimed && id !in t.attempts
    then t.(attempts := t.attempts[id := Attempt(n, AttemptRunning, owner)])
    else t
  }

  function FinishAttempt(t: Tree, id: nat, status: AttemptStatus): Tree {
    if id in t.attempts && t.attempts[id].status == AttemptRunning
    then t.(attempts := t.attempts[id := t.attempts[id].(status := status)])
    else t
  }

  /** A fenced transition of a claimed node to a terminal status. */
  function FinishNode(t: Tree, owner: Owner, n: Id, status: Status, unknown: bool): Tree {
    if n in t.nodes && t.nodes[n].status == InProgress && TerminalStatus(status) && WritableRun(t) && Fence(t, owner)
    then t.(nodes := t.nodes[n := t.nodes[n].(status := status, unknownDelivery := unknown)])
    else t
  }

  function RequestCancellation(t: Tree, n: Id): Tree {
    if n in t.nodes && (t.nodes[n].status == Pending || t.nodes[n].status == InProgress) && !t.nodes[n].frozen && WritableRun(t)
    then t.(nodes := t.nodes[n := t.nodes[n].(cancelRequested := true)])
    else t
  }

  // ----- The transition system --------------------------------------------------------------

  datatype Action =
    | ATick(seconds: nat)
    | AAccept
    | AClaimDispatch(token: nat)
    | ARenewDispatch(token: nat)
    | AReadRow(pass: nat)
    | AReadTree(pass: nat)
    | AWriteRecovery(pass: nat)
    | ASettleDispatch(token: nat, reconcile: bool)
    | AAcquireLease(token: nat)
    | ARenewLease(token: nat)
    | AReleaseLease(token: nat)
    | ACleanupLease
    | ARecoverLease(token: nat)
    | AFinalizeTask(token: nat, status: Status)
    | AEnterLocally(token: nat)
    | AStartRun(owner: Owner)
    | AFinishRun(owner: Owner, runStatus: RunStatus)
    | AClaimNode(owner: Owner, node: Id)
    | AStartAttempt(owner: Owner, node: Id, id: nat)
    | AFinishAttempt(id: nat, attemptStatus: AttemptStatus)
    | AFinishNode(owner: Owner, node: Id, status: Status, unknown: bool)
    | ARequestCancellation(node: Id)
    | ACrash(owner: Owner)

  /** Tokens are fresh uuid4 values. */
  predicate Legal(t: Tree, a: Action) {
    match a
    case AClaimDispatch(token) => token !in t.tokens
    case AAcquireLease(token) => token !in t.tokens
    case AEnterLocally(token) => token !in t.tokens
    case _ => true
  }

  function Step(t: Tree, a: Action): Tree {
    match a
    case ATick(seconds) => t.(now := t.now + seconds)
    case AAccept => Accept(t)
    case AClaimDispatch(token) => ClaimDispatch(t, token)
    case ARenewDispatch(token) => RenewDispatch(t, token)
    case AReadRow(pass) => ReadRow(t, pass)
    case AReadTree(pass) => ReadTree(t, pass)
    case AWriteRecovery(pass) => WriteRecovery(t, pass)
    case ASettleDispatch(token, reconcile) => SettleDispatch(t, token, reconcile)
    case AAcquireLease(token) => AcquireLease(t, token)
    case ARenewLease(token) => RenewLease(t, token)
    case AReleaseLease(token) => ReleaseLease(t, token)
    case ACleanupLease => CleanupLease(t)
    case ARecoverLease(token) => RecoverLease(t, token)
    case AFinalizeTask(token, status) => FinalizeTask(t, token, status)
    case AEnterLocally(token) => EnterLocally(t, token)
    case AStartRun(owner) => StartRun(t, owner)
    case AFinishRun(owner, status) => FinishRun(t, owner, status)
    case AClaimNode(owner, n) => ClaimNode(t, owner, n)
    case AStartAttempt(owner, n, id) => StartAttempt(t, owner, n, id)
    case AFinishAttempt(id, status) => FinishAttempt(t, id, status)
    case AFinishNode(owner, n, status, unknown) => FinishNode(t, owner, n, status, unknown)
    case ARequestCancellation(n) => RequestCancellation(t, n)
    case ACrash(owner) => t.(runners := t.runners - {owner})
  }

  /** A submitted tree nobody has touched: no rows but the task rows, nothing started. */
  ghost predicate Initial(t: Tree) {
    && t.root in t.nodes && t.dispatch.None? && t.lease.None? && t.run.None?
    && t.attempts == map[] && t.runners == map[] && t.recoveries == map[] && t.tokens == {} && t.claims == {}
  }

  /** A run of the system: every step legal, in any interleaving. */
  ghost predicate Reaches(t: Tree, actions: seq<Action>, u: Tree)
    decreases |actions|
  {
    if actions == [] then u == t
    else Legal(t, actions[0]) && Reaches(Step(t, actions[0]), actions[1..], u)
  }

  // ----- The invariant ----------------------------------------------------------------------

  /** Bookkeeping: history, runners and tokens agree. */
  ghost predicate Bookkeeping(t: Tree) {
    && (forall c :: c in t.claims ==> c.0 in t.nodes && t.nodes[c.0].started && c.1.token in t.tokens)
    && (forall o :: o in t.runners ==> o.token in t.tokens)
    && (forall o, n :: o in t.runners && n in t.runners[o].claimed ==> (n, o) in t.claims)
    && (forall id :: id in t.attempts ==> (t.attempts[id].node, t.attempts[id].owner) in t.claims)
    && (t.dispatch.Some? && t.dispatch.value.owner.Some? ==> t.dispatch.value.owner.value in t.tokens)
    && (t.lease.Some? ==> t.lease.value.token in t.tokens)
  }

  /** The dispatch row: an owner exactly while active, and no live lease beside it. */
  ghost predicate DispatchRow(t: Tree) {
    t.dispatch.Some? ==>
      && (t.dispatch.value.owner.Some? <==> ActiveDispatch(t.dispatch.value))
      && (t.lease.Some? ==> t.lease.value.expires <= t.now)
  }

  /** A claim under the row pins its token until the row reaches a final state. */
  ghost predicate DispatchClaims(t: Tree) {
    forall c :: c in t.claims && c.1.Dispatcher? ==>
      && t.dispatch.Some?
      && (|| t.dispatch.value.owner == Some(c.1.token)
          || t.dispatch.value.state == DispatchFinished || t.dispatch.value.state == DispatchReconciliation)
  }

  /** A claim under a lease rules out the dispatch row, every other lease, and an available run. */
  ghost predicate WorkerClaims(t: Tree) {
    forall c :: c in t.claims && c.1.Worker? ==>
      && t.dispatch.None?
      && (t.lease.Some? ==> t.lease.value.token == c.1.token)
      && t.run.Some? && t.run.value != RunAccepted
  }

  predicate HoldsLease(t: Tree, token: nat) {
    t.dispatch.None? && t.lease.Some? && t.lease.value.token == token
  }

  /** While a worker that started the run still holds the lease, the run is not available. */
  ghost predicate WorkerRun(t: Tree) {
    forall o :: o in t.runners && o.Worker? && t.runners[o].startedRun && HoldsLease(t, o.token)
      ==> t.run.Some? && t.run.value != RunAccepted
  }

  /** A pending recovery that would still reopen the row has seen an untouched tree. */
  ghost predicate PendingRecoveries(t: Tree) {
    forall p :: p in t.recoveries ==>
      && t.recoveries[p].readAt <= t.now
      && (t.recoveries[p].owner.Some? ==> t.recoveries[p].owner.value in t.tokens)
      && t.recoveries[p].verdict in {None, Some(DispatchAccepted), Some(DispatchFinished), Some(DispatchReconciliation)}
      && (t.recoveries[p].verdict == Some(DispatchAccepted) && Applicable(t, t.recoveries[p]) ==> t.claims == {})
  }

  /** The owners that leave a durable trace never mix on one tree. */
  ghost predicate SingleOwner(t: Tree) {
    forall c, d :: c in t.claims && d in t.claims && !c.1.Local? && !d.1.Local? ==> c.1 == d.1
  }

  ghost predicate Inv(t: Tree) {
    && t.root in t.nodes && Bookkeeping(t) && DispatchRow(t) && DispatchClaims(t) && WorkerClaims(t)
    && WorkerRun(t) && PendingRecoveries(t) && SingleOwner(t)
  }

  // ----- Every operation keeps the invariant ------------------------------------------------

  lemma EnsureRunKeepsInv(t: Tree)
    requires Inv(t)
    ensures Inv(EnsureRun(t))
  {
  }

  lemma AcceptKeepsInv(t: Tree)
    requires Inv(t)
    ensures Inv(Accept(t))
  {
  }

  lemma ClaimDispatchKeepsInv(t: Tree, token: nat)
    requires Inv(t) && token !in t.tokens
    ensures Inv(ClaimDispatch(t, token))
  {
  }

  lemma RenewDispatchKeepsInv(t: Tree, token: nat)
    requires Inv(t)
    ensures Inv(RenewDispatch(t, token))
  {
  }

  lemma ReadRowKeepsInv(t: Tree, pass: nat)
    requires Inv(t)
    ensures Inv(ReadRow(t, pass))
  {
  }

  lemma ReadTreeKeepsInv(t: Tree, pass: nat)
    requires Inv(t)
    ensures Inv(ReadTree(t, pass))
  {
  }

  /** Reopening the row is safe because the verdict saw no claim and none can have happened since. */
  lemma WriteRecoveryKeepsInv(t: Tree, pass: nat)
    requires Inv(t)
    ensures Inv(WriteRecovery(t, pass))
  {
    if pass in t.recoveries && t.recoveries[pass].verdict.Some? {
      var rest := t.(recoveries := t.recoveries - {pass});
      assert Inv(rest);
      if Applicable(t, t.recoveries[pass]) {
        VerdictKeepsInv(rest, t.recoveries[pass].verdict.value);
      }
    }
  }

  lemma VerdictKeepsInv(t: Tree, verdict: DispatchState)
    requires Inv(t) && t.dispatch.Some? && !ActiveDispatch(Dispatch(verdict, None, 0, 0))
    requires verdict == DispatchAccepted ==> t.claims == {}
    ensures Inv(ApplyVerdict(t, verdict))
  {
    var u := ApplyVerdict(t, verdict);
    assert u.dispatch.value.owner.None? && !ActiveDispatch(u.dispatch.value);
    assert forall c :: c in t.claims ==> !c.1.Worker?;
    assert Bookkeeping(u);
    assert PendingRecoveries(u);
  }

  lemma SettleDispatchKeepsInv(t: Tree, token: nat, reconcile: bool)
    requires Inv(t)
    ensures Inv(SettleDispatch(t, token, reconcile))
  {
  }

  /** What a node says beyond whether it started is not the invariant's concern. */
  lemma NodesKeepInv(t: Tree, nodes: map<Id, Node>)
    requires Inv(t) && nodes.Keys == t.nodes.Keys && forall n :: n in nodes ==> nodes[n].started == t.nodes[n].started
    ensures Inv(t.(nodes := nodes))
  {
    var u := t.(nodes := nodes);
    assert forall c :: c in t.claims ==> c.0 in u.nodes && u.nodes[c.0].started;
  }

  lemma EnrolledKeepsInv(t: Tree, status: RunStatus)
    requires Inv(t) && t.run.None?
    ensures Inv(t.(run := Some(status)))
  {
  }

  lemma RecoverRunKeepsInv(t: Tree)
    requires Inv(t)
    ensures Inv(RecoverRun(t)) && RecoverRun(t).claims == t.claims && RecoverRun(t).attempts == t.attempts
  {
    var r := RecoverRun(t);
    if t.run.None? {
      NodesKeepInv(t, r.nodes);
      EnrolledKeepsInv(t.(nodes := r.nodes), r.run.value);
    }
  }

  /** Without a lease nothing depends on the run being held back except a worker's past claims. */
  lemma ReconcileRunKeepsInv(t: Tree)
    requires Inv(t) && t.lease.None? && t.run.Some?
    ensures Inv(ReconcileRun(t))
    ensures ReconcileRun(t).run == Some(RunAccepted) ==> t.claims == {}
  {
    if c :| c in t.claims {
      assert c.0 in t.nodes && NodeStarted(t.nodes[c.0]);
      assert StartedTree(t);
    }
  }

  lemma DropLeaseKeepsInv(t: Tree)
    requires Inv(t)
    ensures Inv(DropLease(t))
    ensures DropLease(t).run == Some(RunAccepted) ==> DropLease(t).claims == {}
  {
    ReleasedKeepsInv(t);
    RecoverRunKeepsInv(t.(lease := None));
    ReconcileRunKeepsInv(RecoverRun(t.(lease := None)));
  }

  lemma ReleasedKeepsInv(t: Tree)
    requires Inv(t)
    ensures Inv(t.(lease := None))
  {
  }

  lemma AcquireLeaseKeepsInv(t: Tree, token: nat)
    requires Inv(t) && token !in t.tokens
    ensures Inv(AcquireLease(t, token))
  {
    if LeaseExpired(t) {
      DropLeaseKeepsInv(t);
    }
    var free := if LeaseExpired(t) then DropLease(t) else t;
    if free.lease.None? && free.dispatch.None? && (free.run.None? || free.run == Some(RunAccepted)) {
      GrantKeepsInv(free, token);
    }
  }

  lemma GrantKeepsInv(t: Tree, token: nat)
    requires Inv(t) && token !in t.tokens && t.lease.None? && t.dispatch.None? && (t.run.None? || t.run == Some(RunAccepted))
    ensures Inv(t.(lease := Some(Lease(token, t.now + t.leaseSeconds)), runners := t.runners[Worker(token) := Runner(false, {})],
                   tokens := t.tokens + {token}))
  {
  }

  lemma RenewLeaseKeepsInv(t: Tree, token: nat)
    requires Inv(t)
    ensures Inv(RenewLease(t, token))
  {
  }

  lemma ReleaseLeaseKeepsInv(t: Tree, token: nat)
    requires Inv(t)
    ensures Inv(ReleaseLease(t, token))
  {
  }

  lemma FinalizeTaskKeepsInv(t: Tree, token: nat, status: Status)
    requires Inv(t)
    ensures Inv(FinalizeTask(t, token, status))
  {
  }

  lemma EnterLocallyKeepsInv(t: Tree, token: nat)
    requires Inv(t) && token !in t.tokens
    ensures Inv(EnterLocally(t, token))
  {
  }

  lemma FinishRunKeepsInv(t: Tree, owner: Owner, status: RunStatus)
    requires Inv(t)
    ensures Inv(FinishRun(t, owner, status))
  {
  }

  lemma StartRunKeepsInv(t: Tree, owner: Owner)
    requires Inv(t)
    ensures Inv(StartRun(t, owner))
  {
    EnsureRunKeepsInv(t);
    FinishRunKeepsInv(EnsureRun(t), owner, RunReconciliation);
    var e := EnsureRun(t);
    if owner in t.runners && e.run == Some(RunAccepted) && e.attempts == map[] && OwnsRun(e, owner) {
      MarkStartedKeepsInv(e, owner);
    }
  }

  lemma MarkStartedKeepsInv(t: Tree, owner: Owner)
    requires Inv(t) && owner in t.runners && t.run == Some(RunAccepted)
    ensures Inv(t.(run := Some(RunRunning), runners := t.runners[owner := t.runners[owner].(startedRun := true)]))
  {
    var u := t.(run := Some(RunRunning), runners := t.runners[owner := t.runners[owner].(startedRun := true)]);
    assert forall o :: o in u.runners ==> o in t.runners && u.runners[o].claimed == t.runners[o].claimed;
    assert Bookkeeping(u);
  }

  /** The heart of the matter: what the fence admits is the one owner all earlier claims had. */
  lemma ClaimNodeKeepsInv(t: Tree, owner: Owner, n: Id)
    requires Inv(t)
    ensures Inv(ClaimNode(t, owner, n))
  {
  }

  lemma StartAttemptKeepsInv(t: Tree, owner: Owner, n: Id, id: nat)
    requires Inv(t)
    ensures Inv(StartAttempt(t, owner, n, id))
  {
  }

  lemma FinishAttemptKeepsInv(t: Tree, id: nat, status: AttemptStatus)
    requires Inv(t)
    ensures Inv(FinishAttempt(t, id, status))
  {
  }

  lemma FinishNodeKeepsInv(t: Tree, owner: Owner, n: Id, status: Status, unknown: bool)
    requires Inv(t)
    ensures Inv(FinishNode(t, owner, n, status, unknown))
  {
  }

  lemma RequestCancellationKeepsInv(t: Tree, n: Id)
    requires Inv(t)
    ensures Inv(RequestCancellation(t, n))
  {
  }

  lemma StepKeepsInv(t: Tree, a: Action)
    requires Inv(t) && Legal(t, a)
    ensures Inv(Step(t, a))
  {
    if ByRunner(a) {
      RunnerKeepsInv(t, a);
    } else if OfLease(a) {
      LeaseKeepsInv(t, a);
    } else if a.ATick? || a.ACrash? {
      TimeKeepsInv(t, a);
    } else {
      DispatchKeepsInv(t, a);
    }
  }

  lemma DispatchKeepsInv(t: Tree, a: Action)
    requires Inv(t) && Legal(t, a) && !ByRunner(a) && !OfLease(a) && !a.ATick? && !a.ACrash?
    ensures Inv(Step(t, a))
  {
    match a
    case AAccept => AcceptKeepsInv(t);
    case AClaimDispatch(token) => ClaimDispatchKeepsInv(t, token);
    case ARenewDispatch(token) => RenewDispatchKeepsInv(t, token);
    case AReadRow(pass) => ReadRowKeepsInv(t, pass);
    case AReadTree(pass) => ReadTreeKeepsInv(t, pass);
    case AWriteRecovery(pass) => WriteRecoveryKeepsInv(t, pass);
    case ASettleDispatch(token, reconcile) => SettleDispatchKeepsInv(t, token, reconcile);
  }

  predicate OfLease(a: Action) {
    a.AAcquireLease? || a.ARenewLease? || a.AReleaseLease? || a.ACleanupLease? || a.ARecoverLease? || a.AFinalizeTask?
  }

  lemma LeaseKeepsInv(t: Tree, a: Action)
    requires Inv(t) && Legal(t, a) && OfLease(a)
    ensures Inv(Step(t, a))
  {
    match a
    case AAcquireLease(token) => AcquireLeaseKeepsInv(t, token);
    case ARenewLease(token) => RenewLeaseKeepsInv(t, token);
    case AReleaseLease(token) => ReleaseLeaseKeepsInv(t, token);
    case ACleanupLease => DropLeaseKeepsInv(t);
    case ARecoverLease(token) => DropLeaseKeepsInv(t);
    case AFinalizeTask(token, status) => FinalizeTaskKeepsInv(t, token, status);
  }

  lemma TimeKeepsInv(t: Tree, a: Action)
    requires Inv(t) && (a.ATick? || a.ACrash?)
    ensures Inv(Step(t, a))
  {
  }

  /** The actions of whoever executes the tree. */
  predicate ByRunner(a: Action) {
    match a
    case AEnterLocally(_) | AStartRun(_) | AFinishRun(_, _) | AClaimNode(_, _) | AStartAttempt(_, _, _) => true
    case AFinishAttempt(_, _) | AFinishNode(_, _, _, _) | ARequestCancellation(_) => true
    case _ => false
  }

  lemma RunnerKeepsInv(t: Tree, a: Action)
    requires Inv(t) && Legal(t, a) && ByRunner(a)
    ensures Inv(Step(t, a))
  {
    match a
    case AEnterLocally(token) => EnterLocallyKeepsInv(t, token);
    case AStartRun(owner) => StartRunKeepsInv(t, owner);
    case AFinishRun(owner, status) => FinishRunKeepsInv(t, owner, status);
    case AClaimNode(owner, n) => ClaimNodeKeepsInv(t, owner, n);
    case AStartAttempt(owner, n, id) => StartAttemptKeepsInv(t, owner, n, id);
    case AFinishAttempt(id, status) => FinishAttemptKeepsInv(t, id, status);
    case AFinishNode(owner, n, status, unknown) => FinishNodeKeepsInv(t, owner, n, status, unknown);
    case ARequestCancellation(n) => RequestCancellationKeepsInv(t, n);
  }

  lemma {:induction false} RunKeepsInv(t: Tree, actions: seq<Action>, u: Tree)
    requires Inv(t) && Reaches(t, actions, u)
    ensures Inv(u)
    decreases |actions|
  {
    if actions != [] {
      StepKeepsInv(t, actions[0]);
      RunKeepsInv(Step(t, actions[0]), actions[1..], u);
    }
  }

  // ----- Safety over whole runs -------------------------------------------------------------

  /**
   * Automatic recovery never hands a started tree to a second owner: in every run from an untouched tree,
   * all invocations started under dispatch tokens or worker leases belong to one owner.
   */
  lemma {:induction false} OneOwnerForAllAttempts(t: Tree, actions: seq<Action>, u: Tree, a: nat, b: nat)
    requires Initial(t) && Reaches(t, actions, u)
    requires a in u.attempts && b in u.attempts
    requires !u.attempts[a].owner.Local? && !u.attempts[b].owner.Local?
    ensures u.attempts[a].owner == u.attempts[b].owner
  {
    RunKeepsInv(t, actions, u);
    assert (u.attempts[a].node, u.attempts[a].owner) in u.claims;
    assert (u.attempts[b].node, u.attempts[b].owner) in u.claims;
  }

  /**
   * A tree with invocations is never made available again: from then on the run keeps its status until it
   * becomes terminal, and a terminal status is final.
   */
  lemma {:induction false} StartedRunNeverReopens(t: Tree, actions: seq<Action>, u: Tree)
    requires Inv(t) && t.attempts != map[] && Reaches(t, actions, u)
    ensures u.attempts != map[] && RunHeld(t, u)
    decreases |actions|
  {
    if actions != [] {
      var v := Step(t, actions[0]);
      StepKeepsInv(t, actions[0]);
      StepKeepsStartedRun(t, actions[0]);
      StartedRunNeverReopens(v, actions[1..], u);
      if v.run != t.run {
        TerminalRunIsFinal(v, actions[1..], u);
      }
    }
  }

  ghost predicate RunHeld(t: Tree, u: Tree) {
    u.run == t.run || (u.run.Some? && TerminalRun(u.run.value))
  }

  /** The actions that never write the run. */
  predicate LeavesRunAlone(a: Action) {
    match a
    case AAccept | AWriteRecovery(_) | AAcquireLease(_) | ACleanupLease | ARecoverLease(_) | AStartRun(_) | AFinishRun(_, _) => false
    case _ => true
  }

  lemma RunLeftAlone(t: Tree, a: Action)
    requires LeavesRunAlone(a)
    ensures Step(t, a).run == t.run
  {
  }

  lemma StepKeepsStartedRun(t: Tree, a: Action)
    requires Inv(t) && Legal(t, a) && t.attempts != map[]
    ensures Step(t, a).attempts != map[] && RunHeld(t, Step(t, a))
  {
    AttemptsAreKept(t, a);
    assert t.attempts.Keys != {};
    if LeavesRunAlone(a) {
      RunLeftAlone(t, a);
    } else {
      StepKeepsWrittenRun(t, a);
    }
  }

  lemma StepKeepsWrittenRun(t: Tree, a: Action)
    requires Inv(t) && t.attempts != map[] && !LeavesRunAlone(a)
    ensures RunHeld(t, Step(t, a))
  {
    if a.AWriteRecovery? {
      StartedRecovery(t, a.pass);
    } else if a.AAcquireLease? {
      StartedAcquire(t, a.token);
    } else if a.AStartRun? {
      StartedStart(t, a.owner);
    } else if a.AAccept? {
      StartedAccept(t);
    } else if a.ACleanupLease? || a.ARecoverLease? {
      StartedDrop(t);
    }
  }

  lemma StartedAccept(t: Tree)
    requires t.attempts != map[]
    ensures RunHeld(t, Accept(t))
  {
  }

  lemma StartedAcquire(t: Tree, token: nat)
    requires t.attempts != map[]
    ensures RunHeld(t, AcquireLease(t, token))
  {
    StartedDrop(t);
  }

  lemma StartedStart(t: Tree, owner: Owner)
    requires t.attempts != map[]
    ensures RunHeld(t, StartRun(t, owner))
  {
  }

  lemma StartedDrop(t: Tree)
    requires t.attempts != map[]
    ensures DropLease(t).run.Some? && TerminalRun(DropLease(t).run.value)
  {
  }

  lemma StartedRecovery(t: Tree, pass: nat)
    requires Inv(t) && t.attempts != map[]
    ensures RunHeld(t, WriteRecovery(t, pass))
  {
    var id :| id in t.attempts;
    assert (t.attempts[id].node, t.attempts[id].owner) in t.claims;
  }

  lemma AttemptsAreKept(t: Tree, a: Action)
    ensures t.attempts.Keys <= Step(t, a).attempts.Keys && t.claims <= Step(t, a).claims
  {
    assert t.attempts.Keys == Interrupt(t.attempts).Keys;
    if !LeavesRunAlone(a) {
      WriterKeepsAttempts(t, a);
    }
  }

  lemma WriterKeepsAttempts(t: Tree, a: Action)
    requires !LeavesRunAlone(a)
    ensures t.attempts.Keys <= Step(t, a).attempts.Keys && t.claims <= Step(t, a).claims
  {
    assert t.attempts.Keys == Interrupt(t.attempts).Keys;
    if a.AStartRun? {
      StartKeepsAttempts(t, a.owner);
    } else if a.AAcquireLease? || a.ACleanupLease? || a.ARecoverLease? {
      DropKeepsAttempts(t);
    }
  }

  lemma StartKeepsAttempts(t: Tree, owner: Owner)
    ensures StartRun(t, owner).attempts == t.attempts && StartRun(t, owner).claims == t.claims
  {
  }

  lemma DropKeepsAttempts(t: Tree)
    ensures DropLease(t).attempts.Keys == t.attempts.Keys && DropLease(t).claims == t.claims
  {
  }

  lemma {:induction false} TerminalRunIsFinal(t: Tree, actions: seq<Action>, u: Tree)
    requires t.run.Some? && TerminalRun(t.run.value) && Reaches(t, actions, u)
    ensures u.run == t.run
    decreases |actions|
  {
    if actions != [] {
      assert Step(t, actions[0]).run == t.run;
      TerminalRunIsFinal(Step(t, actions[0]), actions[1..], u);
    }
  }

  /** Once a dispatch row exists it stays, every lease on the root has expired, and none is granted or renewed. */
  lemma {:induction false} DispatchExcludesLeases(t: Tree, actions: seq<Action>, u: Tree)
    requires Inv(t) && t.dispatch.Some? && Reaches(t, actions, u)
    ensures u.dispatch.Some?
    ensures u.lease.Some? ==> u.lease == t.lease && u.lease.value.expires <= t.now
    decreases |actions|
  {
    if actions != [] {
      var v := Step(t, actions[0]);
      StepKeepsInv(t, actions[0]);
      DispatchStays(t, actions[0]);
      DispatchExcludesLeases(v, actions[1..], u);
    }
  }

  lemma DispatchStays(t: Tree, a: Action)
    requires Inv(t) && t.dispatch.Some?
    ensures Step(t, a).dispatch.Some? && (Step(t, a).lease == t.lease || Step(t, a).lease.None?)
  {
    if !LeavesRunAlone(a) {
      WriterKeepsDispatch(t, a);
    }
  }

  lemma WriterKeepsDispatch(t: Tree, a: Action)
    requires t.dispatch.Some? && !LeavesRunAlone(a)
    ensures Step(t, a).dispatch.Some? && (Step(t, a).lease == t.lease || Step(t, a).lease.None?)
  {
    match a
    case AStartRun(owner) =>
    case AWriteRecovery(pass) =>
    case _ =>
  }

  /** A root on which a leased worker claimed a node is never submitted, and never leased to anyone else. */
  lemma {:induction false} StartedLeaseIsFinal(t: Tree, actions: seq<Action>, u: Tree, n: Id, token: nat)
    requires Inv(t) && (n, Worker(token)) in t.claims && Reaches(t, actions, u)
    ensures u.dispatch.None? && (u.lease.Some? ==> u.lease.value.token == token)
  {
    RunKeepsInv(t, actions, u);
    ClaimsAreHistory(t, actions, u);
  }

  lemma {:induction false} ClaimsAreHistory(t: Tree, actions: seq<Action>, u: Tree)
    requires Reaches(t, actions, u)
    ensures t.claims <= u.claims
    decreases |actions|
  {
    if actions != [] {
      AttemptsAreKept(t, actions[0]);
      ClaimsAreHistory(Step(t, actions[0]), actions[1..], u);
    }
  }

  lemma {:induction false} ReachesOnward(t: Tree, first: seq<Action>, v: Tree, rest: seq<Action>, u: Tree)
    requires Reaches(t, first, v) && Reaches(v, rest, u)
    ensures Reaches(t, first + rest, u)
    decreases |first|
  {
    if first == [] {
      assert first + rest == rest;
    } else {
      ReachesOnward(Step(t, first[0]), first[1..], v, rest, u);
      assert (first + rest)[1..] == first[1..] + rest;
    }
  }

  lemma {:induction false} ReachesBy(t: Tree, a: Action, v: Tree, rest: seq<Action>, u: Tree)
    requires Legal(t, a) && v == Step(t, a) && Reaches(v, rest, u)
    ensures Reaches(t, [a] + rest, u)
  {
    assert ([a] + rest)[1..] == rest;
  }

  /** A worker's expired lease lets a local run start, ... */
  lemma LocalRunStarted(t: Tree) returns (actions: seq<Action>, v: Tree)
    requires Initial(t) && t.now == 0 && t.leaseSeconds == 10
    requires forall n :: n in t.nodes ==> t.nodes[n] == Node(Pending, false, false, false, false, false)
    ensures Reaches(t, actions, v)
    ensures v == t.(now := 10, run := Some(RunRunning), tokens := {1, 2}, lease := Some(Lease(1, 10)),
                    runners := map[Worker(1) := Runner(false, {}), Local(2) := Runner(true, {})])
  {
    var t1 := Step(t, AAcquireLease(1));
    assert t1 == t.(lease := Some(Lease(1, 10)), runners := map[Worker(1) := Runner(false, {})], tokens := {1});
    var t2 := Step(t1, ATick(10));
    var t3 := Step(t2, AEnterLocally(2));
    assert t3 == t2.(runners := map[Worker(1) := Runner(false, {}), Local(2) := Runner(false, {})], tokens := {1, 2});
    assert SummarizeRun(t3.nodes) == RunAccepted;
    v := Step(t3, AStartRun(Local(2)));
    assert v.runners == map[Worker(1) := Runner(false, {}), Local(2) := Runner(true, {})];
    assert Reaches(v, [], v);
    ReachesBy(t3, AStartRun(Local(2)), v, [], v);
    actions := [AStartRun(Local(2))] + [];
    ReachesBy(t2, AEnterLocally(2), t3, actions, v);
    actions := [AEnterLocally(2)] + actions;
    ReachesBy(t1, ATick(10), t2, actions, v);
    actions := [ATick(10)] + actions;
    ReachesBy(t, AAcquireLease(1), t1, actions, v);
    actions := [AAcquireLease(1)] + actions;
  }

  /** ... and the janitor makes that run available again. */
  lemma LocalRunMadeAvailable(t: Tree) returns (actions: seq<Action>, v: Tree)
    requires Initial(t) && t.now == 0 && t.leaseSeconds == 10
    requires forall n :: n in t.nodes ==> t.nodes[n] == Node(Pending, false, false, false, false, false)
    ensures Reaches(t, actions, v)
    ensures v == t.(now := 10, run := Some(RunAccepted), tokens := {1, 2},
                    runners := map[Worker(1) := Runner(false, {}), Local(2) := Runner(true, {})])
  {
    var first, started := LocalRunStarted(t);
    v := Step(started, ACleanupLease);
    assert Interrupt(started.attempts) == map[];
    assert Reaches(v, [], v);
    ReachesBy(started, ACleanupLease, v, [], v);
    ReachesOnward(t, first, started, [ACleanupLease] + [], v);
    actions := first + ([ACleanupLease] + []);
  }

  /**
   * Local execution carries no token, and the guarantee does not extend to it: once the janitor has made a
   * local run available again, a second worker can start beside the local run's claimed node.
   */
  lemma LocalExecutionCanShareATree(r: Id, a: Id, b: Id) returns (t: Tree, actions: seq<Action>, u: Tree)
    requires r != a && r != b && a != b
    ensures Initial(t) && Reaches(t, actions, u)
    ensures 0 in u.attempts && 1 in u.attempts && u.attempts[0].owner == Local(2) && u.attempts[1].owner == Worker(3)
  {
    var pending := Node(Pending, false, false, false, false, false);
    t := Tree(r, 0, 10, map[r := pending, a := pending, b := pending], None, None, None,
              map[], map[], map[], {}, {});
    var first, t5 := LocalRunMadeAvailable(t);
    var second, t9 := SecondWorkerClaims(t5, r, a, b);
    ReachesOnward(t, first, t5, second, t9);
    var t10 := Step(t9, AStartAttempt(Local(2), a, 0));
    u := Step(t10, AStartAttempt(Worker(3), b, 1));
    assert Reaches(u, [], u);
    ReachesBy(t10, AStartAttempt(Worker(3), b, 1), u, [], u);
    var third := [AStartAttempt(Worker(3), b, 1)] + [];
    ReachesBy(t9, AStartAttempt(Local(2), a, 0), t10, third, u);
    third := [AStartAttempt(Local(2), a, 0)] + third;
    ReachesOnward(t, first + second, t9, third, u);
    actions := first + second + third;
  }

  lemma SecondWorkerClaims(t: Tree, r: Id, a: Id, b: Id) returns (actions: seq<Action>, u: Tree)
    requires a != b && t.root == r && t.now == 10 && t.run == Some(RunAccepted) && t.tokens == {1, 2} && t.dispatch.None? && t.lease.None?
    requires t.attempts == map[] && t.leaseSeconds == 10 && Local(2) in t.runners && t.runners[Local(2)] == Runner(true, {})
    requires t.nodes.Keys == {r, a, b}
    requires forall n :: n in t.nodes ==> t.nodes[n] == Node(Pending, false, false, false, false, false)
    ensures Reaches(t, actions, u) && u.attempts == map[]
    ensures Local(2) in u.runners && a in u.runners[Local(2)].claimed
    ensures Worker(3) in u.runners && b in u.runners[Worker(3)].claimed
  {
    var t6 := Step(t, AClaimNode(Local(2), a));
    var t7 := Step(t6, AAcquireLease(3));
    actions, u := LeasedWorkerClaims(t7, b);
    ReachesBy(t6, AAcquireLease(3), t7, actions, u);
    actions := [AAcquireLease(3)] + actions;
    ReachesBy(t, AClaimNode(Local(2), a), t6, actions, u);
    actions := [AClaimNode(Local(2), a)] + actions;
  }

  lemma LeasedWorkerClaims(t: Tree, b: Id) returns (actions: seq<Action>, u: Tree)
    requires t.run == Some(RunAccepted) && t.dispatch.None? && t.lease == Some(Lease(3, t.now + 10)) && t.attempts == map[]
    requires Worker(3) in t.runners && t.runners[Worker(3)] == Runner(false, {})
    requires b in t.nodes && t.nodes[b] == Node(Pending, false, false, false, false, false)
    ensures Reaches(t, actions, u) && u.attempts == map[]
    ensures forall o :: o in t.runners && o != Worker(3) ==> o in u.runners && u.runners[o] == t.runners[o]
    ensures Worker(3) in u.runners && b in u.runners[Worker(3)].claimed
  {
    var t8 := Step(t, AStartRun(Worker(3)));
    assert t8.runners[Worker(3)].startedRun && t8.run == Some(RunRunning);
    u := Step(t8, AClaimNode(Worker(3), b));
    assert Reaches(u, [], u);
    ReachesBy(t8, AClaimNode(Worker(3), b), u, [], u);
    actions := [AClaimNode(Worker(3), b)] + [];
    ReachesBy(t, AStartRun(Worker(3)), t8, actions, u);
    actions := [AStartRun(Worker(3))] + actions;
  }
}
