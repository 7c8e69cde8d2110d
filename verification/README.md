# Verified model of apflow's durable execution core

apflow runs trees of tasks durably. This project models the transactional protocols and the graph and schema
algorithms at its core, and proves what they promise over every input, every interleaving and every run:

| files | what they model |
|---|---|
| `Ownership`, `LocalExecution`, `ExecutionStore` | who may execute a tree: dispatch rows, worker leases, local execution, recovery, and the run lifecycle all of them write |
| `RecoveryOutcome`, `Lifecycle`, `Completion` | what recovery and the other writes do to those rows, told from the tree alone, and that a submitted tree can be executed to its end |
| `Ledger`, `BudgetLedger`, `Usage`, `Accounting`, `AttemptStore` | token budgets, usage events, invocations, and the invariants that tie the three tables together |
| `LedgerCalls`, `Deduplication`, `Closing`, `Reporting` | when calls on those tables succeed and what they move: reservations and settlements, repeated reports, closed invocations, late and partial reports |
| `DependencyGraph`, `RunRetry`, `RetryRecomputation`, `RetryClone`, `RetryDerivation` | deriving a retry run: what is kept, what runs again, and the cloned graph |
| `JsonValue`, `OutputSchema`, `RefRelocation`, `FailureEnvelope` | the public view of an output schema, and the relocation of a business schema into the result envelope |
| `TaskForest`, `TreeShape`, `TreeIds`, `TreeStatus`, `DependencyFix`, `TreeCloning` | building task trees from arrays, and cloning them |
| `UsageDelivery`, `CircuitBreaker`, `Tripping`, `Leadership`, `Retry` | at-least-once delivery, and the timed state machines |

A transaction is one atomic step, and its rollback leaves the state as it was. Where the source splits an operation
into a read and a later guarded update (the dispatcher's recovery pass, the leader's two clock readings), the steps
are separate and anything may happen between them. There is one clock that does not go backwards; UUIDs and lease
tokens are fresh, and digests are injective. Classes hold the rows, dictionaries and fields that the source updates,
and each of their methods is tied to a function on values; the lemmas are about those functions. A ghost field or a
field marked as history (`claims`, `first`, `surprises`, `since`, `past`, `delay`) exists only so that a theorem can speak of
the past; no operation reads it. What a method does is also stated without the function it is tied to: from the rows,
the reports or the list of actions alone. Lemmas do not use automatic induction; the inductive ones recurse explicitly.

## Findings

Where the code does less than one would expect, the model follows the code, and a lemma shows an input.

- Local execution carries no token, so invocations of two owners can end up in one tree. This happens only when a run
  is made available again, by the recovery of an expired lease or of an expired dispatch row, while a runner that
  started it is still there: without such a step all invocations have one owner
  (`LocalExecution.OneOwnerUnlessReopened`). Beside a live local starter such a step always leads there if two nodes
  are open and a second owner can still start the run (`LocalExecution.ReopenedRunIsShared`); a row held for
  reconciliation is what prevents one, because it stops every claim (`LocalExecution.HeldRowStopsClaims`).
  `Ownership.LocalExecutionCanShareATree` is a complete run that begins with the lease janitor
  (`lease_manager.py:253-280`). Dispatchers and leased workers among themselves are safe without any condition:
  `Ownership.OneOwnerForAllAttempts`.
- A settlement above its reservation, or an upward correction, can take an account past its limit
  (`Ledger.CorrectionCanPassTheLimit`). A call keeps the account within it exactly when the excess fits the headroom,
  and a run keeps every account within its limit all along exactly when every call of it fits:
  `Ledger.RunsStayWithinLimitsExactly`.
- The counters of a task equal its events exactly when the row was complete at its first invocation: copies and links
  get no baseline event (`usage.py:222-252`), so they must not count anything; and where input and output stand without
  a total, the baseline event has their sum as total and the row keeps none, so they must be zero:
  `Accounting.ManagedCountersAgree`, `Accounting.FirstInvocationSeeds`, `Accounting.MissingTotalStaysBehind`.
- Under draft-06 a validator ignores the siblings of `$ref` (section 8 of draft-wright-json-schema-01), but the
  projection drops them for draft-07 only. The public view then refuses natively valid values:
  `OutputSchema.IgnoredSiblingsBreakTheView`; without such siblings it is sound: `OutputSchema.PublicViewIsSound`.
- A task whose parent is the empty string passes every check of the creator but is in no tree; the trees are a
  permutation of the array exactly when there is none: `TaskForest.TreesArePermutation`.
- The in-place dependency fix is wrong exactly when something that is kept stands between two equal dependencies on a
  task that was not cloned: `DependencyFix.FixIsRightExactly`, `DependencyFix.RepeatedMissingIsKept`.
- A leader that shuts down releases its row but keeps its role. It goes on reporting leadership exactly as long as it
  would have, until the expiry it had noted, beside any successor: `Leadership.StoppedLeaderReportsUntilItsNote`,
  `Leadership.ShutdownKeepsTheRole`.
- The last outcome of a retried execution is the one reported, unless its error metadata is looked at and malformed
  while another attempt was permitted; then checking the metadata raises its own error (`retry.py:193-207`):
  `Retry.LastOutcomeIsReportedExactly`, `Retry.MalformedMetadataHidesTheFailure`.

## Model

| member | source | states |
|---|---|---|
| Ownership.OneOwnerForAllAttempts | src/apflow/core/execution/dispatch.py:202-360 | in every interleaving of submission, claim, renewal, crash, expiry, split recovery passes, leases and late wake-ups, and without any condition, all invocations started under dispatch tokens or leases have one owner |
| Ownership.StartedRunNeverReopens | src/apflow/core/execution/runs.py:195-249 | once a tree has an invocation, no writer makes its run accepted or running again: the status stays until it becomes terminal |
| Ownership.TerminalRunIsFinal | src/apflow/core/execution/runs.py:236-249 | the four terminal statuses are absorbing over all actions of all five writers |
| Ownership.DispatchExcludesLeases | src/apflow/core/execution/dispatch.py:51-138 | once a dispatch row exists it stays, and the only lease beside it is one that had expired already and is never renewed |
| Ownership.StartedLeaseIsFinal | src/apflow/core/distributed/lease_manager.py:42-100 | a root on which a leased worker claimed a node is never submitted and never leased under another token |
| Ownership.LocalExecutionCanShareATree | src/apflow/core/distributed/lease_manager.py:253-280 | an actual run in which a local execution and a leased worker both start invocations in one tree |
| LocalExecution.OneOwnerUnlessReopened | src/apflow/core/execution/dispatch.py:202-360 | local execution included: in every run in which no run is made available again beside a live runner that started it, all invocations in the tree have one owner |
| LocalExecution.ReopenedRunIsShared | src/apflow/core/distributed/lease_manager.py:370-410 | any step that makes a run available again beside a live local starter leads, where two nodes are open and a second owner can start the run, to invocations of two owners |
| LocalExecution.HeldRowStopsClaims | src/apflow/core/storage/sqlalchemy/task_repository.py:421-463 | a dispatch row held for reconciliation admits no further claim by anyone, for good |
| LocalExecution.AvailableRunIsUntouched | src/apflow/core/execution/runs.py:195-234 | in runs without such a step an available run has no claim and no invocation, so reading them before the update of start_run reads nothing stale |
| Ownership.RecoverNowIsThreeSteps | src/apflow/core/execution/dispatch.py:202-315 | the recovery the dispatcher runs on one row is the uninterrupted case of its three separate steps |
| Ownership.StepKeepsInv | src/apflow/core/execution/dispatch.py:95-459 | every action, by any owner and stale ones included, keeps the ownership invariant |
| Ownership.RunKeepsInv | src/apflow/core/execution/dispatch.py:95-459 | so does every finite sequence of legal actions |
| Ownership.AcceptKeepsInv | src/apflow/core/execution/dispatch.py:95-138 | a submission creates its row only where no live lease and no claim stands |
| Ownership.WriteRecoveryKeepsInv | src/apflow/core/execution/dispatch.py:274-315 | the late guarded update is harmless whatever happened since the rows were read |
| Ownership.SettleDispatchKeepsInv | src/apflow/core/execution/dispatch.py:449-459 | the final update, which checks the token but not the lease, cannot free a tree for another owner |
| Ownership.RenewDispatchKeepsInv | src/apflow/core/execution/dispatch.py:362-389 | a renewal by the current token keeps the invariant |
| Ownership.AcquireLeaseKeepsInv | src/apflow/core/distributed/lease_manager.py:42-100 | a lease is granted, after recovery of an expired owner, only where nothing started |
| Ownership.DropLeaseKeepsInv | src/apflow/core/distributed/lease_manager.py:315-410 | recovering and reconciling the run of a deleted lease leaves no claimed tree available |
| Ownership.RenewLeaseKeepsInv | src/apflow/core/distributed/lease_manager.py:194-225 | only the live lease of that token is extended |
| Ownership.ReleaseLeaseKeepsInv | src/apflow/core/distributed/lease_manager.py:227-251 | a released lease frees no tree on which its token had claimed a node |
| Ownership.ClaimNodeKeepsInv | src/apflow/core/storage/sqlalchemy/task_repository.py:421-463 | the fenced compare-and-swap admits a claim only from the one owner whose claims the tree may hold |
| Ownership.StartAttemptKeepsInv | src/apflow/durability/attempts.py:35-65 | inserting the invocation of a claimed node needs no fence of its own |
| Ownership.FinalizeTaskKeepsInv | src/apflow/core/distributed/worker.py:387-416 | the worker's final write keeps the invariant |
| ExecutionStore.Store.ValidateSubmissionRoot | src/apflow/core/execution/dispatch.py:51-92 | rejects exactly the trees with a live lease, an unusable root, or a node in progress or asked to cancel |
| ExecutionStore.Store.AcceptTask | src/apflow/core/execution/dispatch.py:95-138 | accepting twice answers with the existing row; an error changes nothing; success means the row exists |
| ExecutionStore.Store.Judge | src/apflow/core/execution/dispatch.py:216-244 | the scan decides finished exactly for a tree all of whose nodes are completed, accepted exactly for any other tree with no invocation whose nodes are all pending or links, none of them started, in progress or of unknown delivery, and reconciliation for the rest |
| ExecutionStore.Store.RecoverExpired | src/apflow/core/execution/dispatch.py:202-315 | recovers every expired active row as its tree asks for, down to row, run and invocations, and touches no other |
| RecoveryOutcome.RecoveryIsRight | src/apflow/core/execution/dispatch.py:202-315 | a completed tree finishes its row and completes a live run; an untouched one frees both; any other holds both for reconciliation and leaves no invocation running; terminal runs and everything else stay |
| RecoveryOutcome.RowTellsTheTree | src/apflow/core/execution/dispatch.py:216-244 | each of the three states in which recovery leaves a row says exactly what the tree was |
| RecoveryOutcome.LateUpdateFollowsTheReadTree | src/apflow/core/execution/dispatch.py:239-315 | whatever happens between the reading of a tree and the late update, the update does what the tree that was read asks for exactly when the row still has the owner that was read and was not renewed since |
| RecoveryOutcome.RecoveryCompletesOnlyCompletedTrees | src/apflow/core/execution/dispatch.py:216-315 | in no run does recovery complete a run, or finish a row, one of whose nodes was not completed when the tree was read |
| Completion.SubmittedTreeCanComplete | src/apflow/core/execution/dispatch.py:95-459 | for every submitted tree and every owner, dispatcher, worker or local, some run completes every node by an invocation of that owner, completes the run and leaves no row that holds the tree |
| Lifecycle.SummaryTells | src/apflow/core/execution/runs.py:30-46 | what each summary of a tree says about its nodes, and that exactly such trees get it |
| Lifecycle.AcceptsExactly | src/apflow/core/execution/dispatch.py:51-138 | a tree without a row gets one exactly when no lease is live, the root is pending or the frozen link of a retry, no node is in progress or to be cancelled, and the run is available; nothing else changes |
| Lifecycle.RowsMove | src/apflow/core/execution/dispatch.py:317-459 | only a waiting row is claimed, only its live holder extends it, and only its holder ends it |
| Lifecycle.DropTells | src/apflow/core/distributed/lease_manager.py:315-410 | a dropped lease leaves no invocation running and the run available exactly when no work has begun, never reopens a terminal run, and marks interrupted nodes of a run not yet on record |
| Lifecycle.GrantsExactly | src/apflow/core/distributed/lease_manager.py:42-100 | a lease is granted exactly without a dispatch row, for an absent or accepted run, and with no lease before or an expired one whose work has not begun; a live one stays |
| Lifecycle.ClaimsExactly | src/apflow/core/storage/sqlalchemy/task_repository.py:421-463 | the owner that started a live run claims a pending node that is no link, not frozen and not to be cancelled, exactly when its own row or lease is live, or, locally, when there is neither |
| Lifecycle.EndsExactly | src/apflow/core/storage/sqlalchemy/task_repository.py:421-463 | a node in progress ends under the same conditions, and as its owner says |
| Lifecycle.FinalizesExactly | src/apflow/core/distributed/worker.py:387-416 | the final write happens exactly under the live lease without a dispatch row; it gives up the lease and keeps the status of a root that has ended |
| Lifecycle.RunEndsExactly | src/apflow/core/execution/runs.py:236-249 | a live run ends exactly at the word of whoever owns it |
| ExecutionStore.Store.ClaimAccepted | src/apflow/core/execution/dispatch.py:317-360 | claims the selected rows that are not running here yet, each under its own token, and never exceeds the capacity |
| ExecutionStore.Store.Relinquish | src/apflow/core/distributed/lease_manager.py:315-410 | the loops over nodes and invocations reconcile the run exactly when something started |
| ExecutionStore.Store.AcquireLease | src/apflow/core/distributed/lease_manager.py:42-100 | grants a lease as specified, only without a dispatch row and for an absent or accepted run, and never replaces a live one |
| ExecutionStore.Store.CleanupExpiredLeases | src/apflow/core/distributed/lease_manager.py:253-280 | drops every expired lease, dispatched or not, and reports exactly the roots left for reconciliation |
| ExecutionStore.Store.RecoverLease | src/apflow/core/distributed/lease_manager.py:282-313 | recovers a lease exactly when the token matches and there is no dispatch row |
| ExecutionStore.Store.FinalizeTask | src/apflow/core/distributed/worker.py:387-416 | a status is written only by the holder of the live lease and never over a terminal status |
| ExecutionStore.Store.StartRun | src/apflow/core/execution/runs.py:195-234 | claims the run exactly when it is accepted, nothing was invoked and the caller owns the tree |
| ExecutionStore.Store.ClaimNode | src/apflow/core/storage/sqlalchemy/task_repository.py:737-805 | a successful claim passed the fence and moved the node from pending to in progress |
| Accounting.SettledReservationsAgree | src/apflow/durability/attempts.py:67-162 | after any run, a settled reservation of an invocation belongs to a closed invocation, and its actual tokens are the sum of that invocation's events, which is its last accepted total plus later deltas |
| Accounting.ManagedCountersAgree | src/apflow/governance/usage.py:141-181 | after any run, a task with consumption counts the sum of its events plus what its first row counted beyond the baseline; the two agree exactly when that row was complete, and an archived task keeps its counters |
| Accounting.FirstInvocationSeeds | src/apflow/governance/usage.py:222-252 | the first invocation makes the counters equal the events exactly when a copy or link counts nothing and any other row with input or output has a total |
| Accounting.MissingTotalStaysBehind | src/apflow/core/storage/sqlalchemy/task_repository.py:876-884 | historical input and output without a total: the events record their sum and the row's total stays behind by it |
| Accounting.RunKeepsInv | src/apflow/governance/usage.py:65-264 | the three tables agree after any run of starts, reports, closings, confirmations and crashes, failed calls included |
| Accounting.PerformKeepsInv | src/apflow/governance/usage.py:65-264 | every successful action keeps the agreement |
| Accounting.RecordKeepsInv | src/apflow/governance/usage.py:65-110 | an accepted report disturbs at most the settled row of its own closed invocation |
| Accounting.ReconcileKeepsInv | src/apflow/governance/usage.py:183-220 | evidenced usage of a closed invocation is followed by its reservation, settled or corrected |
| Accounting.FinishKeepsInv | src/apflow/durability/attempts.py:67-119 | closing an invocation with its final usage keeps the tables in agreement |
| Accounting.FinishLateKeepsInv | src/apflow/durability/attempts.py:121-162 | a late final report changes nothing, is refused, or is reconciled |
| Accounting.RecordPartialKeepsInv | src/apflow/durability/attempts.py:164-219 | a partial snapshot never reaches a closed invocation |
| Accounting.StartAttemptKeepsInv | src/apflow/durability/attempts.py:35-65 | a new invocation, with the baseline event its task may need, keeps the tables in agreement |
| Accounting.RecoverKeepsInv | src/apflow/core/distributed/lease_manager.py:370-429 | crash recovery closes running invocations as unknown, may hold the reservations, and settles nothing |
| Accounting.SettleConfirmedKeepsInv | src/apflow/bridge/governance_modules.py:144-169 | an administrator's confirmation goes through the invocation when there is one |
| Accounting.UpdateUsageKeepsInv | src/apflow/governance/budget.py:174-248 | the legacy update of a task's counters never touches a task whose consumption is identified |
| Deduplication.RunStoresEachIdOnce | src/apflow/governance/usage.py:65-110 | in every run events are only added and no identifier is stored twice |
| Deduplication.StoredReportDecides | src/apflow/governance/usage.py:86-98 | a report under a stored identifier succeeds exactly when invocation, kind, content and evidence are the stored ones, and changes nothing either way |
| Deduplication.RepeatedDeliveryChangesNothing | src/apflow/governance/usage.py:86-98 | once a report is accepted, at every later point of the run the same report succeeds, any other under its identifier fails, and the whole state stays |
| Deduplication.NewReportIsAcceptedExactly | src/apflow/governance/usage.py:65-110 | a report under a new identifier is accepted exactly when it can be read, its invocation is running, and no mentioned counter falls without evidence |
| Deduplication.DeliveriesCountOnce | src/apflow/governance/usage.py:65-110 | however often and in whatever order deltas are delivered, the total of an invocation is the sum over the distinct identifiers in the list of deliveries, the first readable report of each counting |
| Closing.FinishSettles | src/apflow/durability/attempts.py:67-119 | finishing a running invocation settles its open reservation at the reported total, which moves from reserved or unknown to spent, or makes it an unknown liability when no usage was reported; the invocation takes the status and the normalized usage, and no other row, account or invocation changes |
| Closing.FinishCloses | src/apflow/durability/attempts.py:67-119 | an invocation without a reservation is closed and the ledger is left alone |
| Closing.FinishSucceedsExactly | src/apflow/durability/attempts.py:67-119 | a running invocation can be finished exactly when its usage, if any, can be read and is not below what it reported before |
| Closing.FinishedWithUsageIsSettled | src/apflow/durability/attempts.py:67-119 | over runs: from the moment an invocation is finished with usage its reservation is settled, stays so, and carries the total of its events |
| Closing.ReconcileSettles | src/apflow/governance/usage.py:183-220 | after evidenced usage of a closed invocation its reservation is settled at the new total, whatever state it was in |
| Reporting.ReconcileSucceedsExactly | src/apflow/governance/usage.py:183-220 | new evidenced usage is accepted exactly when it can be read and the invocation is closed, and it becomes the total |
| Reporting.LateReportSettles | src/apflow/durability/attempts.py:121-162 | a late final report where late usage is taken succeeds exactly when it is not below the total; it becomes the total, to which the reservation is settled or corrected |
| Reporting.LateReportAgrees | src/apflow/durability/attempts.py:121-162 | everywhere else a late final report succeeds exactly when it agrees with what is there, and changes nothing |
| Reporting.PartialCounts | src/apflow/durability/attempts.py:164-219 | a new partial snapshot of a running invocation raises each counter it mentions to what it says, and is refused exactly when one would fall |
| Reporting.PartialComesTooLate | src/apflow/durability/attempts.py:200-219 | after the invocation closed a partial snapshot changes nothing, and is refused exactly when it says more than the total |
| Reporting.StartBegins | src/apflow/governance/usage.py:222-252 | a new invocation is running without usage, and its task gets a baseline event exactly when its counters are not empty, not inherited and older than every event; nothing else changes |
| Reporting.RecoverInterrupts | src/apflow/core/distributed/lease_manager.py:370-429 | recovery makes the running invocations of the tree unknown and touches no other |
| Reporting.RecoverHolds | src/apflow/core/distributed/lease_manager.py:370-429 | reserved tokens of the tree become unknown exactly when the run is held for reconciliation or an invocation of the tree is unresolved |
| Reporting.UpdatesExactly | src/apflow/governance/budget.py:174-248 | the old counter update works exactly for tasks that are neither enrolled nor archived and have no event and no invocation |
| Reporting.UpdateAdds | src/apflow/core/storage/sqlalchemy/task_repository.py:818-890 | it adds what is reported, with input plus output for a missing total, and changes no other row |
| AttemptStore.AttemptRecorder.RecordEvent | src/apflow/governance/usage.py:65-110 | deduplicates, refuses closed invocations and unevidenced decreases, or appends exactly what the report adds; an error rolls back |
| AttemptStore.AttemptRecorder.Append | src/apflow/governance/usage.py:141-181 | the event and the task's counters move together, except for an archived task |
| AttemptStore.AttemptRecorder.ReconcileUsage | src/apflow/governance/usage.py:183-220 | records the evidenced snapshot and settles or corrects the reservation, or rolls both back |
| AttemptStore.AttemptRecorder.FinishAttempt | src/apflow/durability/attempts.py:67-119 | closes an invocation once, with usage and settlement, or rolls all back |
| AttemptStore.AttemptRecorder.RecordLate | src/apflow/durability/attempts.py:121-162 | takes a late report, answers a repeated one, or refuses a contradiction or decrease |
| AttemptStore.AttemptRecorder.RecordPartialSnapshot | src/apflow/durability/attempts.py:200-219 | records a partial snapshot under the name of its content |
| AttemptStore.AttemptRecorder.StartInvocation | src/apflow/durability/attempts.py:35-65 | adds the baseline event where it is due and the running row, or refuses counters that are no usage |
| Usage.SnapshotsTelescope | src/apflow/governance/usage.py:65-110 | for any accepted sequence of reports, an invocation's total per counter is the last snapshot that mentions it plus later deltas, and never negative |
| Usage.FallsOnlyWithEvidence | src/apflow/governance/usage.py:141-181 | a total falls only at a snapshot with evidence |
| Usage.SumEvents | src/apflow/governance/usage.py:254-264 | the loop over the rows computes the sum of the invocation's deltas |
| Usage.Normalize | src/apflow/governance/usage.py:26-34 | accepts exactly non-empty reports without negative counters, and supplies the total |
| Usage.Added | src/apflow/governance/usage.py:141-181 | a snapshot adds what takes each mentioned counter to the reported value and leaves the others |
| Ledger.EveryRunBalances | src/apflow/governance/ledger.py:131-332 | in every reachable state each account's three balances are the sums of its reservations in those states, and what is committed is at most the limit plus overruns plus upward corrections so far |
| Ledger.RunsStayWithinLimitsExactly | src/apflow/governance/ledger.py:131-332 | a run keeps every account within its limit in all its states exactly when every settlement and correction fits the headroom it finds |
| Ledger.StepStaysWithinLimits | src/apflow/governance/ledger.py:131-332 | from accounts within their limits one call leaves them so exactly when it fits |
| Ledger.SettlementFitsExactly | src/apflow/governance/ledger.py:298-332 | a first settlement keeps its account within the limit exactly when its excess over the reservation is at most the headroom |
| Ledger.CorrectionFitsExactly | src/apflow/governance/ledger.py:259-296 | a correction keeps its account within the limit exactly when the increase is at most the headroom |
| Ledger.CorrectionCanPassTheLimit | src/apflow/governance/ledger.py:259-296 | an upward correction alone takes a full account past its limit, by any amount |
| Ledger.ReserveReplay | src/apflow/governance/ledger.py:131-178 | a repeated reservation succeeds and changes nothing |
| Ledger.SettleReplay | src/apflow/governance/ledger.py:197-227 | a repeated settlement, with any evidence, changes no row and no balance |
| Ledger.SettleConflict | src/apflow/governance/ledger.py:334-347 | a contradicting settlement is refused |
| Ledger.SettledRow | src/apflow/governance/ledger.py:298-332 | after a settlement the row is settled at the reported usage, or an unknown liability without it, and no other row changed |
| Ledger.CorrectedRow | src/apflow/governance/ledger.py:259-296 | a correction replaces the usage of that settled row only |
| Ledger.ReserveKeepsValid | src/apflow/governance/ledger.py:131-195 | a reservation keeps balances and bound |
| Ledger.SettleKeepsValid | src/apflow/governance/ledger.py:197-332 | a settlement keeps balances and bound |
| Ledger.CorrectKeepsValid | src/apflow/governance/ledger.py:259-296 | a correction keeps balances and bound |
| Ledger.ConfigureKeepsValid | src/apflow/governance/ledger.py:62-82 | a new account starts balanced and an existing one keeps its limit |
| Ledger.HoldUnknown | src/apflow/core/distributed/lease_manager.py:412-429 | exactly the reserved rows of the tree become unknown, and balances and bound survive |
| LedgerCalls.ReservesExactly | src/apflow/governance/ledger.py:131-195 | a new reservation is made exactly when its tokens and what the rows of its scope have promised fit the limit; it adds that row and reserves that many, and no other account changes |
| LedgerCalls.ReservedOnce | src/apflow/governance/ledger.py:152-178 | a taken identifier answers exactly the same request, and no balance moves |
| LedgerCalls.SettlesExactly | src/apflow/governance/ledger.py:197-347 | an open row can be settled at any usage, a settled one only at its own, and evidence needs usage |
| LedgerCalls.SettleMeans | src/apflow/governance/ledger.py:298-332 | a first settlement frees the row's tokens from the balance they were in and spends the usage, or makes them unknown; only that row and its account change |
| LedgerCalls.SettleKeepsEvidence | src/apflow/governance/ledger.py:197-257 | settling again moves nothing, and the first evidence of a reservation is the one that is kept |
| LedgerCalls.CorrectsExactly | src/apflow/governance/ledger.py:259-296 | a correction succeeds exactly on a settled row, and moves its usage and its scope's spent balance only |
| LedgerCalls.ConfiguresExactly | src/apflow/governance/ledger.py:62-82 | a scope is opened empty, once, and afterwards answers only the limit it was opened with |
| LedgerCalls.RunKeepsReceipts | src/apflow/governance/ledger.py:229-257 | over runs no receipt is changed or lost |
| BudgetLedgerStore.BudgetLedger.Reserve | src/apflow/governance/ledger.py:131-178 | insert first, then hold: the effect is all or nothing |
| BudgetLedgerStore.BudgetLedger.HoldTokens | src/apflow/governance/ledger.py:180-195 | tokens are held exactly when that many remain |
| BudgetLedgerStore.BudgetLedger.TransitionReservation | src/apflow/governance/ledger.py:298-332 | moves a row and its account exactly when the row is in the source state |
| BudgetLedgerStore.BudgetLedger.Settle | src/apflow/governance/ledger.py:197-227 | trying the states in turn settles once, and otherwise verifies that it happened before |
| BudgetLedgerStore.BudgetLedger.HoldUnknownReservations | src/apflow/core/distributed/lease_manager.py:412-429 | the loop over the held rows reaches the state specified for the whole tree |
| RunRetry.SelectNodes | src/apflow/core/execution/run_retry.py:34-70 | terminates with the least set that holds the selected nodes and their dependents and is closed under dependencies and parents, and fails only when no such set fits in the run |
| RunRetry.Dependents | src/apflow/core/execution/run_retry.py:41-44 | closure under the reverse edges is closure under dependents |
| RunRetry.CloseOverDependents | src/apflow/core/execution/run_retry.py:45-49 | the worklist ends with the least closed set |
| RunRetry.RetainUpstream | src/apflow/core/execution/run_retry.py:50-70 | the second worklist ends with the least closed set, or nothing fits |
| RunRetry.Ancestors | src/apflow/core/execution/run_retry.py:59-67 | the parent walk succeeds exactly when the chain ends at a root |
| RunRetry.ExecutionNodes | src/apflow/core/execution/run_retry.py:284-300 | the nodes to run are the least set with the incomplete and selected ones and, within the kept nodes, all dependents |
| RetryRecomputation.DownClosedIsSound | src/apflow/core/execution/run_retry.py:284-300 | if reusable results were consistent with their inputs, then after any legal run of the rerun set in dependency order every kept node is consistent, whatever the executors answer |
| RetryRecomputation.RerunNodeConsistent | src/apflow/core/execution/run_retry.py:284-300 | a node that ran again is consistent with its dependencies' final results |
| RetryRecomputation.ExecutionSetIsLeastSound | src/apflow/core/execution/run_retry.py:284-300 | reused nodes are completed and have only reused dependencies, the execute set is sound, and every sound set contains it |
| RetryClone.RemapDependencies | src/apflow/core/execution/run_retry.py:73-85 | renames every dependency and keeps order and other fields, and fails exactly on one without a clone |
| RetryClone.CloneNodes | src/apflow/core/execution/run_retry.py:88-126 | never fails on a retainable set, clones each kept row once in order, and returns the clone of the root |
| RetryClone.CloneIsomorphism | src/apflow/core/execution/run_retry.py:88-126 | a clone has the images of its row's parent and dependencies, and is completed with the old result exactly when it does not run again |
| RetryClone.ClonesAreIsomorphic | src/apflow/core/execution/run_retry.py:88-126 | the clones and the kept part of the source graph are isomorphic |
| RetryClone.HasChildrenExact | src/apflow/core/execution/run_retry.py:93-109 | has_children is set exactly where a clone has a child |
| RetryClone.CloneIsTree | src/apflow/core/execution/run_retry.py:88-126 | every parent chain of the clone ends at its one root |
| RetryClone.CloneHasNoCycle | src/apflow/core/execution/run_retry.py:88-126 | the cloned dependencies have no cycle |
| RetryDerivation.ValidateReplay | src/apflow/core/execution/run_retry.py:246-281 | an uncertain outcome is replayed exactly with authorization and evidence |
| RetryDerivation.ChooseNodes | src/apflow/core/execution/run_retry.py:204-228 | succeeds exactly when the graph has no cycle, the selection is non-empty, in the run and retainable, and the least kept set is certain or its replay authorized; each error says which of these fails; what is kept is the least such set and what runs again a sound and least one |
| RetryDerivation.DeriveRun | src/apflow/core/execution/run_retry.py:204-243 | the whole derivation: success exactly under those conditions over the rows, each error with its own; sound least reuse, an isomorphic single-rooted acyclic clone with the reused results, and selected nodes always run |
| DependencyGraph.DetectCircularDependencies | src/apflow/core/validator/dependency_validator.py:103-132 | accepts exactly the graphs without a cycle and yields a dependency order for them |
| DependencyGraph.CycleSearch.Visit | src/apflow/core/validator/dependency_validator.py:103-132 | a node met on the stack proves a cycle; otherwise all it reaches is finished in order |
| DependencyGraph.OrderExcludesCycles | src/apflow/core/validator/dependency_validator.py:103-132 | a dependency order of the graph leaves no room for a cycle |
| OutputSchema.PublicOutputSchema | src/apflow/bridge/output_schema.py:28-48 | the projection terminates on cyclic references and fails exactly when a reachable reference is unresolved |
| OutputSchema.Projection.Project | src/apflow/bridge/output_schema.py:60-75 | memoised: a node gets one name on first sight, and its definition once its shape is complete |
| OutputSchema.Projection.ShapeFor | src/apflow/bridge/output_schema.py:77-111 | the keyword dictionary links every subschema of the node by its name |
| OutputSchema.NoDanglingReferences | src/apflow/bridge/output_schema.py:60-75 | every reference in the emitted definitions is defined, and no placeholder remains |
| OutputSchema.PublicViewIsSound | src/apflow/bridge/output_schema.py:28-111 | every redaction below the root of a natively valid object is valid under the public view, if ignored siblings are dropped ones |
| OutputSchema.PublicViewIsExact | src/apflow/bridge/output_schema.py:77-111 | on marker-free values the public view accepts exactly what the kept structure does |
| OutputSchema.NothingIsLostOfKeptSchemas | src/apflow/bridge/output_schema.py:28-111 | for a schema of kept keywords alone and without exclusive unions, the public view accepts exactly the natively valid marker-free objects |
| OutputSchema.AcceptedIsStructural | src/apflow/bridge/output_schema.py:77-111 | dropping keywords and weakening oneOf to anyOf only ever accepts more |
| OutputSchema.StructuralIsPublic | src/apflow/bridge/output_schema.py:60-111 | the named definitions accept every redaction of what the structure accepts |
| OutputSchema.IgnoredSiblingsBreakTheView | src/apflow/bridge/output_schema.py:77-111 | a draft-06 document whose public view refuses a natively valid object |
| RefRelocation.ResolutionCommutes | src/apflow/core/execution/result_protocol.py:133-181 | what a pointer finds in the relocated schema is the relocation of what it finds in the original |
| RefRelocation.RelocationPreserves | src/apflow/core/execution/result_protocol.py:133-181 | inside an envelope that houses it, a relocated schema validates the same values and evaluates the same members and elements as the original, at every number of references followed |
| RefRelocation.EnvelopeHouses | src/apflow/core/execution/result_protocol.py:99-130 | relocated pointers resolve in the envelope where a declared business schema was put |
| RefRelocation.EnvelopeAcceptsBusinessResults | src/apflow/core/execution/result_protocol.py:99-181 | an envelope whose error is absent or null is accepted exactly when it has a result, no other keys than error and usage, usage counters that are non-negative integers, and a result valid under the original business schema, declared or empty |
| RefRelocation.UsageMeans | src/apflow/core/execution/result_protocol.py:108-114 | the usage schema accepts exactly dictionaries of the three counters, each a non-negative integer |
| FailureEnvelope.EnvelopeAcceptsFailures | src/apflow/core/execution/result_protocol.py:99-181 | an envelope whose error is a string is accepted exactly when the error is not empty, its keys are known, usage and metadata fit their schemas, and a result, if any, is null or valid under the original business schema, if one is declared |
| FailureEnvelope.EnvelopeRefusesOtherErrors | src/apflow/core/execution/result_protocol.py:99-130 | an envelope whose error is neither a string nor null is never accepted |
| TaskForest.ValidateParentIdsAcyclic | src/apflow/core/execution/task_creator.py:1515-1535 | rejects exactly the arrays with a parent cycle |
| TaskForest.ClimbFrom | src/apflow/core/execution/task_creator.py:1515-1535 | a climb ends, or has found a cycle |
| TaskForest.TreesArePermutation | src/apflow/core/execution/task_creator.py:350-393 | the concatenated to_list of the built trees is a permutation of the array exactly when no parent is blank |
| TaskForest.TreeCounts | src/apflow/core/types.py:248-258 | a built tree lists its root and each descendant of it exactly once, and nothing else |
| TreeShape.BuiltTreesAreTheOnes | src/apflow/core/execution/task_creator.py:350-393 | the built trees are the only ones whose tops are the rows without a parent and at each of whose nodes the children are the rows that name it, in array order |
| TreeShape.EdgesDetermine | src/apflow/core/execution/task_creator.py:369-393 | two trees with the same top and the edges of the array are equal |
| TaskForest.RankExcludesCycles | src/apflow/core/execution/task_creator.py:1515-1535 | the number of ancestors is a rank, and a ranked array has no cycle |
| TreeIds.AssignIds | src/apflow/core/execution/task_creator.py:87-115 | succeeds exactly when names are present and names and given identifiers are distinct |
| TreeIds.ResolveReferences | src/apflow/core/execution/task_creator.py:87-131 | succeeds exactly on well named drafts with known parents, and resolves each parent to an identifier of the array |
| TreeIds.Stamper.Stamp | src/apflow/core/execution/task_creator.py:1537-1557 | stamps exactly the tasks under the given one, and ends even beside a cycle |
| TreeIds.Stamper.StampRoots | src/apflow/core/execution/task_creator.py:174-186 | accepts exactly distinct tree identifiers, and stamps each tree with its own |
| TreeIds.SharedTreeIdMeansSharedRoot | src/apflow/core/execution/task_creator.py:174-186 | two tasks share a task_tree_id exactly when they share a root |
| TreeIds.TreesAreNamedByTheirRoots | src/apflow/core/execution/task_creator.py:174-186 | every task of a tree carries the identifier its root asks for, or else the root's own |
| TreeStatus.StatusIsFlat | src/apflow/core/types.py:209-235 | the status computed level by level is the rule applied once to all tasks of the tree, with the exact condition of each of the five statuses |
| DependencyFix.DependencyList.Fix | src/apflow/core/execution/task_creator.py:1221-1283 | the index-and-delete loops in place compute the specified list |
| DependencyFix.FixIsRightExactly | src/apflow/core/execution/task_creator.py:1221-1283 | the result is the order-preserving filter to cloned tasks, renamed, exactly when nothing kept stands between two equal missing dependencies |
| DependencyFix.DistinctIsEnough | src/apflow/core/execution/task_creator.py:1221-1283 | distinct dependencies meet that condition |
| DependencyFix.RepeatedMissingIsKept | src/apflow/core/execution/task_creator.py:1221-1283 | a list from which the fix deletes a kept dependency and leaves a missing one |
| TreeCloning.MinimalSubtreeIsAncestorClosure | src/apflow/core/execution/task_creator.py:564-610 | a subtree is found exactly when the tree has all that is required and something is; it is the tree cut down, tasks and order kept, to the ancestor closure of it |
| TreeCloning.TreeCloner.Reset | src/apflow/core/execution/task_creator.py:1309-1340 | gives each task of the tree one fresh identifier and its parent's new one |
| TreeCloning.TreeCloner.Clone | src/apflow/core/execution/task_creator.py:1285-1356 | the clone has the same shape, new identifiers, one new tree identifier and fixed dependencies |
| TreeCloning.CloneHasNewIds | src/apflow/core/execution/task_creator.py:1285-1356 | a clone holds the image of each identifier, each once |
| TreeCloning.CloneIsSelfContained | src/apflow/core/execution/task_creator.py:1221-1356 | the dependencies of a cloned task lead into the clone where the fix is right |
| UsageDelivery.NothingIsLost | src/apflow/governance/usage.py:266-300 | whatever order indexes commit in, and whatever cursor the consumer resumes from, each event of its owner was received or is still due, so an empty page means all were received |
| UsageDelivery.PollRemovesPage | src/apflow/bridge/governance_modules.py:207-223 | after a page is acknowledged and the cursor followed, exactly the rest is due |
| UsageDelivery.PageIsExact | src/apflow/governance/usage.py:266-284 | a page holds nothing but wanted events of that owner, in index order, and leaves one out only when it is full and ends before it |
| UsageDelivery.UsageFeed.ListEvents | src/apflow/governance/usage.py:266-284 | the page is the first due events in index order |
| UsageDelivery.UsageFeed.Acknowledge | src/apflow/governance/usage.py:286-300 | delivery of that event is recorded and nothing else changes |
| UsageDelivery.UsageFeed.Drain | src/apflow/bridge/governance_modules.py:207-223 | without new commits a consumer drains all due events, each once and in order, in exactly the rounded-up quotient of non-empty polls |
| CircuitBreaking.OpenIgnoresAdmittedCalls | src/apflow/durability/circuit_breaker.py:135-173 | in every reachable open state no admitted call can close the breaker or lengthen the open window |
| CircuitBreaking.LateCallsAreInert | src/apflow/durability/circuit_breaker.py:135-173 | a call admitted in an earlier generation stays without effect until it asks again |
| CircuitBreaking.RunKeepsGenerations | src/apflow/durability/circuit_breaker.py:77-183 | no admission is from a future generation, and while open every admission is from an older one |
| CircuitBreaking.AdmissionsArePaced | src/apflow/durability/circuit_breaker.py:77-133 | admissions since a trip number at most half_open_max_attempts per whole reset timeout that passed |
| CircuitBreaking.RunKeepsPace | src/apflow/durability/circuit_breaker.py:77-183 | the pacing invariant holds over every run with a monotonic clock |
| CircuitBreaking.HealsItself | src/apflow/durability/circuit_breaker.py:77-133 | after one quiet timeout a call is let through, and its report counts |
| Tripping.TripsExactlyAtTheThreshold | src/apflow/durability/circuit_breaker.py:119-173 | in every run the breaker is closed exactly while fewer failures than the threshold counted since the last success that counted or reset; closed it admits every call, and tripped none until a whole timeout has passed since the last failure that counted |
| Tripping.TripsAfterFailuresInARow | src/apflow/durability/circuit_breaker.py:135-183 | after a success that counts or a reset it stays closed through fewer such failures than the threshold, with no other in between, and no longer after that many, whatever went before |
| Tripping.NewBreakerTrips | src/apflow/durability/circuit_breaker.py:150-173 | so does a new breaker |
| Tripping.CountedFailureOpens | src/apflow/durability/circuit_breaker.py:150-173 | one failure that counts opens a half-open breaker, and a closed one exactly when it reaches the threshold; opening makes every earlier admission stale |
| Tripping.OpenRefuses | src/apflow/durability/circuit_breaker.py:119-173 | once open, no sequence of asks and reports gets a call through before the timeout has passed since the failure |
| Tripping.GenerationsAreCounted | src/apflow/durability/circuit_breaker.py:77-183 | a generation ends exactly when the breaker opens, renews its half-open window or is reset; an admitted call notes the current one |
| Tripping.ProbesAreLimited | src/apflow/durability/circuit_breaker.py:119-133 | a breaker that becomes half-open lets through the first half_open_max_attempts calls that ask, and then none |
| CircuitBreaking.CircuitBreaker.CanExecute | src/apflow/durability/circuit_breaker.py:119-133 | admits and records the generation as specified |
| CircuitBreaking.CircuitBreaker.RecordSuccess | src/apflow/durability/circuit_breaker.py:135-148 | closes the breaker unless it is open or the call is stale |
| CircuitBreaking.CircuitBreaker.RecordFailure | src/apflow/durability/circuit_breaker.py:150-173 | counts, trips at the threshold and starts a generation, and ignores stale calls, as the functions do of which `Tripping` proves when the breaker trips |
| CircuitBreaking.CircuitBreaker.CheckAndTransitionState | src/apflow/durability/circuit_breaker.py:77-110 | time alone half-opens, and renews a silent half-open window |
| Leadership.HoldsNeverOverlap | src/apflow/core/distributed/leader_election.py:35-215 | in every run, before the next hold starts all of the lease granted to the last one has passed, or its holder has stopped and released it; and their tokens differ |
| Leadership.SupersededNeverRenews | src/apflow/core/distributed/leader_election.py:127-164 | a token whose hold ended never renews again |
| Leadership.NoteIsLateByItsDelay | src/apflow/core/distributed/runtime.py:201-233 | in every run, a running node that believes it leads has or had a database lease, and outlives it by less than the time between the two clock readings |
| Leadership.DualLeadershipIsBrief | src/apflow/core/distributed/runtime.py:140-153 | two running nodes both believe they lead for less than that delay |
| Leadership.OfficeIsKept | src/apflow/core/distributed/leader_election.py:35-215 | until the expiry on its row nobody takes the office from a node that goes on running and renews to no earlier instant, and none of its renewals fails |
| Leadership.AcquiringTakesOffice | src/apflow/core/distributed/leader_election.py:35-125 | where no live row stands an acquisition takes the office for a whole lease, and the node leads once it notes so |
| Leadership.StoppedLeaderReportsUntilItsNote | src/apflow/core/distributed/runtime.py:140-199 | a stopped node reports leadership exactly when it did at the stop and the expiry it had noted has not come |
| Leadership.ShutdownKeepsTheRole | src/apflow/core/distributed/runtime.py:179-199 | a run in which a node that shut down and its successor both report leadership |
| Leadership.RunKeepsInv | src/apflow/core/distributed/runtime.py:300-332 | holds stay ordered and every running member is backed by the row or a past hold |
| Leadership.LeaderElection.Acquire | src/apflow/core/distributed/leader_election.py:35-125 | succeeds exactly when no live row stands, and inserts the row for a whole lease from the reading of the clock |
| Leadership.LeaderElection.RenewLeadership | src/apflow/core/distributed/leader_election.py:127-164 | extends exactly the live row of that node and token |
| Leadership.LeaderElection.ReleaseLeadership | src/apflow/core/distributed/leader_election.py:166-191 | deletes exactly the row of that node and token |
| Leadership.LeaderElection.CleanupStaleLeader | src/apflow/core/distributed/leader_election.py:193-215 | deletes exactly an expired row |
| Retry.ExecuteWithRetry | src/apflow/durability/retry.py:101-170 | at most max_attempts calls, none after a failure that may not be retried, each planned delay what the server asks or the ladder of its strategy says, and at most the ceiling, the last outcome reported, stopped exactly when cancellation is seen, and the final assertion never fires |
| Retry.LastOutcomeIsReportedExactly | src/apflow/durability/retry.py:101-207 | the last outcome is reported exactly when no further attempt was permitted or its metadata is not both looked at and malformed |
| Retry.MalformedMetadataHidesTheFailure | src/apflow/durability/retry.py:188-207 | a network error with malformed metadata after which the report is no outcome of the execution |
| Retry.TotalDelayIsBounded | src/apflow/durability/retry.py:101-170 | the planned delays together are at most (max_attempts - 1) times the ceiling |
| Retry.DelayIsBounded | src/apflow/durability/retry.py:65-92 | jitter moves a delay by a quarter at most and never past the ceiling |
| Retry.BackoffGrows | src/apflow/durability/retry.py:65-92 | delays start at the base, never shrink and stop at the ceiling |
| Retry.BackoffLadder | src/apflow/durability/retry.py:65-92 | exponential delays double, linear ones grow by the base and fixed ones stay, cut at the ceiling |
| Retry.RetriedExactly | src/apflow/durability/retry.py:188-207 | a failure is retried exactly when its metadata allows it within the ceiling, or when it is an unknown exception without metadata and the policy says so; usage and business errors never are |

## Left out

- Ownership.OneOwnerForAllAttempts: does not cover local execution; `LocalExecution` has the condition under which it does.
- LocalExecution.ReopenedRunIsShared: the converse is proved beside a live local starter; beside a live dispatcher or leased worker only the direction of `LocalExecution.OneOwnerUnlessReopened` is.
- Leases on tasks below the root: ownership is stated for leases on the root task, which share its rows.
- ExecutionStore.Store.StartRun: the comparison of the definition hash is not modelled.
- Ownership.StartedRunNeverReopens: `start_run` is one step; separating its read of the invocations from its guarded update makes no difference in the runs of `LocalExecution.AvailableRunIsUntouched`.
- Rows of deleted root tasks, expiry columns that are null apart from a missing owner, and the scheduler's own reset of tasks.
- SQL dialect branches, row locks and session handling: a transaction is an atomic step.
- ExecutionStore.Store.ClaimAccepted: takes the selected rows as given; the query that orders them is not modelled.
- BudgetLedgerStore.BudgetLedger.HoldUnknownReservations: one row at a time, where the source updates all rows and then the accounts in one transaction.
- AttemptStore.AttemptRecorder.StartInvocation: the row's run, attempt number and timestamps are not modelled, nor the validation of identifiers.
- Budget scopes' ownership checks and the spelling of scope keys; evidence is a record, not validated text.
- RetryDerivation.DeriveRun: works on the restored definition; restoring it, request replay by digest and the check for redacted inputs are not modelled.
- Origin types of cloned retry nodes beyond the original task, and schedule fields.
- OutputSchema.PublicViewIsSound: needs references without ignored siblings before draft-07, because the statement is false with them.
- `$dynamicRef` scopes and anchors: a reference resolves to a subschema or not at all; keywords the projection drops are one arbitrary predicate; object keys are kept in order.
- Documents of draft-04, whose exclusive bounds are booleans.
- RefRelocation.EnvelopeAcceptsBusinessResults: pointers are sequences of reference tokens, so the escapes of section 4 of RFC 6901 are not spelled out; a business schema with a nested `$id`, with a key twice, or with a local reference to something that is not a schema is outside the statement.
- FailureEnvelope.EnvelopeAcceptsFailures: the schema of error metadata is arbitrary and evaluated where it stands, and how long a string is stays with the validator.
- RefRelocation.RelocationPreserves: validation follows a number of references and fails where it runs out; the statement holds at each number, and for a schema whose references end it is about the verdict itself. A `$dynamicRef` is followed like a `$ref`.
- Normalising raw and legacy results.
- Names of emitted definitions: numbers instead of the text the projection builds around them.
- TreeIds.ResolveReferences: dependency references and the other columns of a task dictionary are not modelled.
- TaskForest.TreesArePermutation: trees are lists of rows; progress, outputs and updates of tree nodes are not modelled.
- TreeCloning.TreeCloner.Clone: the columns a clone copies or resets apart from identifiers and dependencies, archives and links to frozen tasks.
- Finding the dependents and dependencies that extend a subtree before it is cloned.
- UsageDelivery.UsageFeed.Acknowledge: the time of delivery is a flag.
- Retry.ExecuteWithRetry: outcomes, jitter draws and cancellation are given sequences; waiting and the recording of each attempt are not modelled.
- The heartbeat, polling and renewal loops as tasks of an event loop, and clock skew between nodes.
- Redaction itself, credentials, servers, extensions, scheduling polls and storage models, which would add plumbing or easy members.
