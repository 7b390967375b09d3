# Verification of the NA-SSO lifecycle and synchronization protocol

NA-SSO keeps one local account per user and propagates it to external targets. A request
(create, update, delete, ...) obtains a correlated *operation*, rewrites the user's
per-target *rows*, and queues a *sync run*; the run visits the connectors and folds their
answers back into the rows and the operation; failed rows are retried under the operation
that failed. This project models that protocol and the smaller mechanisms around it, and
proves what holds over every run of them.

## How the model is built

* `Model.dfy` holds the user. `ManagedUser` is the mutable object (fields, a map of rows and
  a map of operations); `Account` is its value at one moment. Every method on the object is
  proved equal to a function on accounts, and the lemmas are about those functions. What the
  functions mean is stated once more without them, on the stored data alone: for the protocol
  in `Calls`, `Ledger`, `Staging` and `Scans`, for the other mechanisms beside them.
* A row also carries `trace`, the events of its target so far (assignment lost, connector
  called with which answer, outcome lost, operation declared unsupported). The program stores no such
  column; it is there so that properties can speak of the past.
* The outside world is a parameter: new identifiers, the clock (one reading per run), and a
  total function giving each connector's answer (accepted, rejected as invalid, failed).
  Where the program drops its database session on an error, the method leaves the object as
  it was saved last: untouched, or, where a sync run raises between two of its commits, with
  the part of the run that was committed. The connector loop of a run follows the order in
  which the database lists the rows; all other loops over rows take them in any order.
* `Protocol.Step` splits each route and worker into atomic steps, so the runs considered
  include every interleaving of complete steps, not only those the routes produce. The row
  loop of one run is a single step, as the per-user lock intends. Every step of a run has
  its own configuration, so targets come, go and are retired in between. A purge ends an
  account and is modelled apart from its runs (`OpenOperations.PurgeUser`).

| file | content |
|---|---|
| `Lifecycle.dfy`, `Operations.dfy` | conflict rules, terminal tables, operation table |
| `Assignments.dfy`, `Pending.dfy`, `ProfileApplication.dfy` | intents, exceptions, `_set_pending`, profile confirmation |
| `Sync.dfy`, `Workers.dfy` | the sync run; hand-off, expiry and retry workers |
| `Calls.dfy`, `Ledger.dfy`, `Staging.dfy`, `Scans.dfy` | what runs, requests, selections and scans ask and store, stated on the stored data |
| `Protocol.dfy` | invariant over every run and its consequences |
| `OpenOperations.dfy`, `Stranded.dfy` | unfinished operations, purge, accounts that get stuck |
| `Runs.dfy`, `Deletion.dfy`, `Credentials.dfy` | outcome of runs: ensure, delete, password |
| `RateLimiter.dfy`, `Backoff.dfy`, `TargetProbes.dfy`, `Notifications.dfy` | limits, retry delays, probes, deliveries |
| `Reconciliation.dfy`, `Repair.dfy` | comparison of identities, repair accounting |
| `RepairRuns.dfy` | the sync run behind one repaired finding |
| `Scenarios.dfy`, `MaskingScenario.dfy`, `CrowdingScenario.dfy`, `StallScenario.dfy`, `GateScenario.dfy`, `RepairScenario.dfy`, `RetirementScenario.dfy` | concrete runs from a new account |
| `Refids.dfy`, `Crl.dfy` | certificate revocation lists (reason codes of section 5.3.1 of RFC 5280) |

## Where the code departs from its own promises

These properties are false of the code as one would first state them. Each is proved with
its exact condition.

* **A run breaks at the failure after the 1024th** (`SyncInterruptedIff`, `InterruptedRows`,
  `NextFailureBreaks`; reached in `OffboardingMasked`). The unclamped backoff multiplies a
  floating-point base by 2^1024, which raises. The run has by then committed its operation as
  running and the row as pending without a retry; nothing takes the exception, so a scan of
  due retries ends with it (`RetryBatchCompletesIff`), as does a repair (`ExecuteRepair`), and
  a queued ensure operation or a deletion is left running (`FreshEnsureOperationFinishes`,
  `DeletionStaysRunningIff`).
* **A failed offboarding is masked by such a run** (`FailedOffboardingIsMaskedIff`,
  `VisitMasksIff`, `MaskedRowForgotten`). A pending row without its target shows as unassigned
  and disabled, although no disable was accepted; no retry is left, and a manual one completes
  the operation without asking the target (`MaskedOperationSucceeds`).
* **A due retry can be refused** once its operation was left running by such a run and then
  superseded (`DueRetryRuns`), or was settled by other steps after the batch was read
  (`StaleRetryRefusedIff`). Without interruptions every failed row names a failed operation
  (`UninterruptedRunsNameFailures`).
* **A deletion cannot finish while a row is unassigned** (`DeleteRouteCompletesIff`,
  `UnassignedRowBlocksDeletion`; reached in `ConfirmedDeletionStalls`). A deletion also visits
  rows that are no longer assigned; their confirmed deletion is stored as `ok`, which an
  unassigned row normalises to `unassigned`, and that is not terminal for a deletion. The
  operation stays running.
* **A repair of one target dates the whole deletion** (`TargetedDeletionCompletesIff`; reached
  in `RepairDatesDeletion`). A fresh deletion run for one target counts that target's row
  only, so the account is marked deleted although another target refused.
* **The password-change gate lasts for one run** (`PasswordGateEndsAfterOneRun`; reached in
  `RetryPassesGate`). If the disable that guards the change fails or is declared unsupported,
  the row's marker is gone, and the next ensure run, which is usually the row's own automatic
  retry, asks that target to create or update the account. Within that one run the gate is
  passed only by rows the run itself creates (`FreshRowsEscapeGate`).
* **Two operations can be unfinished at once** (`SyncKeepsAtMostOneIff`,
  `RequestKeepsAtMostOneIff`; reached in `TwoOperationsUnfinished`). A retry revives its failed
  operation without looking at what is queued; the two coexist if its run breaks, or if none
  of the rows the revived one is counted by fails and one of them stays open. The queued one is then no longer
  the user's active operation (`SyncKeepsPointerIff`).
* **An account can be stranded behind a running operation** (`SyncStrandsIff`,
  `OnlyOvertakingStrands`; reached in `AccountStranded`). Starting a queued operation does not
  make it the active one. If its run takes all rows of the operation that is active and
  running, no row carries that one any more, no retry reaches it, and every request but a
  deletion is refused.
* **A purge leaves unfinished operations behind** (`PurgeOrphans`; reached in
  `PurgeLeavesRepairBehind`). It starts and succeeds beside them, and its user is gone.
* **A repaired finding need not have been repaired** (`RepairedMeansAcceptedIff`). A repair
  whose row is out of its run's scope, as one that waits for a password change, succeeds
  without asking the target anything.
* **Applying a profile can take access away** where rows and intents disagree beforehand
  (`ConfirmedAssignmentsIff`): exactly the current targets that the profile names and an
  exception excludes, and those no longer configured.
* **A user named "absent"** is confused with the word the comparison uses for a missing
  account (`MissingAccountDriftsIff`, `DestructiveIff`).
* **Retry requests** (`RetryRequestsNeverAccepted`). The module comment of
  `na_sso/lifecycle.py` lists retry among the requests that reuse an operation. A failed
  operation is never active, so no such request is ever accepted; retries resume the
  operation directly.
* **Waiting as long as `Retry-After` says** can be refused once more, since the time is cut
  off to whole seconds (`RetryAfterSufficesIff`).

## Model

| member | source | states |
|---|---|---|
| `Protocol.FailedOffboardingIsMaskedIff` | na_sso/lifecycle.py:224-248 | over every run from a new account, under any changes of the configuration, a row without its target shows as finished offboarding exactly when the last thing since was a disable or delete the target accepted or one whose outcome was lost, which takes more than 1024 failed calls without an accepted one; otherwise it shows as disabling, failed or unsupported; nothing but disables and deletes was asked |
| `Protocol.FailedOffboardingIsNeverMasked` | na_sso/users.py:203-207 | as long as at most 1024 calls to a target failed without one accepted in between, an unassigned row shows as finished offboarding exactly when its last event since is an accepted disable or delete |
| `Protocol.VisitMasksIff` | na_sso/sync.py:202-242 | a visit of a row that waits for its disable masks it if and only if it breaks: supported, asked, failed, and at least 1024 failures counted before |
| `Protocol.MaskedRowForgotten` | na_sso/sync.py:141-153 | a masked row has no retry and is in scope of no run but a deletion |
| `MaskingScenario.OffboardingMasked` | na_sso/sync.py:230-242 | a concrete run from a new account, at any times: the disable and 1023 retries fail, the next retry breaks, and the row shows as unassigned and disabled |
| `MaskingScenario.MaskedOperationSucceeds` | na_sso/sync.py:268-329 | a manual retry then asks nothing and completes the operation |
| `RetirementScenario.RetiredTargetReturns` | na_sso/db.py:128-146 | a concrete run: a target that is no longer configured is retired, comes back, is selected and unassigned, and then waits for a disable |
| `Protocol.RunsKeepInv` | na_sso/sync.py:81-340 | every sequence of requests, selections, edits, sync runs, hand-offs, expiries and retirements, each under its own configuration, keeps the invariant tying rows, traces, retries, operations and supersession together |
| `Protocol.SyncKeepsInv` | na_sso/sync.py:108-340 | one sync run, whatever its arguments and the connectors' answers, interrupted or not, keeps that invariant |
| `Protocol.SelectKeepsInv` | na_sso/users.py:184-232 | setting a selection keeps that invariant |
| `Protocol.RetriesAreScheduledExactly` | na_sso/sync.py:217-242 | a retry is scheduled for exactly the failed rows; each has a positive attempt count and names an own operation that failed or, after an interruption, is running or superseded |
| `Protocol.UninterruptedRunsNameFailures` | na_sso/sync.py:217-242 | over every run without an interruption the operation a failed row names has failed and may resume |
| `Protocol.DueRetryRuns` | na_sso/sync.py:343-364 | a due retry is never skipped; it is refused exactly when its operation was superseded, interrupted exactly when its visit breaks, and otherwise completes, under the operation the row was recorded with |
| `Protocol.DueRetryAsksIff` | na_sso/sync.py:167-210 | a due retry asks its target if and only if the target is configured and supports the operation; without a connector the row stays due unchanged |
| `Protocol.StaleRetryRefusedIff` | na_sso/sync.py:343-364 | after any steps since the batch was read, an entry is refused if and only if its operation is settled by then |
| `Protocol.RetryBatchCompletesIff` | na_sso/sync.py:343-364 | a batch of retries, read before the first of them runs, completes if and only if none of its visits breaks |
| `Scans.RetryDue` | na_sso/sync.py:343-364 | the scan starts a retry for exactly the unretired failed rows scheduled at or before the clock, in turn up to the first exception; every other row stays untouched, the invariant is kept, and the scan comes to its end exactly when no entry's operation is superseded and no entry breaks |
| `Scans.ScanFinishesIff` | na_sso/sync.py:343-364 | that condition, by the rows, the operations and the answers before the scan |
| `Scans.FinishedScanRunsEach` | na_sso/sync.py:357-363 | a scan that comes to its end has run the retry of each entry exactly once: its row is what that one retry leaves, whatever the other entries did |
| `Scans.ScanAsksIff` | na_sso/sync.py:347-363 | a scan changes nothing of a row whose retry has not come due; one that comes to its end asks the target of every other one for exactly what a run of that row under its own operation asks |
| `Scans.ScanStores` | na_sso/sync.py:202-242 | such a scan leaves the row in the state, with the counter and the retry, that the one answer calls for |
| `Scans.StreakScannedIff` | na_sso/sync.py:351-355 | after the k-th consecutive failure of a row at time s, a scan takes the row up if and only if it comes at or after s plus the k-th delay |
| `Protocol.LateRunChangesNothing` | na_sso/operations.py:153-172 | a run for a given own operation is refused without changing anything if and only if that operation succeeded, was cancelled or is blocked |
| `Protocol.SettledOperationsStaySettled` | na_sso/operations.py:110-172 | over every run a succeeded or cancelled operation keeps its record unchanged |
| `Protocol.CancelledExactlyWhenSuperseded` | na_sso/operations.py:132-150 | over every run only deletions supersede, each a different cancelled operation that is no deletion, and an operation is cancelled exactly when one deletion supersedes it |
| `Protocol.TargetedRunFrame` | na_sso/sync.py:131-154 | a targeted run changes no row but its target's |
| `OpenOperations.FirstCrowdingStepDecides` | na_sso/operations.py:110-172 | over every run at most one operation is unfinished until the first step that crowds the account, a condition on the account and step alone, and two are unfinished right after it |
| `OpenOperations.OrderlyRunsKeepPointer` | na_sso/operations.py:110-172 | over runs that revive no failed operation beside an unfinished one, the unfinished operation, if any, is the active one |
| `OpenOperations.RequestKeepsAtMostOneIff` | na_sso/operations.py:110-150 | a request keeps at most one operation unfinished if and only if it does not create one beside an unfinished one it does not supersede |
| `OpenOperations.RequestKeepsPointerIff` | na_sso/lifecycle.py:113-141 | a request keeps every unfinished operation the active one if and only if it is not a purge beside an unfinished operation |
| `OpenOperations.SyncKeepsAtMostOneIff` | na_sso/sync.py:108-163 | a run leaves two operations unfinished if and only if it revives or creates one beside an unfinished one and, by the rows, the configuration and the answers, a visit breaks, or no row it is counted by fails and one stays open |
| `OpenOperations.SyncKeepsPointerIff` | na_sso/operations.py:153-172 | a run keeps every unfinished operation the active one if and only if it does not revive a failed operation while another is active |
| `OpenOperations.PurgeUser` | na_sso/users.py:1163-1188 | the purge of a deleted user: request, finish, and the history that stays; refused otherwise |
| `OpenOperations.PurgeOrphans` | na_sso/users.py:1163-1188 | what is unfinished after a purge is exactly what was before, all earlier records stay, and the purge has succeeded |
| `CrowdingScenario.TwoOperationsUnfinished` | na_sso/sync.py:108-163 | a concrete run from a new account after which two operations are unfinished |
| `Stranded.SyncStrandsIff` | na_sso/operations.py:175-181 | after a run the active operation is running and carried by no row if and only if the run was turned away and it was so before, or it worked on a queued operation beside the running active one and scoped all its rows |
| `Stranded.StepStrandsIff` | na_sso/sync.py:152-163 | the same for every step of the protocol |
| `Stranded.OnlyOvertakingStrands` | na_sso/sync.py:152-163 | over every run, an account is stranded only by a run that overtakes its running operation |
| `Stranded.OpenRowSurvivesIff` | na_sso/sync.py:268-329 | a running operation that is active after a run has an open row if and only if: overtaken, one of its open rows was out of the run's scope; its own run broke, one was left open by that, which only a masked row prevents; always otherwise |
| `Stranded.StrandedAccountRefusesRequests` | na_sso/lifecycle.py:102-141 | a stranded account refuses every request but a deletion and, once deleted, a purge |
| `Stranded.RetriesMissStrandedOperation` | na_sso/users.py:960-990 | no retry of any row changes the operation a stranded account waits for |
| `CrowdingScenario.AccountStranded` | na_sso/sync.py:152-163 | a concrete run from a new account after which all rows are `ok`, the account is stranded and an update is refused |
| `Operations.RequestOperation` | na_sso/operations.py:110-150 | the request leaves the user and returns the operation as specified by mode: conflict, reuse, supersede (cancel, then create) or start |
| `Ledger.RequestRecords` | na_sso/operations.py:110-150 | a request in full, by the record the user points at: when it is refused, which operation it is granted, and what is then on record of the new one (command, target, what it overrides), of the overridden and of every other one |
| `Operations.ResumeOperation` | na_sso/operations.py:153-172 | resumes queued, running and failed operations, refuses all others without a change |
| `Operations.FinishOperation` | na_sso/operations.py:218-235 | sets status and counters and clears the active pointer only if it names the operation |
| `Operations.RetryRequestsNeverAccepted` | na_sso/operations.py:119-131 | a retry request always ends in a conflict |
| `Lifecycle.ConflictRules` | na_sso/lifecycle.py:102-141 | each documented conflict rule as an equivalence between the mode and the state of the active operation |
| `Runs.FreshEnsureOperationFinishes` | na_sso/sync.py:156-329 | a run on a queued ensure operation leaves it running if and only if a visit breaks; otherwise it finishes it for any rows and answers: completed and total targets equal the scope, it is not the active one any more, and the status is succeeded, failed or partially failed according to none, all or some scoped rows failing |
| `Runs.DeletionCompletesExactly` | na_sso/sync.py:268-329 | with every row assigned and configured or retired, a deletion is dated and succeeded after its first run and any retries if and only if every row that is not retired is `ok`; otherwise it is resumable, and failed unless a run was interrupted; afterwards nothing changes |
| `Runs.DeletionStaysRunningIff` | na_sso/sync.py:230-242 | a retry leaves such a deletion running if and only if its visit breaks |
| `Runs.RunEndsAsForecast` | na_sso/sync.py:268-329 | how any run ends is decided by the rows, the configuration and the answers beforehand: it succeeds when no counted row fails or stays open, stays running when a visit breaks or none fails and one stays open, and fails otherwise |
| `Runs.SyncInterruptedIff` | na_sso/sync.py:202-242 | a run is interrupted after its commits if and only if it has an operation to work on and a visit breaks; its operation is left running, nothing is dated and the password kept |
| `Runs.InterruptedRows` | na_sso/sync.py:156-203 | the rows it leaves: the breaking one pending, without a retry, its counter unchanged; those listed before it as visited; the others only stamped |
| `Runs.DeletionCompletesIff` | na_sso/sync.py:131-140 | without conditions on the rows: a run over all targets completes the deletion if and only if every row permits it |
| `Runs.TargetedDeletionCompletesIff` | na_sso/reconcile.py:365-371 | a fresh deletion run for one target dates the deletion if and only if that target has no row or its row permits it; the other rows neither matter nor change |
| `RepairScenario.RepairDatesDeletion` | na_sso/reconcile.py:365-371 | a concrete run from a new account: one target refuses the deletion, and the repair of the other dates it |
| `RepairScenario.PurgeLeavesRepairBehind` | na_sso/users.py:1163-1188 | ... and a purge then leaves a queued repair unfinished |
| `Runs.UnassignedRowBlocksDeletion` | na_sso/lifecycle.py:238-247 | an unassigned row stamped with the deletion keeps it from completing under every later run |
| `Deletion.DeleteUser` | na_sso/users.py:903-923 | the delete route up to its queued run; a deletion request is always granted |
| `Staging.DeletionAcceptedIff` | na_sso/users.py:917-924 | the route raises if and only if a current target is not configured or the root account has one |
| `Staging.DeletionStages` | na_sso/users.py:913-924 | otherwise the account is wanted deleted and no longer dated, its current rows start over, and the operation is the one a deletion request is granted |
| `Deletion.DeleteRouteCompletesIff` | na_sso/users.py:903-941 | route and run together complete the deletion if and only if every row that is not retired is assigned and every current target supports and confirms the delete |
| `StallScenario.ConfirmedDeletionStalls` | na_sso/sync.py:281-312 | a concrete run from a new account: its target is unassigned and confirms the disable, the delete route's run is confirmed too, and the operation stays running |
| `Sync.SyncUser` | na_sso/sync.py:81-340 | the run, loop by loop, produces the account whose rows `Calls.RunStores` and whose records `Ledger.RunRecordsAll` describe; when it is skipped or its operation refused nothing changes, and when a visit raises what was committed stays |
| `Calls.RunAsksIff` | na_sso/connectors/base.py:206-222 | a run asks a target to create or update, to disable or to delete the account if and only if the row is taken and comes to its turn, the target offers the operation, no credential lacks, and it is the one intended: delete for a user who is to go; else disable for a disabled or expired user, an unassigned row or one that guards a password change; else ensure |
| `Calls.RunStores` | na_sso/sync.py:174-242 | what a run leaves in each row: the state, counter and retry that the answer calls for where the target was asked, `unsupported` where it does not offer the operation, and the row as it was otherwise |
| `Calls.RunStampsIff` | na_sso/sync.py:131-153 | a row carries the run's operation afterwards if and only if it carried it before or the run takes it or, as a deletion, its target |
| `Calls.BarredRunsAskNoEnsure` | na_sso/connectors/base.py:216-222 | over every run, as long as the user is disabled or the password expired, no target is asked to create or update the account |
| `Ledger.RunTakesOperation` | na_sso/sync.py:108-129 | which operation a run works on and when it is skipped or refused, by the tables: the user's own one it is given, else the failed one of its target's row, else one it requests under the command of its actor |
| `Ledger.RunInterruptedIff` | na_sso/sync.py:230-242 | a run is interrupted if and only if it takes a row whose target, asked, fails after 1024 counted failures |
| `Ledger.RunRecordsAll` | na_sso/sync.py:152-329 | what a run leaves of its operation (target, totals, counts, status by the rows that carry it), of the overridden and every other record, of the user's active operation, the deletion date and the password |
| `Sync.VisitTarget` | na_sso/sync.py:167-257 | one visit, statement by statement, asks and stores what `Calls.RunAsksIff` and `Calls.RunStores` say of its row, and raises exactly when the delay of the next retry cannot be computed |
| `Sync.ConcludeOperation` | na_sso/sync.py:268-329 | counting the stamped rows settles status, counters, pointer, deletion date and pending password as `Ledger.RunRecordsAll` says |
| `Workers.CredentialHandoff` | na_sso/sync.py:39-56 | stages the password for exactly the waiting rows, then runs over all targets under the hand-off command; refuses initial and reset decisions |
| `Workers.ExpireDue` | na_sso/sync.py:367-401 | marks exactly the current rows of an overdue, active user for the expiry disable, then runs over all targets under the expiry command; `Staging.ExpiryDisables` says what that run asks |
| `Staging.HandoffStages` | na_sso/sync.py:39-55 | a hand-off is taken up if and only if some current row awaits credentials, is disabled for expiry or waits for a password change, and the decision is neither initial nor reset; exactly those rows become pending |
| `Staging.ExpiryStages` | na_sso/sync.py:374-389 | which user expires, and that exactly the current rows then wait for their disable, without a retry |
| `Staging.ExpiryDisables` | na_sso/connectors/base.py:216-221 | the run after an expiry asks every current row it comes to for the disable, where the target offers it, and for nothing else; accepted, the row is stored as disabled for expiry |
| `Pending.SetPending` | na_sso/users.py:184-232 | the two loops rewrite secret, exceptions and rows as `Staging.SelectionStoresPassword` and `Staging.SelectionStoresRows` say, or nothing changes when it raises |
| `Staging.SelectionAcceptedIff` | na_sso/users.py:197-212 | a selection is refused if and only if it selects something for the root account or a target that is not configured |
| `Staging.SelectionStoresPassword` | na_sso/users.py:190-193 | the password afterwards is gone if a change is demanded, else the supplied one, else the old one |
| `Staging.SelectionStoresRows` | na_sso/users.py:203-232 | each state a selected row can get under its exact condition, and what becomes of the rows that are not selected |
| `Staging.SuppliedPasswordSurvives` | na_sso/sync.py:312-329 | a supplied password is still pending after the selection and any sequence of runs, unless one of them delivered it |
| `Staging.WaitingRowNotAsked` | na_sso/sync.py:190-195 | while no password is stored, no ensure run asks a target whose row awaits credentials for anything |
| `Staging.NewTargetAskedIff` | na_sso/users.py:227-230 | a newly assigned target that takes a password is asked for the account by the next ensure run that comes to it if and only if a password is pending |
| `Credentials.PasswordGateHolds` | na_sso/users.py:218-227 | after a password change is demanded, the next ensure run asks no target to create or update the account, keeps no password, and leaves every selected row waiting, failed or unsupported, or, where it is interrupted or over another target, still waiting for its disable |
| `Credentials.PasswordGateEndsAfterOneRun` | na_sso/sync.py:167-174 | the run after that, over all targets or over the row's own as its automatic retry is, asks exactly the targets it reaches whose row failed or was unsupported, where creating is supported and the user is active |
| `GateScenario.RetryPassesGate` | na_sso/sync.py:343-364 | a concrete run from a new account: a reset is demanded, the guarding disable fails, and its due retry asks for the account |
| `Credentials.FreshRowsEscapeGate` | na_sso/sync.py:100-106 | the only account the gate's statement excludes: one without rows and without a configuration file is given fresh rows, and the exact ones that are asked for the account |
| `Credentials.EnsureRequestedIff` | na_sso/connectors/base.py:206-222 | the exact condition under which a run without a password asks a target for the account while a change is awaited |
| `Credentials.PasswordDroppedIff` | na_sso/sync.py:312-329 | a run drops the pending password exactly when its ensure operation succeeds while at least one configured target is assigned and all of them are `ok` |
| `Credentials.PasswordSurvivesUntilDelivered` | na_sso/sync.py:312-329 | over any sequence of runs, each under its own configuration, the password is unchanged, or one run of it dropped the unchanged password and left every target assigned and configured then `ok` |
| `Assignments.ResolveAssignmentIntents` | na_sso/assignments.py:54-82 | the loop over the exceptions, in any order, computes the target-by-target definition of the intents |
| `Assignments.ResolvedIff` | na_sso/assignments.py:54-82 | which targets are intended and with which memberships, by the user's profile or current rows, the configuration and the exceptions |
| `Assignments.RecordModes` | na_sso/assignments.py:93-118 | the recording loop produces exactly the exceptions that say something |
| `Assignments.RecordedIff` | na_sso/assignments.py:93-118 | a target has an exception after recording if and only if selection and profile differ at it or its memberships are edited; without a profile nothing is recorded |
| `Assignments.RecordedSelectionResolvesToItself` | na_sso/assignments.py:85-118 | after recording, the intents are the selection if and only if every added target is configured |
| `Assignments.RecordingPreservesEdits` | na_sso/assignments.py:103-118 | recording keeps every target's membership additions and removals and is idempotent |
| `Assignments.RecordedMemberships` | na_sso/assignments.py:72-81 | the memberships of a recorded target: base or default, plus additions, minus removals |
| `ProfileApplication.RowsFollowSelection` | na_sso/users.py:203-217 | after a selection is set the assigned rows are exactly the selection, none retired |
| `ProfileApplication.RecordedSelectionAgrees` | na_sso/users.py:198-217 | under a profile, rows, selection and resolved intents agree after a recorded selection |
| `ProfileApplication.ResolvedSelectionAgrees` | na_sso/assignments.py:397-405 | they also agree, with or without a profile, when the resolved intents are passed with recording off |
| `ProfileApplication.UnrecordedSelectionAgreesIff` | na_sso/assignments.py:89-91 | without a profile they agree if and only if no standing exception contradicts the selection |
| `ProfileApplication.ConfirmProfile` | na_sso/assignments.py:371-414 | the confirmation either applies completely or, on a conflict or an unknown target, changes nothing |
| `ProfileApplication.ConfirmedAssignmentsIff` | na_sso/assignments.py:371-405 | for any rows and exceptions: exactly which targets a confirmation leaves assigned, and which current ones it takes away |
| `ProfileApplication.ConfirmedExceptions` | na_sso/assignments.py:386-396 | a confirmation records an inclusion of exactly the current targets outside the profile; every other exception and all membership edits stay |
| `ProfileApplication.ConfirmedMemberships` | na_sso/assignments.py:72-81 | the memberships intended afterwards: the profile's or the target's default ones, with the edits that stood before |
| `Staging.ConfirmationRecords` | na_sso/assignments.py:398-404 | a confirmation conflicts if and only if the user's operation is unfinished; otherwise it requests an update and keeps the password |
| `Staging.ConfirmationStages` | na_sso/users.py:203-232 | each intended target gets the row of a plain selection, every other one that of a deselection |
| `ProfileApplication.ApplyingProfileOnlyAdds` | na_sso/assignments.py:371-405 | where rows and intents agree, the assigned targets afterwards are the old ones plus the profile's targets that are not excluded, and the intents agree |
| `RateLimiter.Limiter.RateLimit` | na_sso/api_contract.py:86-109 | the eviction loop decides as specified and touches one identity's deque only |
| `RateLimiter.WindowBound` | na_sso/api_contract.py:88-104 | for every history with a clock that does not go back, no interval (t-60, t] holds more than the limit of admissions |
| `RateLimiter.EveryWindowBound` | na_sso/api_contract.py:86-104 | the same for every identity when any number of them send requests in any order |
| `RateLimiter.ServedAlone` | na_sso/api_contract.py:88-90 | identities do not interfere: each one's history is that of its own requests |
| `RateLimiter.Serve` | na_sso/api_contract.py:86-109 | the limiter answers a sequence of requests of any identities as those histories say |
| `RateLimiter.AdmittedIff` | na_sso/api_contract.py:91-107 | a request is admitted if and only if fewer than the limit were admitted in the window ending with it; a refusal asks for 1 to 60 seconds |
| `RateLimiter.AdmittedAgainIff` | na_sso/api_contract.py:91-98 | a refused identity is admitted again from the moment the oldest of its last `limit` admissions leaves the window, and not before |
| `RateLimiter.RetryAfterSufficesIff` | na_sso/api_contract.py:93-98 | waiting exactly as long as asked is enough if and only if at most a second or a whole number of seconds was left; one second longer always is |
| `Backoff.DelayMonotoneAndCapped` | na_sso/notifications.py:177-182 | the delays as exact numbers never shrink with the attempt number and never exceed the cap |
| `Backoff.DelayDoubles` | na_sso/notifications.py:177-182 | the first delay is the base and each next one twice the one before, up to the cap |
| `Backoff.ClampedDelayDoubles` | na_sso/target_credentials.py:152-156 | the delays of probes double up to the 31st failure and then stay |
| `Backoff.TotalDelayBound` | na_sso/notifications.py:177-182 | n failures wait at most base * (2^n - 1) and at most n times the cap |
| `Backoff.ScaledIsPowerOfTwo` | na_sso/reconcile.py:187-190 | repeated doubling is multiplication by the power of two |
| `Backoff.ClampIsInvisible` | na_sso/target_credentials.py:152-156 | clamping the exponent at 30 changes no delay if and only if base * 2^30 reaches the cap |
| `Runs.FailureStreakBacksOff` | na_sso/sync.py:230-241 | up to 1024 consecutive failures of one row leave one retry, scheduled at the capped backoff of the streak, and together wait the sum that `Backoff.TotalDelayBound` bounds |
| `Runs.NextFailureBreaks` | na_sso/sync.py:240 | the failure after that breaks its run and schedules nothing |
| `TargetProbes.TargetCredential.RecordProbe` | na_sso/target_credentials.py:133-158 | one probe result updates counter, schedule and proof as specified |
| `TargetProbes.ProbeHistory` | na_sso/target_credentials.py:133-158 | after any history the counter is the failure streak, a probe is scheduled exactly while it is positive, at the clamped delay, the credential is verified exactly when the history proves it and since then, and the last result and the last success are those of the history |
| `Notifications.Outbox.Enqueue` | na_sso/notifications.py:71-169 | the loop over the destinations and the mail branch queue an event as specified |
| `Notifications.EventReachesSubscribers` | na_sso/notifications.py:71-169 | after an event the queue holds what it held and one delivery for exactly each active, subscribed destination, and by mail exactly where channel, template and address exist; none twice, none lost |
| `Notifications.EventQueuedIff` | na_sso/notifications.py:71-169 | the same by position: each addition is due at once, never attempted and under the key of kind, event and address cut to 256 characters, and exactly the webhooks that are enabled, subscribed and not switched off, and the mail channel, hold the event |
| `Notifications.Outbox.DeliverDueOnce` | na_sso/notifications.py:247-329 | with notifications on, a due delivery is attempted if and only if fewer than a hundred due ones stand before it, ends delivered, failed, parked or rescheduled at the backoff of its count, and no other one changes; the result is the number due, at most a hundred |
| `Notifications.ScanAttemptsIff` | na_sso/notifications.py:252-258 | the same of a scan within a run of the queue |
| `Notifications.ScansReach` | na_sso/notifications.py:252-258 | no delivery starves: whatever the answers, a due one is attempted by one of as many scans as there are hundreds of attempts left before it |
| `Notifications.ScansReachSoon` | na_sso/notifications.py:252-258 | within a time shorter than the first delay, by one of as many scans as there are hundreds due before it |
| `Notifications.Outbox.Attempt` | na_sso/notifications.py:185-244 | one delivery is disabled, delivered, failed or rescheduled as specified |
| `Notifications.Outbox.Toggle` | na_sso/notifications.py:389-409 | disabling parks the queued deliveries of the destination, enabling queues the parked ones |
| `Notifications.TogglesIff` | na_sso/notifications.py:389-409 | which switches are accepted, and what becomes of every delivery |
| `Notifications.Outbox.Retry` | na_sso/notifications.py:427-470 | an operator retry starts over with no attempts, for failed and disabled deliveries of an active destination only |
| `Notifications.OperatorRetriesIff` | na_sso/notifications.py:427-470 | which operator retries are accepted, and that they change one delivery only |
| `Notifications.RunsKeepQueue` | na_sso/notifications.py:185-325 | over every run: scheduled exactly while queued, one attempt per send since the last operator retry and never more than the maximum, exactly the maximum when failed, delivered exactly when the last attempt succeeded, at most one delivery per destination and event |
| `Notifications.DeliveredStaysDelivered` | na_sso/notifications.py:262-270 | no later step touches a delivered message |
| `Reconciliation.CompareSnapshot` | na_sso/reconciliation.py:144-238 | the report is built field by field, in order, with the states and values that `Reconciliation.WantedFieldsStand`, `WantedFieldsShow` and `UnwantedFieldsStand` give |
| `Reconciliation.ReportsHoldSixFields` | na_sso/reconciliation.py:26-32 | every report holds the six fields once each, in order |
| `Reconciliation.WantedFieldsStand` | na_sso/reconciliation.py:155-238 | for a wanted identity and any capabilities, when each field matches, drifts, is unknown or unsupported, by the user's own data: status "disabled" for a disabled user and "active" otherwise, the stored display name or, without one, the username |
| `Reconciliation.WantedFieldsShow` | na_sso/reconciliation.py:155-238 | the desired and the observed value each field shows |
| `Reconciliation.UnwantedFieldsStand` | na_sso/reconciliation.py:164-178 | an unwanted identity is compared by presence alone; its other fields are not read |
| `Reconciliation.FullInspectionInSyncIff` | na_sso/reconciliation.py:75-82 | with full, exact inspection a wanted identity is in sync if and only if the observation equals the user's own data in every respect |
| `Reconciliation.UnwantedIdentityStatus` | na_sso/reconciliation.py:155-178 | an unwanted identity is in sync, drifted or unknown exactly as it is absent, present or unread |
| `Reconciliation.UnreadableNeverDrifts` | na_sso/reconciliation.py:241-258 | an unreadable target is unknown, never drifted |
| `Reconciliation.MissingAccountDriftsIff` | na_sso/reconciliation.py:159-160 | a wanted, missing account is drift if and only if the user is not called "absent" |
| `Reconciliation.ExtraMembershipsNeverDrift` | na_sso/reconciliation.py:198-215 | memberships drift when they differ, or under inexact inspection only when a required one is missing |
| `Reconciliation.MarkingRemovesDriftOnly` | na_sso/reconciliation.py:93-118 | marking replaces all drift by the limitation, keeps everything else, is idempotent, and changes a report exactly when it had drift |
| `Repair.TallyInspections` | na_sso/reconcile.py:146-171 | the counting loop computes the three counts and all findings |
| `Repair.CountsAreExact` | na_sso/reconcile.py:150-158 | the counts are the numbers of reports that drift, that are unread, and that ask for a removal |
| `Repair.FindingsAreFields` | na_sso/reconcile.py:159-171 | the findings are the fields of the reports, in order, each with its desired and its observed value |
| `Repair.RefreshReconciliation` | na_sso/reconcile.py:94-204 | a discovery ends previewed, retrying or failed as specified; over too many users it fails with the counts it had and no findings |
| `Repair.DiscoveryEnds` | na_sso/reconcile.py:107-194 | a discovery fails over too many users or, when scheduled, if a target is unread at the last attempt; it is retried, at the capped backoff, if one is unread before that, and previewed otherwise |
| `Repair.DiscoveryCounts` | na_sso/reconcile.py:172-175 | what it counts; over too many users it keeps the counts it had |
| `Repair.ApprovedIff` | na_sso/reconcile.py:237-273 | a preview is approved if and only if the token is right, it has drift, and removals among it are confirmed |
| `Repair.TallyConserves` | na_sso/reconcile.py:146-175 | destructive targets are among the drifted, and drifted and unknown together are at most all |
| `Repair.DestructiveIff` | na_sso/reconcile.py:156-158 | a target counts as destructive exactly when an unwanted account is present, or a wanted user "absent" is found under another name |
| `Repair.GroupsMatchDrifted` | na_sso/reconcile.py:290-297 | there are as many distinct repair groups as drifted targets |
| `Repair.RepairGroups` | na_sso/reconcile.py:290-297 | the groups are the drifted pairs, without duplicates |
| `Repair.ExecuteRepair` | na_sso/reconcile.py:300-411 | every drift finding ends with its group's outcome, each group is counted once, and run and parent status follow from the two counts; where a group's sync raises, the repair breaks off there and run and parent stay running |
| `Repair.MissingInPreviewIff` | na_sso/reconcile.py:329-332 | in a preview an account counts as missing if and only if it is wanted and not there, or there under the name "absent", for a user who is not called so |
| `Repair.RepairOutcomes` | na_sso/reconcile.py:323-365 | the four outcomes of a group and its breaking off, each under its exact condition on the compared identity and on what the repair meets |
| `Repair.RepairedFindings` | na_sso/reconcile.py:323-411 | a repair that ends changes the repair state of exactly the drifting findings, to the outcome of their group |
| `RepairRuns.RepairedMeansAcceptedIff` | na_sso/reconcile.py:365-386 | a repaired target accepted a call in its run if and only if its row was in scope, configured, not retired and not passed over; otherwise nothing was asked of it |
| `Repair.RepairConserves` | na_sso/reconcile.py:267-273 | from preview over approval to the end of the repair: repaired and failed add up to the parent's total, which is the number of drifted targets and of groups, and decide the run's status |
| `Refids.PrintParseRoundTrip` | na_sso/mock_targets/app.py:988-994 | printing refids and parsing them gives them back, in any order, if and only if all are nonempty, trimmed and free of commas |
| `Crl.ReadingIsExact` | na_sso/connectors/opnsense.py:293-305 | the connector reads exactly the stored refids of each reason |
| `Crl.WritingIsExactIff` | na_sso/mock_targets/app.py:987-1003 | writing sets back stores the same sets if and only if all refids are clean |
| `Crl.AddClientCertificateToCrl` | na_sso/connectors/opnsense.py:373-412 | after a saved update the list is the old one with the refid added under reason 0 only, if and only if that refid is clean; description and lifetime are kept or, where blank, defaulted, and every refid has the name it is listed or certified under; other lists and refused updates change nothing |
| `Crl.LifetimeNeverBlank` | na_sso/connectors/opnsense.py:385 | the update never carries the blank lifetime the firewall answers with an error |
| `Crl.Firewall.CrlGet` | na_sso/mock_targets/app.py:928-957 | the view shows description and lifetime, offers every listed or certified refid under its name, and selects exactly the listed ones; a list that did not exist is created empty |
| `Crl.Firewall.CrlSet` | na_sso/mock_targets/app.py:960-1004 | the update is refused, answered with an error or stored, a missing reason counting as an empty list, and stored as specified |
| `Crl.EnsureClientCertificate` | na_sso/connectors/opnsense.py:318-371 | a returned refid is the first one of this user and authority that is for clients and on no list; a certificate is requested exactly when there is none |

## Left out

- HTTP routes, templates, sessions, CLI, SMTP and webhook transport, configuration parsing: plumbing around the modelled steps.
- Connector implementations other than the revocation list: replaced by an arbitrary answer per target and run; which memberships are passed to a connector call is not recorded.
- Password hashing, encryption, signatures and x509: a stored secret is an opaque string.
- Rounding of delays, and retry caps so large that the date of a retry leaves the calendar.
- What becomes of a worker whose scan ends with an exception: it is not started again.
- Interleaving inside one sync run: a run is one step, and the clock is read once per run.
- Timestamps, texts and attempt rows of operations: only status, counters, target and supersession are kept.
- Notifications raised by a sync run: the delivery queue is modelled by itself.
- Mapping rows of old databases that carry no target type to configured targets (na_sso/db.py:128-143): only the retirement of rows whose target is gone is modelled.
- Adopting an unmanaged account: it changes a row without resetting its retry time.
- Bulk import, account governance, access reviews, service accounts, MFA: counters and library calls.
- Rows and operations are values in maps of the user object, as the tables keyed by target and identifier are; aliasing between row objects is not modelled.
- Sorting of refids and of displayed sets: the order is irrelevant to the parser and to the comparison.
