/** A run from a new account in which the repair of one target dates the whole deletion, and
    a purge then leaves an operation behind (na_sso/reconcile.py, na_sso/users.py). */
module RepairScenario {
  import opened Prelude
  import opened Lifecycle
  import opened Model
  import opened Operations
  import opened Sync
  import opened Protocol
  import opened Runs
  import opened OpenOperations
  import opened Deletion
  import opened Scenarios

  /** `t` confirms the deletion; `u` does not. */
  function PartialAnswer(t: Target): CallResult {
    if t == U then Errored else Accepted
  }

  /** The delete route, step by step. */
  function DeleteSteps(): seq<Moment> {
    [Moment(BOTH, Asked(Delete, 2)),
     Moment(BOTH, EditUser(WantDelete, false, None, NoDecision, false, None, None, map[])),
     Moment(BOTH, Selected({T, U}))]
  }

  function RepairCall(): SyncCall {
    SyncCall(Some(WantDelete), Some(T), OtherActor, Some(3), UNUSED, 0.0, Accepting, Listing)
  }

  /** Its run ... */
  function DeletionRun(): seq<Moment> {
    [Moment(BOTH, Synchronise(DeleteCall(2, UNUSED, 0.0, PartialAnswer, Listing)))]
  }

  /** ... and a reconciliation repair of `t`. */
  function Repairing(): seq<Moment> {
    [Moment(BOTH, Request(Reconcile, Some(T), 3)), Moment(BOTH, Synchronise(RepairCall()))]
  }

  predicate BeingDeleted(a: Account) {
    && a.userId == 1 && !a.isRoot && a.desired.WantDelete? && a.rows.Keys == {T, U}
    && a.rows[T].isAssigned && !a.rows[T].isRetired && a.rows[U].isAssigned && !a.rows[U].isRetired
  }

  predicate DeletionQueued(a: Account) {
    && BeingDeleted(a) && a.deletedAt.None? && a.ops.Keys == {1, 2} && a.active == Some(2)
    && a.ops[2].status.Queued? && a.ops[2].userId == Some(1)
    && a.rows[U].trace == [Called(EnsureUser, Accepted)] && a.rows[U].attemptCount == 0
  }

  predicate PartlyDeleted(a: Account) {
    && BeingDeleted(a) && a.rows[U].state.Failed? && a.rows[U].operationId == Some(2)
    && a.rows[U].trace == [Called(EnsureUser, Accepted), Called(DeleteUser, Errored)]
  }

  lemma {:induction false} DeletingQueues(a: Account)
    requires Provisioned(a, BOTH) && a.rows[U].trace == [Called(EnsureUser, Accepted)]
    ensures Execute(a, DeleteSteps()).Some? && DeletionQueued(Execute(a, DeleteSteps()).value)
  {
    var run := DeleteSteps();
    var asked := Apply(a, BOTH, run[0].step);
    assert asked == Created(a, Delete, None, None, 2);
    ThreeSteps(a, run);
  }

  predicate DeletionFailed(a: Account) {
    PartlyDeleted(a) && a.deletedAt.None? && a.ops.Keys == {1, 2} && a.active.None? && a.rows[T].operationId == Some(2)
  }

  predicate RepairAsked(a: Account) {
    && PartlyDeleted(a) && a.deletedAt.None? && a.ops.Keys == {1, 2, 3} && a.active == Some(3)
    && a.rows[T].operationId == Some(2) && a.ops[3] == NewOperation(1, Reconcile, Some(T), None)
  }

  predicate DatedAllTheSame(a: Account) {
    PartlyDeleted(a) && a.deletedAt.Some? && a.ops.Keys == {1, 2, 3} && a.active.None?
  }

  lemma PartialRow(a: Account, t: Target)
    requires DeletionQueued(a) && t in a.rows
    ensures
      var call := DeletionRun()[0].step.call;
      var ctx := Context(a, call);
      && ToBeVisited(a.rows[t], t, ctx, BOTH, call) && LifecycleOperationFor(ctx, a.rows[t]).DeleteUser?
      && (t == U ==> WillFail(a.rows, t, ctx, BOTH, call, 2)
                     && !Breaks(ctx, BOTH.connectors[t], a.rows[t], call.answer(t)))
  {
  }

  lemma PartialOutcome(a: Account, after: Account)
    requires DeletionQueued(a) && RunOutcome(a, BOTH, DeletionRun()[0].step.call, 2, after)
    ensures DeletionFailed(after)
  {
    var call := DeletionRun()[0].step.call;
    var ctx := Context(a, call);
    assert T in a.rows && U in a.rows;
    PartialRow(a, T);
    PartialRow(a, U);
    RowVisited(a.rows, T, ctx, BOTH, call, 2);
    RowVisited(a.rows, U, ctx, BOTH, call, 2);
  }

  lemma {:induction false} DeletionRunFails(a: Account)
    requires DeletionQueued(a)
    ensures Execute(a, DeletionRun()).Some? && DeletionFailed(Execute(a, DeletionRun()).value)
  {
    assert T in a.rows;
    GivenRun(a, BOTH, DeletionRun()[0].step.call, 2);
    PartialOutcome(a, Apply(a, BOTH, DeletionRun()[0].step));
    OneStep(a, DeletionRun()[0]);
  }

  lemma RepairOutcome(a: Account, after: Account)
    requires RepairAsked(a) && RunOutcome(a, BOTH, RepairCall(), 3, after)
    ensures DatedAllTheSame(after)
  {
    var call := RepairCall();
    var ctx := Context(a, call);
    assert T in a.rows && U in a.rows;
    RowVisited(a.rows, T, ctx, BOTH, call, 3);
    RowPassed(a.rows, U, ctx, BOTH, call, 3);
    assert WillSucceed(a.rows, ctx, BOTH, call, 3);
  }

  lemma RequestAsksRepair(a: Account)
    requires DeletionFailed(a)
    ensures RepairAsked(Apply(a, BOTH, Request(Reconcile, Some(T), 3)))
  {
    assert Apply(a, BOTH, Request(Reconcile, Some(T), 3)) == Created(a, Reconcile, Some(T), None, 3);
  }

  lemma {:induction false} RepairingDates(a: Account)
    requires DeletionFailed(a)
    ensures Execute(a, Repairing()).Some? && DatedAllTheSame(Execute(a, Repairing()).value)
  {
    var asked := Apply(a, BOTH, Request(Reconcile, Some(T), 3));
    RequestAsksRepair(a);
    assert T in asked.rows;
    GivenRun(asked, BOTH, RepairCall(), 3);
    RepairOutcome(asked, SyncSpec(asked, BOTH, RepairCall()).0);
    TwoSteps(a, Repairing()[0], Repairing()[1]);
  }

  function RepairRun(): seq<Moment> {
    Provisioning(BOTH, Accepting) + DeleteSteps() + DeletionRun() + Repairing()
  }

  /** The deletion failed at `u`, and nothing has been asked of `u` since; the repair of `t`
      alone dates the deletion of the whole account. */
  lemma RepairDatesDeletion()
    ensures
      var after := Execute(NewAccount(1), RepairRun());
      after.Some? && DatedAllTheSame(after.value)
  {
    var start := Provisioning(BOTH, Accepting);
    assert T in BOTH.connectors;
    ProvisioningProvisions(BOTH, Accepting);
    DeletingQueues(Execute(NewAccount(1), start).value);
    ExecuteComposes(NewAccount(1), start, DeleteSteps());
    DeletionRunFails(Execute(NewAccount(1), start + DeleteSteps()).value);
    ExecuteComposes(NewAccount(1), start + DeleteSteps(), DeletionRun());
    RepairingDates(Execute(NewAccount(1), start + DeleteSteps() + DeletionRun()).value);
    ExecuteComposes(NewAccount(1), start + DeleteSteps() + DeletionRun(), Repairing());
  }

  /** Another repair is requested and the user purged before it runs: the operation is left
      unfinished without a user. */
  lemma PurgeLeavesRepairBehind()
    ensures
      var after := Execute(NewAccount(1), RepairRun() + [Moment(BOTH, Request(Reconcile, Some(U), 4))]);
      && after.Some? && 5 !in after.value.ops && PurgeSpec(after.value, 5).Some?
      && 4 in Unfinished(PurgeSpec(after.value, 5).value)
  {
    RepairDatesDeletion();
    var a := Execute(NewAccount(1), RepairRun()).value;
    RequestThenPurge(a);
    ExecuteComposes(NewAccount(1), RepairRun(), [Moment(BOTH, Request(Reconcile, Some(U), 4))]);
  }

  lemma {:induction false} RequestThenPurge(a: Account)
    requires a.desired.WantDelete? && a.deletedAt.Some? && a.ops.Keys == {1, 2, 3} && a.active.None?
    ensures
      var after := Execute(a, [Moment(BOTH, Request(Reconcile, Some(U), 4))]);
      && after.Some? && 5 !in after.value.ops && PurgeSpec(after.value, 5).Some?
      && 4 in Unfinished(PurgeSpec(after.value, 5).value)
  {
    OneStep(a, Moment(BOTH, Request(Reconcile, Some(U), 4)));
    var asked := Apply(a, BOTH, Request(Reconcile, Some(U), 4));
    assert asked == Created(a, Reconcile, Some(U), None, 4);
  }
}
