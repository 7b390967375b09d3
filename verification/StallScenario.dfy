/** A run from a new account to a confirmed deletion that stalls (na_sso/users.py,
    na_sso/sync.py). */
module StallScenario {
  import opened Prelude
  import opened Lifecycle
  import opened Model
  import opened Operations
  import opened Pending
  import opened Sync
  import opened Protocol
  import opened Runs
  import opened Deletion
  import opened Scenarios

  function OffboardingRun(): seq<Moment> {
    [Moment(ONE, Asked(Update, 2)), Moment(ONE, Selected({})), Moment(ONE, Ran(2, None, Accepting))]
  }

  /** The only target was unassigned and has confirmed the disable. */
  predicate Offboarded(a: Account) {
    && Ordinary(a) && a.rows.Keys == {T} && a.ops.Keys == {1, 2} && a.active.None?
    && !a.rows[T].isAssigned && !a.rows[T].isRetired && a.rows[T].state.Unassigned?
    && a.rows[T].trace == [Called(EnsureUser, Accepted), LostAssignment, Called(DisableUser, Accepted)]
  }

  predicate Deselected(a: Account) {
    && Ordinary(a) && a.rows.Keys == {T} && a.ops.Keys == {1, 2} && a.active == Some(2)
    && a.ops[2] == NewOperation(1, Update, None, None)
    && !a.rows[T].isAssigned && !a.rows[T].isRetired && a.rows[T].state.PendingDisable?
    && a.rows[T].trace == [Called(EnsureUser, Accepted), LostAssignment]
  }

  lemma DeselectingDeselects(a: Account)
    requires Provisioned(a, ONE) && a.rows[T].trace == [Called(EnsureUser, Accepted)]
    ensures Deselected(Apply(Apply(a, ONE, Asked(Update, 2)), ONE, Selected({})))
  {
    var asked := Apply(a, ONE, Asked(Update, 2));
    assert asked == Created(a, Update, None, None, 2);
  }

  lemma DisableOutcome(a: Account, after: Account)
    requires Deselected(a) && RunOutcome(a, ONE, Ran(2, None, Accepting).call, 2, after)
    ensures Offboarded(after)
  {
    var call := Ran(2, None, Accepting).call;
    var ctx := Context(a, call);
    assert ToBeVisited(a.rows[T], T, ctx, ONE, call) && T in ToVisit(a.rows, ctx.deleting, ONE, call.target);
    assert !WillFail(a.rows, T, ctx, ONE, call, 2) && !WillStayOpen(a.rows, T, ctx, ONE, call, 2);
    assert WillSucceed(a.rows, ctx, ONE, call, 2);
  }

  lemma {:induction false} OffboardingFromProvisioned(a: Account)
    requires Provisioned(a, ONE) && a.rows[T].trace == [Called(EnsureUser, Accepted)]
    ensures Execute(a, OffboardingRun()).Some? && Offboarded(Execute(a, OffboardingRun()).value)
  {
    DeselectingDeselects(a);
    var deselected := Apply(Apply(a, ONE, Asked(Update, 2)), ONE, Selected({}));
    assert T in deselected.rows;
    GivenRun(deselected, ONE, Ran(2, None, Accepting).call, 2);
    DisableOutcome(deselected, Apply(deselected, ONE, Ran(2, None, Accepting)));
    ThreeSteps(a, OffboardingRun());
  }

  lemma OffboardingOffboards()
    ensures
      var a := Execute(NewAccount(1), Provisioning(ONE, Accepting) + OffboardingRun());
      a.Some? && Offboarded(a.value) && Inv(a.value)
  {
    assert T in ONE.connectors;
    ProvisioningProvisions(ONE, Accepting);
    var a := Execute(NewAccount(1), Provisioning(ONE, Accepting)).value;
    OffboardingFromProvisioned(a);
    ExecuteComposes(NewAccount(1), Provisioning(ONE, Accepting), OffboardingRun());
    NewAccountOk(1);
    RunsKeepInv(NewAccount(1), Provisioning(ONE, Accepting) + OffboardingRun());
  }

  /** The delete route leaves such a row as it is. */
  lemma OffboardedRouteShape(a: Account)
    requires Offboarded(a) && Inv(a)
    ensures
      var r := DeleteRoute(a, ONE, 3);
      && r.Success? && r.value.1 == 3
      && var staged := r.value.0;
      && !staged.isRoot && staged.userId == 1 && staged.rows == a.rows && staged.active == Some(3)
      && staged.ops.Keys == {1, 2, 3} && staged.ops[3].status.Queued? && staged.ops[3].userId == Some(1)
      && staged.deletedAt.None? && staged.desired.WantDelete?
  {
    assert CurrentTargets(a.rows) == {};
    DeleteRouteShape(a, ONE, 3);
    assert PendingRows(a.rows, {}, ONE.connectors, DeleteSelection(a)) == a.rows;
  }

  function FinalDeletion(): SyncCall {
    DeleteCall(3, UNUSED, 0.0, Accepting, Listing)
  }

  /** The target has confirmed the deletion too; it stays open all the same, and the user
      points at the running operation. */
  predicate Stalled(before: Account, after: Account) {
    && before.rows.Keys == {T} == after.rows.Keys
    && after.rows[T].state.Ok? && after.rows[T].trace == before.rows[T].trace + [Called(DeleteUser, Accepted)]
    && after.deletedAt.None? && 3 in after.ops && after.ops[3].status.Running? && after.active == Some(3)
  }

  lemma StalledOutcome(a: Account, after: Account)
    requires a.rows.Keys == {T} && !a.rows[T].isAssigned && !a.rows[T].isRetired
    requires 3 in a.ops && a.ops[3].status.Queued? && a.active == Some(3) && a.deletedAt.None?
    requires RunOutcome(a, ONE, FinalDeletion(), 3, after)
    ensures Stalled(a, after)
  {
    var call := FinalDeletion();
    var ctx := Context(a, call);
    assert ToBeVisited(a.rows[T], T, ctx, ONE, call);
    assert T in ToVisit(a.rows, ctx.deleting, ONE, call.target);
    assert WillStayOpen(a.rows, T, ctx, ONE, call, 3);
    assert WillLeaveOpen(a.rows, ctx, ONE, call, 3);
  }

  lemma OffboardedDeletionStalls(a: Account)
    requires Offboarded(a) && Inv(a)
    ensures DeleteRoute(a, ONE, 3).Success?
    ensures
      var staged := DeleteRoute(a, ONE, 3).value.0;
      && UNUSED !in staged.ops
      && SyncSpec(staged, ONE, FinalDeletion()).1 == Completed(3)
      && Stalled(a, SyncSpec(staged, ONE, FinalDeletion()).0)
  {
    OffboardedRouteShape(a);
    var staged := DeleteRoute(a, ONE, 3).value.0;
    assert T in staged.rows;
    GivenRun(staged, ONE, FinalDeletion(), 3);
    StalledOutcome(staged, SyncSpec(staged, ONE, FinalDeletion()).0);
  }

  /** A confirmed deletion stalls: the account is reached from a new one by provisioning,
      unassigning and the confirmed disable. */
  lemma ConfirmedDeletionStalls()
    ensures
      var reached := Execute(NewAccount(1), Provisioning(ONE, Accepting) + OffboardingRun());
      && reached.Some? && Offboarded(reached.value)
      && DeleteRoute(reached.value, ONE, 3).Success?
      && var staged := DeleteRoute(reached.value, ONE, 3).value.0;
      && UNUSED !in staged.ops && SyncSpec(staged, ONE, FinalDeletion()).1 == Completed(3)
      && Stalled(reached.value, SyncSpec(staged, ONE, FinalDeletion()).0)
  {
    OffboardingOffboards();
    OffboardedDeletionStalls(Execute(NewAccount(1), Provisioning(ONE, Accepting) + OffboardingRun()).value);
  }
}
