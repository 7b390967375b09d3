/** A run from a new account in which a due retry passes the password-change gate
    (na_sso/users.py, na_sso/sync.py). */
module GateScenario {
  import opened Prelude
  import opened Lifecycle
  import opened Model
  import opened Operations
  import opened Pending
  import opened Sync
  import opened Workers
  import opened Protocol
  import opened Runs
  import opened Scenarios

  function Demand(): PendingRequest {
    PendingRequest(Some("new"), Some({T}), true, false, true)
  }

  /** The password is reset: the decision, the update request and the rows. */
  function Resetting(): seq<Moment> {
    [Moment(ONE, EditUser(WantEnsure, false, None, Reset, true, None, None, map[])),
     Moment(ONE, Asked(Update, 2)),
     Moment(ONE, Select(Demand()))]
  }

  function RetryAt(now: real): SyncCall {
    RetryCall(DueRetry(T, Some(2)), UNUSED, now, Accepting, Listing)
  }

  /** A reset account whose row carries the second operation. */
  predicate Gating(a: Account) {
    && a.userId == 1 && !a.isRoot && a.desired.WantEnsure? && !a.isDisabled && a.deletedAt.None?
    && a.decision.Reset? && a.pendingSecret.None?
    && a.rows.Keys == {T} && a.rows[T].isAssigned && !a.rows[T].isRetired
    && a.ops.Keys == {1, 2} && a.ops[2].userId == Some(1)
  }

  predicate Demanded(a: Account) {
    && Gating(a) && a.ops[2].status.Queued? && a.active == Some(2)
    && a.rows[T].state.PendingChpwDisable? && a.rows[T].attemptCount == 0
    && a.rows[T].trace == [Called(EnsureUser, Accepted)]
  }

  predicate DisableFailed(a: Account) {
    && Gating(a) && HasFailed(a.ops[2]) && a.active.None?
    && a.rows[T].state.Failed? && a.rows[T].operationId == Some(2)
    && a.rows[T].trace == [Called(EnsureUser, Accepted), Called(DisableUser, Errored)]
  }

  lemma {:induction false} ResettingDemands(a: Account)
    requires Provisioned(a, ONE) && a.rows[T].state.Ok? && a.rows[T].trace == [Called(EnsureUser, Accepted)]
    ensures Execute(a, Resetting()).Some? && Demanded(Execute(a, Resetting()).value)
  {
    var run := Resetting();
    var edited := Apply(a, ONE, run[0].step);
    var asked := Apply(edited, ONE, run[1].step);
    assert asked == Created(edited, Update, None, None, 2);
    ThreeSteps(a, run);
  }

  lemma FailedDisableOutcome(a: Account, after: Account)
    requires Demanded(a) && RunOutcome(a, ONE, Ran(2, None, Failing).call, 2, after)
    ensures DisableFailed(after)
  {
    var call := Ran(2, None, Failing).call;
    var ctx := Context(a, call);
    assert ToBeVisited(a.rows[T], T, ctx, ONE, call) && T in ToVisit(a.rows, ctx.deleting, ONE, call.target);
    assert WillFail(a.rows, T, ctx, ONE, call, 2);
  }

  lemma RetryAsksForAccount(a: Account, now: real, after: Account)
    requires DisableFailed(a) && RunOutcome(a, ONE, RetryAt(now), 2, after)
    ensures T in after.rows && after.rows[T].state.Chpw?
    ensures after.rows[T].trace
         == [Called(EnsureUser, Accepted), Called(DisableUser, Errored), Called(EnsureUser, Accepted)]
  {
    var call := RetryAt(now);
    var ctx := Context(a, call);
    assert T in ToVisit(a.rows, ctx.deleting, ONE, call.target);
  }

  lemma {:induction false} DemandThenRetry(a: Account, now: real)
    requires Demanded(a)
    ensures
      var run := [Moment(ONE, Ran(2, None, Failing)), Moment(ONE, Synchronise(RetryAt(now)))];
      var after := Execute(a, run);
      && after.Some? && T in after.value.rows && after.value.rows[T].state.Chpw?
      && after.value.rows[T].trace
         == [Called(EnsureUser, Accepted), Called(DisableUser, Errored), Called(EnsureUser, Accepted)]
  {
    assert T in a.rows;
    GivenRun(a, ONE, Ran(2, None, Failing).call, 2);
    var failed := Apply(a, ONE, Ran(2, None, Failing));
    FailedDisableOutcome(a, failed);
    assert T in failed.rows;
    GivenRun(failed, ONE, RetryAt(now), 2);
    RetryAsksForAccount(failed, now, Apply(failed, ONE, Synchronise(RetryAt(now))));
    TwoSteps(a, Moment(ONE, Ran(2, None, Failing)), Moment(ONE, Synchronise(RetryAt(now))));
  }

  /** The gate is passed: a password change is demanded, the guarding disable fails, and its
      due retry asks the target to create or update the account; the row then shows as
      waiting for the change. */
  lemma RetryPassesGate(now: real)
    ensures
      var run := Provisioning(ONE, Accepting) + Resetting()
               + [Moment(ONE, Ran(2, None, Failing)), Moment(ONE, Synchronise(RetryAt(now)))];
      var after := Execute(NewAccount(1), run);
      && after.Some? && T in after.value.rows && after.value.rows[T].state.Chpw?
      && after.value.rows[T].trace
         == [Called(EnsureUser, Accepted), Called(DisableUser, Errored), Called(EnsureUser, Accepted)]
  {
    var start := Provisioning(ONE, Accepting);
    var last := [Moment(ONE, Ran(2, None, Failing)), Moment(ONE, Synchronise(RetryAt(now)))];
    assert T in ONE.connectors;
    ProvisioningProvisions(ONE, Accepting);
    ResettingDemands(Execute(NewAccount(1), start).value);
    ExecuteComposes(NewAccount(1), start, Resetting());
    DemandThenRetry(Execute(NewAccount(1), start + Resetting()).value, now);
    ExecuteComposes(NewAccount(1), start + Resetting(), last);
  }
}
