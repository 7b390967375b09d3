/** A run from a new account in which the failed offboarding of a target is masked: its
    disable fails once more after the last attempt whose delay can be computed
    (na_sso/sync.py, na_sso/lifecycle.py). */
module MaskingScenario {
  import opened Prelude
  import opened Lifecycle
  import opened Model
  import opened Operations
  import opened Sync
  import opened Workers
  import opened Backoff
  import opened Protocol
  import opened Runs
  import opened Scenarios

  /** The only target is unassigned, and its disable fails. */
  function FailingOffboarding(): seq<Moment> {
    [Moment(ONE, Asked(Update, 2)), Moment(ONE, Selected({})), Moment(ONE, Ran(2, None, Failing))]
  }

  function RetryAt(now: real): SyncCall {
    RetryCall(DueRetry(T, Some(2)), UNUSED, now, Failing, Listing)
  }

  /** Retries that fail, at whatever times they come due. */
  function Retries(n: nat, clock: nat -> real): seq<Moment> {
    if n == 0 then [] else Retries(n - 1, clock) + [Moment(ONE, Synchronise(RetryAt(clock(n - 1))))]
  }

  /** An account whose only target is unassigned and not yet disabled. */
  predicate LosingTarget(a: Account) {
    && Ordinary(a) && a.rows.Keys == {T} && a.ops.Keys == {1, 2} && a.ops[2].userId == Some(1)
    && !a.rows[T].isAssigned && !a.rows[T].isRetired
  }

  /** Since it lost its target the row knows nothing but failed disables. */
  predicate OnlyFailures(events: seq<Event>) {
    forall e | e in events :: e == Called(DisableUser, Errored)
  }

  predicate DisableQueued(a: Account) {
    && LosingTarget(a) && a.active == Some(2) && a.ops[2].status.Queued?
    && a.rows[T].state.PendingDisable? && a.rows[T].attemptCount == 0 && SinceUnassigned(a.rows[T].trace) == []
  }

  predicate Streak(a: Account, n: nat) {
    && LosingTarget(a) && a.active.None? && HasFailed(a.ops[2])
    && a.rows[T].state.Failed? && a.rows[T].attemptCount == n && a.rows[T].operationId == Some(2)
    && OnlyFailures(SinceUnassigned(a.rows[T].trace))
  }

  /** Shown as unassigned and disabled, without a retry, although every disable failed; the
      operation is left running. */
  predicate Masked(a: Account) {
    && LosingTarget(a) && a.active == Some(2) && a.ops[2].status.Running?
    && Shown(a.rows[T]).Unassigned? && a.rows[T].state.Pending? && a.rows[T].nextRetryAt.None?
    && a.rows[T].operationId == Some(2)
    && var since := SinceUnassigned(a.rows[T].trace);
    && since != [] && Last(since).OutcomeLost? && OnlyFailures(Front(since))
  }

  lemma DeselectingQueues(a: Account)
    requires Provisioned(a, ONE) && Answered(a.rows[T], Accepted)
    ensures DisableQueued(Apply(Apply(a, ONE, Asked(Update, 2)), ONE, Selected({})))
  {
    assert Apply(a, ONE, Asked(Update, 2)) == Created(a, Update, None, None, 2);
  }

  lemma {:induction false} SinceExtends(trace: seq<Event>, e: Event)
    requires !e.LostAssignment?
    ensures SinceUnassigned(trace + [e]) == SinceUnassigned(trace) + [e]
  {
    assert Front(trace + [e]) == trace;
  }

  ghost predicate FailsNext(a: Account, call: SyncCall, n: nat) {
    && n < LAST_ATTEMPT
    && ((DisableQueued(a) && n == 0 && call == Ran(2, None, Failing).call)
        || (Streak(a, n) && call == RetryAt(call.now)))
  }

  lemma FailingDisable(a: Account, call: SyncCall, n: nat)
    requires FailsNext(a, call, n)
    ensures
      var ctx := Context(a, call);
      && ToBeVisited(a.rows[T], T, ctx, ONE, call) && WillFail(a.rows, T, ctx, ONE, call, 2)
      && !WillBreak(a.rows, ctx, ONE, call)
      && var row := Visited(ctx, ONE, CAPABLE, a.rows[T].(operationId := Some(2)), Errored);
      && !row.isAssigned && !row.isRetired && row.state.Failed? && row.attemptCount == n + 1
      && row.operationId == Some(2) && row.trace == a.rows[T].trace + [Called(DisableUser, Errored)]
  {
  }

  /** One more failed disable, as long as its delay can be computed. */
  lemma FailureOutcome(a: Account, call: SyncCall, n: nat, after: Account)
    requires FailsNext(a, call, n) && RunOutcome(a, ONE, call, 2, after)
    ensures Streak(after, n + 1)
  {
    FailingDisable(a, call, n);
    RowVisited(a.rows, T, Context(a, call), ONE, call, 2);
    SinceExtends(a.rows[T].trace, Called(DisableUser, Errored));
  }

  lemma {:induction false} OffboardingFails(a: Account)
    requires Provisioned(a, ONE) && Answered(a.rows[T], Accepted)
    ensures Execute(a, FailingOffboarding()).Some? && Streak(Execute(a, FailingOffboarding()).value, 1)
  {
    var queued := Apply(Apply(a, ONE, Asked(Update, 2)), ONE, Selected({}));
    DeselectingQueues(a);
    assert T in queued.rows;
    FailingDisable(queued, Ran(2, None, Failing).call, 0);
    GivenRun(queued, ONE, Ran(2, None, Failing).call, 2);
    FailureOutcome(queued, Ran(2, None, Failing).call, 0, Apply(queued, ONE, Ran(2, None, Failing)));
    ThreeSteps(a, FailingOffboarding());
  }

  lemma {:induction false} RetryFails(a: Account, n: nat, now: real)
    requires Streak(a, n) && n < LAST_ATTEMPT
    ensures Execute(a, [Moment(ONE, Synchronise(RetryAt(now)))]).Some?
    ensures Streak(Execute(a, [Moment(ONE, Synchronise(RetryAt(now)))]).value, n + 1)
  {
    assert T in a.rows;
    FailingDisable(a, RetryAt(now), n);
    GivenRun(a, ONE, RetryAt(now), 2);
    FailureOutcome(a, RetryAt(now), n, SyncSpec(a, ONE, RetryAt(now)).0);
    OneStep(a, Moment(ONE, Synchronise(RetryAt(now))));
  }

  lemma {:induction false} RetriesCountUp(a: Account, n: nat, k: nat, clock: nat -> real)
    requires Streak(a, n) && n + k <= LAST_ATTEMPT
    ensures Execute(a, Retries(k, clock)).Some? && Streak(Execute(a, Retries(k, clock)).value, n + k)
  {
    if k > 0 {
      RetriesCountUp(a, n, k - 1, clock);
      var before := Execute(a, Retries(k - 1, clock)).value;
      RetryFails(before, n + k - 1, clock(k - 1));
      ExecuteComposes(a, Retries(k - 1, clock), [Moment(ONE, Synchronise(RetryAt(clock(k - 1))))]);
    }
  }

  /** The next failure breaks the run. */
  lemma BreakingRow(a: Account, now: real)
    requires Streak(a, LAST_ATTEMPT)
    ensures
      var call := RetryAt(now);
      var ctx := Context(a, call);
      && WillBreak(a.rows, ctx, ONE, call)
      && var after := RowsAfter(a.rows, ctx, ONE, call, 2);
      && after.Keys == {T}
      && after[T] == a.rows[T].(state := SyncStateValue.Pending, nextRetryAt := None,
                                trace := a.rows[T].trace + [Called(DisableUser, Errored)] + [OutcomeLost])
  {
    var call := RetryAt(now);
    var ctx := Context(a, call);
    assert ToBeVisited(a.rows[T], T, ctx, ONE, call);
    var first := InterruptedRows(a.rows, ctx, ONE, call, 2);
  }

  lemma RetryBreaksAtLast(a: Account, now: real)
    requires Streak(a, LAST_ATTEMPT)
    ensures SyncSpec(a, ONE, RetryAt(now)).1 == Interrupted(2)
    ensures Masked(SyncSpec(a, ONE, RetryAt(now)).0)
  {
    assert T in a.rows;
    BreakingRow(a, now);
    GivenBreak(a, ONE, RetryAt(now), 2);
    MaskedOutcome(a, now, SyncSpec(a, ONE, RetryAt(now)).0);
  }

  lemma MaskedOutcome(a: Account, now: real, after: Account)
    requires Streak(a, LAST_ATTEMPT) && BreakOutcome(a, ONE, RetryAt(now), 2, after)
    ensures Masked(after)
  {
    BreakingRow(a, now);
    SinceExtends(a.rows[T].trace, Called(DisableUser, Errored));
    SinceExtends(a.rows[T].trace + [Called(DisableUser, Errored)], OutcomeLost);
  }

  function MaskingRun(clock: nat -> real): seq<Moment> {
    Provisioning(ONE, Accepting) + FailingOffboarding() + Retries(LAST_ATTEMPT - 1, clock)
  }

  lemma LastStreak(clock: nat -> real)
    ensures Execute(NewAccount(1), MaskingRun(clock)).Some?
    ensures Streak(Execute(NewAccount(1), MaskingRun(clock)).value, LAST_ATTEMPT)
  {
    var start := Provisioning(ONE, Accepting);
    assert T in ONE.connectors;
    ProvisioningProvisions(ONE, Accepting);
    OffboardingFails(Execute(NewAccount(1), start).value);
    ExecuteComposes(NewAccount(1), start, FailingOffboarding());
    RetriesCountUp(Execute(NewAccount(1), start + FailingOffboarding()).value, 1, LAST_ATTEMPT - 1, clock);
    ExecuteComposes(NewAccount(1), start + FailingOffboarding(), Retries(LAST_ATTEMPT - 1, clock));
  }

  /** Failed offboarding is masked: whatever the clock says, a target whose disable and all
      the retries of it fail shows as unassigned and disabled after the first failure whose
      delay cannot be computed. Nothing retries it, and its operation is left running. */
  lemma OffboardingMasked(clock: nat -> real, now: real)
    ensures
      var reached := Execute(NewAccount(1), MaskingRun(clock));
      && reached.Some? && Streak(reached.value, LAST_ATTEMPT)
      && SyncSpec(reached.value, ONE, RetryAt(now)).1 == Interrupted(2)
      && Masked(SyncSpec(reached.value, ONE, RetryAt(now)).0)
  {
    LastStreak(clock);
    RetryBreaksAtLast(Execute(NewAccount(1), MaskingRun(clock)).value, now);
  }

  function ManualRetry(): SyncCall {
    Ran(2, Some(T), Accepting).call
  }

  lemma ManualRetryOutcome(a: Account, after: Account)
    requires Masked(a) && RunOutcome(a, ONE, ManualRetry(), 2, after)
    ensures after.rows == a.rows && after.ops[2].status.Succeeded?
  {
    var ctx := Context(a, ManualRetry());
    RowPassed(a.rows, T, ctx, ONE, ManualRetry(), 2);
    assert WillSucceed(a.rows, ctx, ONE, ManualRetry(), 2);
  }

  /** A manual retry then asks the target nothing, although it would accept, and completes
      the operation: the update counts as succeeded. */
  lemma MaskedOperationSucceeds(a: Account)
    requires Masked(a)
    ensures SyncSpec(a, ONE, ManualRetry()).1 == Completed(2)
    ensures
      var after := SyncSpec(a, ONE, ManualRetry()).0;
      after.rows == a.rows && 2 in after.ops && after.ops[2].status.Succeeded?
  {
    assert T in a.rows;
    GivenRun(a, ONE, ManualRetry(), 2);
    ManualRetryOutcome(a, SyncSpec(a, ONE, ManualRetry()).0);
  }
}
