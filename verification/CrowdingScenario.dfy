/** A run from a new account to two unfinished operations, and on to a stranded account
    (na_sso/sync.py, na_sso/users.py). */
module CrowdingScenario {
  import opened Prelude
  import opened Lifecycle
  import opened Model
  import opened Operations
  import opened Sync
  import opened Protocol
  import opened Runs
  import opened OpenOperations
  import opened Stranded
  import opened Scenarios

  /** `t` refuses at first; `u` accepts. */
  function FirstAnswer(t: Target): CallResult {
    if t == T then Errored else Accepted
  }

  /** An update is queued, and before it runs the failed target is retried. */
  function Retrying(): seq<Moment> {
    [Moment(BOTH, Asked(Update, 2)), Moment(BOTH, Selected({T, U})), Moment(BOTH, Ran(1, Some(T), Accepting))]
  }

  function CrowdingRun(): seq<Moment> {
    Provisioning(BOTH, FirstAnswer) + Retrying()
  }

  /** Both operations are unfinished, and the rows still carry the first. */
  predicate Crowded(a: Account) {
    && Ordinary(a) && a.rows.Keys == {T, U} && a.ops.Keys == {1, 2} && a.active == Some(1)
    && a.ops[1].status.Running? && a.ops[1].userId == Some(1)
    && a.ops[2].status.Queued? && a.ops[2].userId == Some(1)
    && (forall t | t in a.rows :: Plain(a.rows[t], 1) && !a.rows[t].state.Chpw? && !a.rows[t].state.AwaitingCredentials?
                                  && !a.rows[t].state.PendingChpwDisable?)
  }

  /** ... after the update is requested and its rows are reset. */
  predicate Requeued(a: Account) {
    && Ordinary(a) && a.rows.Keys == {T, U} && a.ops.Keys == {1, 2} && a.active == Some(2)
    && HasFailed(a.ops[1]) && a.ops[1].userId == Some(1)
    && a.ops[2].status.Queued? && a.ops[2].userId == Some(1)
    && (forall t | t in a.rows :: Plain(a.rows[t], 1) && a.rows[t].state.Pending?)
  }

  lemma UpdateRequeues(a: Account)
    requires Provisioned(a, BOTH) && HasFailed(a.ops[1])
    ensures Requeued(Apply(Apply(a, BOTH, Asked(Update, 2)), BOTH, Selected({T, U})))
  {
    var asked := Apply(a, BOTH, Asked(Update, 2));
    assert asked == Created(a, Update, None, None, 2);
  }

  function RetryOfT(): SyncCall {
    Ran(1, Some(T), Accepting).call
  }

  lemma RetryForecast(a: Account)
    requires Requeued(a)
    ensures WillLeaveOpen(a.rows, Context(a, RetryOfT()), BOTH, RetryOfT(), 1)
  {
    var ctx := Context(a, RetryOfT());
    assert ToBeVisited(a.rows[T], T, ctx, BOTH, RetryOfT());
    assert U in a.rows && WillStayOpen(a.rows, U, ctx, BOTH, RetryOfT(), 1);
    assert forall t | t in a.rows :: t == T || t == U;
  }

  lemma RetryRows(a: Account)
    requires Requeued(a)
    ensures
      var rows := RowsAfter(a.rows, Context(a, RetryOfT()), BOTH, RetryOfT(), 1);
      rows.Keys == {T, U} && rows[T].state.Ok? && Plain(rows[T], 1) && rows[U] == a.rows[U]
  {
    var ctx := Context(a, RetryOfT());
    RowVisited(a.rows, T, ctx, BOTH, RetryOfT(), 1);
    RowPassed(a.rows, U, ctx, BOTH, RetryOfT(), 1);
  }

  lemma RetryOutcome(a: Account, after: Account)
    requires Requeued(a) && RunOutcome(a, BOTH, RetryOfT(), 1, after)
    ensures Crowded(after)
  {
    RetryForecast(a);
    RetryRows(a);
  }

  lemma {:induction false} RetryingCrowds(a: Account)
    requires Provisioned(a, BOTH) && HasFailed(a.ops[1])
    ensures Execute(a, Retrying()).Some? && Crowded(Execute(a, Retrying()).value)
  {
    var asked := Apply(a, BOTH, Asked(Update, 2));
    var selected := Apply(asked, BOTH, Selected({T, U}));
    UpdateRequeues(a);
    assert T in selected.rows;
    GivenRun(selected, BOTH, RetryOfT(), 1);
    RetryOutcome(selected, Apply(selected, BOTH, Ran(1, Some(T), Accepting)));
    ThreeSteps(a, Retrying());
  }

  /** Two operations are unfinished at once: a retry revives the failed one while the update
      waits in the queue, and the rows the update has reset keep it open. */
  lemma TwoOperationsUnfinished()
    ensures
      var a := Execute(NewAccount(1), CrowdingRun());
      a.Some? && Crowded(a.value) && Unfinished(a.value.ops) == {1, 2} && !AtMostOneUnfinished(a.value)
  {
    assert T in BOTH.connectors && !FirstAnswer(T).Accepted?;
    ProvisioningProvisions(BOTH, FirstAnswer);
    var a := Execute(NewAccount(1), Provisioning(BOTH, FirstAnswer)).value;
    RetryingCrowds(a);
    ExecuteComposes(NewAccount(1), Provisioning(BOTH, FirstAnswer), Retrying());
    CrowdedIsTwo(Execute(a, Retrying()).value);
  }

  lemma CrowdedIsTwo(a: Account)
    requires Crowded(a)
    ensures Unfinished(a.ops) == {1, 2} && !AtMostOneUnfinished(a)
  {
    assert 1 in Unfinished(a.ops) && 2 in Unfinished(a.ops);
  }

  predicate Overtaken(a: Account) {
    && Ordinary(a) && a.ops.Keys == {1, 2} && a.active == Some(1)
    && a.ops[1].status.Running? && a.ops[1].userId == Some(1) && a.ops[2].status.Succeeded?
    && (forall t | t in a.rows :: Plain(a.rows[t], 2) && a.rows[t].state.Ok?)
  }

  lemma OvertakingRow(a: Account, t: Target)
    requires Crowded(a) && t in a.rows
    ensures
      var call := Ran(2, None, Accepting).call;
      var ctx := Context(a, call);
      && ToBeVisited(a.rows[t], t, ctx, BOTH, call)
      && !WillFail(a.rows, t, ctx, BOTH, call, 2) && !WillStayOpen(a.rows, t, ctx, BOTH, call, 2)
      && var row := Visited(ctx, BOTH, BOTH.connectors[t], a.rows[t].(operationId := Some(2)), Accepted);
         Plain(row, 2) && row.state.Ok?
  {
  }

  lemma OvertakingOutcome(a: Account, after: Account)
    requires Crowded(a) && RunOutcome(a, BOTH, Ran(2, None, Accepting).call, 2, after)
    ensures Overtaken(after)
  {
    var call := Ran(2, None, Accepting).call;
    var ctx := Context(a, call);
    forall t | t in a.rows
      ensures !WillFail(a.rows, t, ctx, BOTH, call, 2) && !WillStayOpen(a.rows, t, ctx, BOTH, call, 2)
      ensures Plain(after.rows[t], 2) && after.rows[t].state.Ok?
    {
      OvertakingRow(a, t);
      RowVisited(a.rows, t, ctx, BOTH, call, 2);
    }
  }

  lemma OvertakenIsStranded(a: Account)
    requires Overtaken(a)
    ensures IsStranded(a) && RequestSpec(a, Update, None, UNUSED).1.Conflict?
  {
    assert Stamped(a.rows, 1) == {};
    StrandedAccountRefusesRequests(a, Update, None, UNUSED);
  }

  function Overtaking(): seq<Moment> {
    [Moment(BOTH, Ran(2, None, Accepting))]
  }

  lemma {:induction false} CrowdedThenStranded(a: Account)
    requires Crowded(a)
    ensures
      var after := Execute(a, Overtaking());
      && after.Some? && Overtaken(after.value) && IsStranded(after.value)
      && RequestSpec(after.value, Update, None, UNUSED).1.Conflict?
  {
    assert T in a.rows;
    var after := Apply(a, BOTH, Ran(2, None, Accepting));
    GivenRun(a, BOTH, Ran(2, None, Accepting).call, 2);
    OvertakingOutcome(a, after);
    OneStep(a, Moment(BOTH, Ran(2, None, Accepting)));
    OvertakenIsStranded(after);
  }

  /** Then the update runs, takes all rows and succeeds, and the account is stranded behind
      the revived operation: every row is `ok` and every further update is refused. */
  lemma AccountStranded()
    ensures
      var a := Execute(NewAccount(1), CrowdingRun() + Overtaking());
      && a.Some? && IsStranded(a.value) && Overtaken(a.value)
      && RequestSpec(a.value, Update, None, UNUSED).1.Conflict?
  {
    TwoOperationsUnfinished();
    CrowdedThenStranded(Execute(NewAccount(1), CrowdingRun()).value);
    ExecuteComposes(NewAccount(1), CrowdingRun(), Overtaking());
  }
}
