/** A run from a new account in which the configuration changes: a target disappears and is
    retired, comes back, is selected and unassigned again (na_sso/db.py, na_sso/users.py). */
module RetirementScenario {
  import opened Model
  import opened Protocol
  import opened Scenarios

  const WITHOUT: Config := Config(map[], true, 5.0, 300.0)

  function Retiring(): seq<Moment> {
    [Moment(WITHOUT, RetireTarget(T))]
  }

  function Returning(): seq<Moment> {
    [Moment(ONE, Selected({T})), Moment(ONE, Selected({}))]
  }

  lemma {:induction false} RetiringRetires(a: Account)
    requires Provisioned(a, ONE)
    ensures Execute(a, Retiring()).Some? && T in Execute(a, Retiring()).value.rows
    ensures
      var row := Execute(a, Retiring()).value.rows[T];
      Shown(row).Retired? && row.isAssigned && row.nextRetryAt.None?
  {
    OneStep(a, Retiring()[0]);
  }

  lemma {:induction false} ReturningOffboards(a: Account)
    requires !a.isRoot && T in a.rows
    ensures Execute(a, Returning()).Some? && T in Execute(a, Returning()).value.rows
    ensures
      var row := Execute(a, Returning()).value.rows[T];
      Shown(row).PendingDisable? && !row.isRetired && SinceUnassigned(row.trace) == []
  {
    TwoSteps(a, Returning()[0], Returning()[1]);
  }

  /** Retirement takes a provisioned row out of the protocol; selecting the target again
      brings it back, and unassigning it then waits for a disable like any other. */
  lemma RetiredTargetReturns()
    ensures
      var start := Provisioning(ONE, Accepting);
      var retired, returned := Execute(NewAccount(1), start + Retiring()),
                               Execute(NewAccount(1), start + Retiring() + Returning());
      && retired.Some? && T in retired.value.rows && Shown(retired.value.rows[T]).Retired?
      && returned.Some? && T in returned.value.rows && Shown(returned.value.rows[T]).PendingDisable?
  {
    var start := Provisioning(ONE, Accepting);
    assert T in ONE.connectors;
    ProvisioningProvisions(ONE, Accepting);
    var a := Execute(NewAccount(1), start).value;
    RetiringRetires(a);
    ExecuteComposes(NewAccount(1), start, Retiring());
    RetiringKeepsRoot(a);
    ReturningOffboards(Execute(NewAccount(1), start + Retiring()).value);
    ExecuteComposes(NewAccount(1), start + Retiring(), Returning());
  }

  lemma {:induction false} RetiringKeepsRoot(a: Account)
    requires Execute(a, Retiring()).Some?
    ensures Execute(a, Retiring()).value.isRoot == a.isRoot
  {
    OneStep(a, Retiring()[0]);
  }
}
