/** What the concrete runs have in common: two capable targets, a provisioned account, and
    the outcome of one run as a statement (na_sso/sync.py, na_sso/users.py). */
module Scenarios {
  import opened Prelude
  import opened Lifecycle
  import opened Model
  import opened Operations
  import opened Pending
  import opened Sync
  import opened Protocol
  import opened Runs
  import opened OpenOperations

  const T: Target := "t"
  const U: Target := "u"

  const CAPABLE: Connector := Connector(true, true, true, false, {})
  const BOTH: Config := Config(map[T := CAPABLE, U := CAPABLE], true, 5.0, 300.0)
  const ONE: Config := Config(map[T := CAPABLE], true, 5.0, 300.0)

  function Accepting(t: Target): CallResult {
    Accepted
  }

  function Failing(t: Target): CallResult {
    Errored
  }

  /** The order the rows are listed in. */
  function Listing(t: Target): nat {
    if t == T then 0 else 1
  }

  /** An identifier that no run creates. */
  const UNUSED: OpId := 9

  function Asked(command: LifecycleCommand, id: OpId): Step {
    Request(command, None, id)
  }

  function Selected(targets: set<Target>): Step {
    Select(PendingRequest(None, Some(targets), false, false, false))
  }

  function Ran(id: OpId, target: Option<Target>, answer: Target -> CallResult): Step {
    Synchronise(SyncCall(None, target, OtherActor, Some(id), UNUSED, 0.0, answer, Listing))
  }

  /** Everything a row of these runs has in common. */
  predicate Plain(row: Row, id: OpId) {
    row.isAssigned && !row.isRetired && row.operationId == Some(id) && row.attemptCount <= 1
  }

  predicate Ordinary(a: Account) {
    && a.userId == 1 && !a.isRoot && a.desired.WantEnsure? && !a.isDisabled && a.deletedAt.None?
    && a.decision.NoDecision? && a.pendingSecret.None?
  }

  // ---- an account that is created and provisioned ----

  predicate Provisioned(a: Account, cfg: Config) {
    && Ordinary(a) && a.rows.Keys == cfg.connectors.Keys && a.ops.Keys == {1} && a.active.None?
    && a.ops[1].status.Terminal() && a.ops[1].userId == Some(1)
    && (forall t | t in a.rows :: Plain(a.rows[t], 1))
  }

  /** Creating the account, selecting all targets, and the first run. */
  function Provisioning(cfg: Config, answer: Target -> CallResult): seq<Moment> {
    [Moment(cfg, Asked(Create, 1)), Moment(cfg, Selected(cfg.connectors.Keys)), Moment(cfg, Ran(1, None, answer))]
  }

  predicate Staged(a: Account, cfg: Config) {
    && Ordinary(a) && a.rows.Keys == cfg.connectors.Keys && (forall t | t in a.rows :: a.rows[t] == FRESH_ROW)
    && a.ops.Keys == {1} && a.ops[1] == NewOperation(1, Create, None, None) && a.active == Some(1)
  }

  lemma StagingStages(cfg: Config)
    requires forall t | t in cfg.connectors :: cfg.connectors[t] == CAPABLE
    ensures Staged(Apply(Apply(NewAccount(1), cfg, Asked(Create, 1)), cfg, Selected(cfg.connectors.Keys)), cfg)
  {
  }

  /** The facts about a run that the scenarios go on with. */
  ghost predicate RunOutcome(a: Account, cfg: Config, call: SyncCall, id: OpId, after: Account)
    requires id in a.ops
  {
    var ctx := Context(a, call);
    && after.rows == RowsAfter(a.rows, ctx, cfg, call, id)
    && after.ops.Keys == a.ops.Keys && (forall j | j in a.ops && j != id :: after.ops[j] == a.ops[j])
    && after.ops[id].userId == a.ops[id].userId
    && after == a.(rows := after.rows, ops := after.ops, active := after.active, deletedAt := after.deletedAt,
                   pendingSecret := after.pendingSecret)
    && (a.pendingSecret.None? ==> after.pendingSecret.None?)
    && (after.ops[id].status.Succeeded? <==> WillSucceed(a.rows, ctx, cfg, call, id))
    && !WillBreak(a.rows, ctx, cfg, call)
    && (after.ops[id].status.Running? <==> WillLeaveOpen(a.rows, ctx, cfg, call, id))
    && (HasFailed(after.ops[id]) <==> exists t | t in a.rows :: WillFail(a.rows, t, ctx, cfg, call, id))
    && (after.ops[id].status.Terminal() <==> !after.ops[id].status.Running?)
    && (after.deletedAt == if ctx.deleting && after.ops[id].status.Succeeded? then Some(call.now) else a.deletedAt)
    && var pointer := if a.ops[id].status.Queued? then a.active else Some(id);
       after.active == if pointer == Some(id) && after.ops[id].status.Terminal() then None else pointer
  }

  /** What a run for a given own operation does, as one statement. */
  lemma GivenRun(a: Account, cfg: Config, call: SyncCall, id: OpId)
    requires !a.isRoot && call.newId !in a.ops && call.operationId == Some(id)
    requires id in a.ops && a.ops[id].userId == Some(a.userId) && a.ops[id].status.Resumable()
    requires a.rows != map[] && !WillBreak(a.rows, Context(a, call), cfg, call)
    ensures SyncSpec(a, cfg, call).1 == Completed(id)
    ensures RunOutcome(a, cfg, call, id, SyncSpec(a, cfg, call).0)
  {
    RunFrame(a, cfg, call, a.rows, id);
    RunMovesPointer(a, cfg, call, a.rows, id);
    RunEndsAsForecast(a, cfg, call, a.rows, id);
  }

  /** The facts about a run that breaks. */
  ghost predicate BreakOutcome(a: Account, cfg: Config, call: SyncCall, id: OpId, after: Account)
    requires id in a.ops
  {
    && after.rows == RowsAfter(a.rows, Context(a, call), cfg, call, id)
    && after.ops.Keys == a.ops.Keys && (forall j | j in a.ops && j != id :: after.ops[j] == a.ops[j])
    && after.ops[id].userId == a.ops[id].userId && after.ops[id].status.Running?
    && after == a.(rows := after.rows, ops := after.ops, active := after.active)
    && after.active == if a.ops[id].status.Queued? then a.active else Some(id)
  }

  lemma GivenBreak(a: Account, cfg: Config, call: SyncCall, id: OpId)
    requires !a.isRoot && call.newId !in a.ops && call.operationId == Some(id)
    requires id in a.ops && a.ops[id].userId == Some(a.userId) && a.ops[id].status.Resumable()
    requires a.rows != map[] && WillBreak(a.rows, Context(a, call), cfg, call)
    ensures SyncSpec(a, cfg, call).1 == Interrupted(id)
    ensures BreakOutcome(a, cfg, call, id, SyncSpec(a, cfg, call).0)
  {
    BreakForecast(a.rows, Context(a, call), cfg, call);
    assert RunSpec(a, cfg, call, a.rows, id) == VisitedAccount(a, cfg, call, a.rows, id);
  }

  lemma RowVisited(rows: map<Target, Row>, t: Target, ctx: RunContext, cfg: Config, call: SyncCall, id: OpId)
    requires t in rows && ToBeVisited(rows[t], t, ctx, cfg, call) && !WillBreak(rows, ctx, cfg, call)
    ensures RowsAfter(rows, ctx, cfg, call, id)[t]
         == Visited(ctx, cfg, cfg.connectors[t], rows[t].(operationId := Some(id)), call.answer(t))
  {
    BreakForecast(rows, ctx, cfg, call);
    assert Reached(rows, t, ctx, cfg, call);
  }

  lemma RowPassed(rows: map<Target, Row>, t: Target, ctx: RunContext, cfg: Config, call: SyncCall, id: OpId)
    requires t in rows && !InScope(rows[t], t, ctx.deleting, cfg, call.target)
    ensures RowsAfter(rows, ctx, cfg, call, id)[t] == rows[t]
  {
    assert t !in Scope(rows, ctx.deleting, cfg, call.target);
  }

  /** The state an answer leaves in a row that was to be provisioned. */
  function StateAfter(answer: CallResult): SyncStateValue {
    match answer
    case Accepted => Ok
    case Rejected => Unsupported
    case Errored => SyncStateValue.Failed
  }

  /** The row after its first call. */
  predicate Answered(row: Row, answer: CallResult) {
    && row.state == StateAfter(answer) && row.trace == [Called(EnsureUser, answer)]
    && row.attemptCount == if answer.Accepted? then 0 else 1
  }

  lemma FirstRunOfRow(a: Account, cfg: Config, answer: Target -> CallResult, t: Target)
    requires Staged(a, cfg) && t in a.rows && cfg.connectors[t] == CAPABLE
    ensures
      var call := Ran(1, None, answer).call;
      var ctx := Context(a, call);
      && ToBeVisited(a.rows[t], t, ctx, cfg, call) && !WillStayOpen(a.rows, t, ctx, cfg, call, 1)
      && (WillFail(a.rows, t, ctx, cfg, call, 1) <==> !answer(t).Accepted?)
      && !Breaks(ctx, cfg.connectors[t], a.rows[t], answer(t))
      && var row := Visited(ctx, cfg, cfg.connectors[t], a.rows[t].(operationId := Some(1)), answer(t));
         Plain(row, 1) && Answered(row, answer(t))
  {
  }

  lemma FirstRunOutcome(a: Account, cfg: Config, answer: Target -> CallResult, after: Account)
    requires Staged(a, cfg) && forall t | t in cfg.connectors :: cfg.connectors[t] == CAPABLE
    requires RunOutcome(a, cfg, Ran(1, None, answer).call, 1, after)
    ensures Provisioned(after, cfg)
    ensures forall t | t in after.rows :: Answered(after.rows[t], answer(t))
    ensures (exists t | t in cfg.connectors :: !answer(t).Accepted?) ==> HasFailed(after.ops[1])
  {
    var call := Ran(1, None, answer).call;
    var ctx := Context(a, call);
    forall t | t in a.rows
      ensures WillFail(a.rows, t, ctx, cfg, call, 1) <==> !answer(t).Accepted?
      ensures !WillStayOpen(a.rows, t, ctx, cfg, call, 1)
      ensures
        var row := RowsAfter(a.rows, ctx, cfg, call, 1)[t];
        Plain(row, 1) && Answered(row, answer(t))
    {
      FirstRunOfRow(a, cfg, answer, t);
      RowVisited(a.rows, t, ctx, cfg, call, 1);
    }
  }

  lemma FirstRunHolds(a: Account, cfg: Config, answer: Target -> CallResult)
    requires Staged(a, cfg) && forall t | t in cfg.connectors :: cfg.connectors[t] == CAPABLE
    ensures !WillBreak(a.rows, Context(a, Ran(1, None, answer).call), cfg, Ran(1, None, answer).call)
  {
    forall t | t in a.rows {
      FirstRunOfRow(a, cfg, answer, t);
    }
  }

  lemma ProvisioningProvisions(cfg: Config, answer: Target -> CallResult)
    requires cfg.connectors != map[] && forall t | t in cfg.connectors :: cfg.connectors[t] == CAPABLE
    ensures
      var a := Execute(NewAccount(1), Provisioning(cfg, answer));
      && a.Some? && Provisioned(a.value, cfg)
      && (forall t | t in a.value.rows :: Answered(a.value.rows[t], answer(t)))
      && ((exists t | t in cfg.connectors :: !answer(t).Accepted?) ==> HasFailed(a.value.ops[1]))
  {
    var run := Provisioning(cfg, answer);
    var a := NewAccount(1);
    StagingStages(cfg);
    var asked := Apply(a, cfg, run[0].step);
    var staged := Apply(asked, cfg, run[1].step);
    assert staged.rows != map[] by {
      var t :| t in cfg.connectors;
      assert t in staged.rows;
    }
    FirstRunHolds(staged, cfg, answer);
    GivenRun(staged, cfg, run[2].step.call, 1);
    FirstRunOutcome(staged, cfg, answer, Apply(staged, cfg, run[2].step));
    ThreeSteps(a, run);
  }

  lemma {:induction false} ThreeSteps(a: Account, run: seq<Moment>)
    requires |run| == 3 && Legal(a, run[0].cfg, run[0].step)
    requires
      var b := Apply(a, run[0].cfg, run[0].step);
      && Legal(b, run[1].cfg, run[1].step)
      && var c := Apply(b, run[1].cfg, run[1].step);
      Legal(c, run[2].cfg, run[2].step)
    ensures
      var b := Apply(a, run[0].cfg, run[0].step);
      var c := Apply(b, run[1].cfg, run[1].step);
      Execute(a, run) == Some(Apply(c, run[2].cfg, run[2].step))
  {
    assert run[1..][0] == run[1] && run[1..][1..][0] == run[2] && run[1..][1..][1..] == [];
    var c := Apply(Apply(a, run[0].cfg, run[0].step), run[1].cfg, run[1].step);
    assert Execute(c, run[1..][1..]) == Some(Apply(c, run[2].cfg, run[2].step));
  }

  lemma {:induction false} OneStep(a: Account, m: Moment)
    requires Legal(a, m.cfg, m.step)
    ensures Execute(a, [m]) == Some(Apply(a, m.cfg, m.step))
  {
    assert [m][1..] == [];
  }

  lemma {:induction false} TwoSteps(a: Account, m: Moment, n: Moment)
    requires Legal(a, m.cfg, m.step) && Legal(Apply(a, m.cfg, m.step), n.cfg, n.step)
    ensures Execute(a, [m, n]) == Some(Apply(Apply(a, m.cfg, m.step), n.cfg, n.step))
  {
    assert [m, n][1..] == [n];
    OneStep(Apply(a, m.cfg, m.step), n);
  }
}
