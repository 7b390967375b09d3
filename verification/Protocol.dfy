/** What every step of the protocol keeps, and what therefore holds over every run. */
module Protocol {
  import opened Prelude
  import opened Lifecycle
  import opened Model
  import opened Operations
  import opened Pending
  import opened Sync
  import opened Workers
  import opened Backoff

  // ---- the invariant ----

  /** The events after the row last lost its assignment. */
  function SinceUnassigned(trace: seq<Event>): seq<Event> {
    if trace == [] || Last(trace).LostAssignment? then []
    else SinceUnassigned(Front(trace)) + [Last(trace)]
  }

  predicate Offboarding(e: Event) {
    e.OutcomeLost? || ((e.Called? || e.DeclaredUnsupported?) && !e.operation.EnsureUser?)
  }

  predicate ConfirmsRemoval(e: Event) {
    e.Called? && (e.operation.DisableUser? || e.operation.DeleteUser?) && e.result.Accepted?
  }

  /** What the account page shows after these offboarding events: a lost outcome looks like
      a finished offboarding. */
  function OffboardingStatus(events: seq<Event>): SyncStateValue {
    if events == [] then PendingDisable
    else match Last(events)
      case Called(_, Accepted) => Unassigned
      case OutcomeLost => Unassigned
      case Called(_, Errored) => SyncStateValue.Failed
      case _ => Unsupported
  }

  /** The calls that have failed since the last one the target accepted. */
  function FailedCalls(trace: seq<Event>): nat {
    if trace == [] then 0
    else match Last(trace)
      case Called(_, Accepted) => 0
      case Called(_, _) => FailedCalls(Front(trace)) + 1
      case _ => FailedCalls(Front(trace))
  }

  /** The stored counter never runs ahead of those failures, and an outcome is lost only
      after more of them than the backoff can count. */
  predicate StreakTracked(row: Row) {
    && row.attemptCount <= FailedCalls(row.trace)
    && (row.trace != [] && Last(row.trace).OutcomeLost? ==> FailedCalls(row.trace) > LAST_ATTEMPT)
  }

  ghost predicate OffboardingTracked(row: Row) {
    var since := SinceUnassigned(row.trace);
    && LostAssignment in row.trace
    && (forall e | e in since :: Offboarding(e))
    && Shown(row) == OffboardingStatus(since)
  }

  /** A row names an operation of this user that has left the queue; a failed row names
      one that failed or, after an interrupted run, was left running and may since have been
      superseded. */
  ghost predicate LinkOk(row: Row, userId: int, ops: map<OpId, Operation>) {
    row.operationId.Some? ==>
      var id := row.operationId.value;
      && id in ops && ops[id].userId == Some(userId) && !ops[id].status.Queued?
      && (row.state.Failed? ==> HasFailed(ops[id]) || ops[id].status.Running? || ops[id].status.Cancelled?)
  }

  /** `not_assigned` is never stored, and `retired` only with the retired mark. */
  predicate Storable(row: Row) {
    !row.state.NotAssigned? && (row.state.Retired? ==> row.isRetired)
  }

  /** The part of the invariant that speaks of one row alone. */
  ghost predicate RowLocal(row: Row) {
    && Storable(row) && StreakTracked(row)
    && (row.nextRetryAt.Some? <==> row.state.Failed?)
    && (row.state.Failed? ==> row.attemptCount >= 1 && row.operationId.Some?)
    && (row.isRetired ==> row.state.Retired? || row.state.PendingDisable?)
    && (!row.isAssigned && !row.isRetired ==> OffboardingTracked(row))
  }

  ghost predicate RowsOk(a: Account) {
    forall t | t in a.rows :: RowLocal(a.rows[t]) && LinkOk(a.rows[t], a.userId, a.ops)
  }

  ghost predicate ActiveOk(a: Account) {
    a.active.Some? ==>
      && a.active.value in a.ops
      && !a.ops[a.active.value].status.Terminal()
      && a.ops[a.active.value].userId == Some(a.userId)
  }

  predicate Supersedes(ops: map<OpId, Operation>, i: OpId, j: OpId) {
    i in ops && ops[i].supersedes == Some(j)
  }

  /** Only deletions supersede; what they supersede is a cancelled operation of another
      kind; no two supersede the same one, and nothing is cancelled any other way. */
  ghost predicate SupersessionOk(ops: map<OpId, Operation>) {
    && (forall i, j | Supersedes(ops, i, j) ::
          ops[i].command.Delete? && j in ops && ops[j].status.Cancelled? && !ops[j].command.Delete?)
    && (forall i, i', j | Supersedes(ops, i, j) && Supersedes(ops, i', j) :: i == i')
    && (forall j | j in ops && ops[j].status.Cancelled? :: exists i :: Supersedes(ops, i, j))
  }

  ghost predicate Inv(a: Account) {
    Linked(a) && SupersessionOk(a.ops)
  }

  ghost predicate Linked(a: Account) {
    RowsOk(a) && ActiveOk(a)
  }

  // ---- steps and runs ----

  /** Each route or worker of the program is a short sequence of these steps. */
  datatype Step =
    | Request(command: LifecycleCommand, target: Option<Target>, newId: OpId)
    | Select(req: PendingRequest)
    | EditUser(desired: DesiredAction, isDisabled: bool, deletedAt: Option<real>, decision: DecisionKind,
               decisionRequired: bool, pendingSecret: Option<string>,
               profile: Option<map<Target, set<string>>>, exceptions: map<Target, AssignmentException>)
    | Synchronise(call: SyncCall)
    | StageHandoff(password: string)
    | StageExpiry(overdue: bool)
    | RetireTarget(gone: Target)

  function RetiredRow(row: Row): Row {
    row.(isRetired := true, state := SyncStateValue.Retired, nextRetryAt := None)
  }

  /** New identifiers are unused; a purge ends the account and is no step of it; a target
      retires when no configuration file names it. */
  predicate Legal(a: Account, cfg: Config, step: Step) {
    match step
    case Request(command, _, newId) => newId !in a.ops && !command.Purge?
    case Synchronise(call) => call.newId !in a.ops
    case RetireTarget(t) => cfg.hasConfigFile ==> t !in cfg.connectors
    case _ => true
  }

  function Apply(a: Account, cfg: Config, step: Step): Account
    requires Legal(a, cfg, step)
  {
    match step
    case Request(command, target, newId) =>
      var (after, r) := RequestSpec(a, command, target, newId);
      if r.Conflict? then a else after
    case Select(req) =>
      var r := SetPendingSpec(a, cfg, req);
      if r.Success? then r.value else a
    case EditUser(desired, isDisabled, deletedAt, decision, decisionRequired, secret, profile, exceptions) =>
      a.(desired := desired, isDisabled := isDisabled, deletedAt := deletedAt, decision := decision,
         decisionRequired := decisionRequired, pendingSecret := secret, profile := profile,
         exceptions := exceptions)
    case Synchronise(call) => SyncSpec(a, cfg, call).0
    case StageHandoff(password) => StagedHandoff(a, password)
    case StageExpiry(overdue) => StagedExpiry(a, overdue)
    case RetireTarget(t) => if t in a.rows then a.(rows := a.rows[t := RetiredRow(a.rows[t])]) else a
  }

  /** A step under the configuration of its moment: connectors appear, disappear and change
      between steps. */
  datatype Moment = Moment(cfg: Config, step: Step)

  /** The account after a run, or nothing if some step of it is not legal. */
  function Execute(a: Account, run: seq<Moment>): Option<Account>
    decreases |run|
  {
    if run == [] then Some(a)
    else if !Legal(a, run[0].cfg, run[0].step) then None
    else Execute(Apply(a, run[0].cfg, run[0].step), run[1..])
  }

  lemma {:induction false} ExecuteComposes(a: Account, run: seq<Moment>, more: seq<Moment>)
    requires Execute(a, run).Some?
    ensures Execute(a, run + more) == Execute(Execute(a, run).value, more)
    decreases |run|
  {
    if run == [] {
      assert run + more == more;
    } else {
      assert (run + more)[0] == run[0] && (run + more)[1..] == run[1..] + more;
      ExecuteComposes(Apply(a, run[0].cfg, run[0].step), run[1..], more);
    }
  }

  // ---- rows ----

  lemma TrackingExtends(row: Row, after: Row, e: Event)
    requires OffboardingTracked(row) && Offboarding(e)
    requires after.trace == row.trace + [e]
    requires Shown(after) == OffboardingStatus([e])
    ensures OffboardingTracked(after)
  {
  }

  lemma TrackingLosesOutcome(row: Row, after: Row, e: Event)
    requires OffboardingTracked(row) && Offboarding(e) && e.Called?
    requires after.trace == row.trace + [e] + [OutcomeLost]
    requires Shown(after).Unassigned?
    ensures OffboardingTracked(after)
  {
    assert SinceUnassigned(row.trace + [e]) == SinceUnassigned(row.trace) + [e] by {
      assert Front(row.trace + [e]) == row.trace;
    }
    assert Front(after.trace) == row.trace + [e] && Last(after.trace) == OutcomeLost;
  }

  lemma {:induction false} FailedCallsExtend(trace: seq<Event>, e: Event)
    ensures FailedCalls(trace + [e])
         == if e.Called? then (if e.result.Accepted? then 0 else FailedCalls(trace) + 1) else FailedCalls(trace)
  {
    assert Front(trace + [e]) == trace;
  }

  lemma VisitKeepsStreak(ctx: RunContext, cfg: Config, connector: Connector, row: Row, result: CallResult)
    requires StreakTracked(row)
    ensures StreakTracked(Visited(ctx, cfg, connector, row, result))
  {
    var operation := LifecycleOperationFor(ctx, row);
    FailedCallsExtend(row.trace, Called(operation, result));
    FailedCallsExtend(row.trace + [Called(operation, result)], OutcomeLost);
    FailedCallsExtend(row.trace, DeclaredUnsupported(operation));
  }

  lemma VisitKeepsRowLocal(ctx: RunContext, cfg: Config, connector: Connector, row: Row, result: CallResult)
    requires RowLocal(row) && !row.isRetired && row.operationId.Some?
    ensures RowLocal(Visited(ctx, cfg, connector, row, result))
    ensures Visited(ctx, cfg, connector, row, result).operationId == row.operationId
  {
    var after := Visited(ctx, cfg, connector, row, result);
    var operation := LifecycleOperationFor(ctx, row);
    VisitKeepsStreak(ctx, cfg, connector, row, result);
    if !row.isAssigned {
      if !connector.Supports(operation) {
        TrackingExtends(row, after, DeclaredUnsupported(operation));
      } else if Breaks(ctx, connector, row, result) {
        TrackingLosesOutcome(row, after, Called(operation, result));
      } else if !PassedOver(row, ctx) {
        TrackingExtends(row, after, Called(operation, result));
      }
    }
  }

  lemma PendingKeepsRowLocal(row: Row)
    requires RowLocal(row)
    ensures RowLocal(DeselectedRow(row))
  {
    if row.isAssigned {
      var after := DeselectedRow(row);
      FailedCallsExtend(row.trace, LostAssignment);
      assert SinceUnassigned(after.trace) == [] && Last(after.trace) == LostAssignment;
      assert !row.isRetired ==> OffboardingTracked(after);
    }
  }

  lemma SelectKeepsInv(a: Account, cfg: Config, req: PendingRequest)
    requires Inv(a) && SetPendingSpec(a, cfg, req).Success?
    ensures Inv(SetPendingSpec(a, cfg, req).value)
  {
    var after := SetPendingSpec(a, cfg, req).value;
    forall t | t in after.rows
      ensures RowLocal(after.rows[t]) && LinkOk(after.rows[t], after.userId, after.ops)
    {
      if t in a.rows {
        PendingKeepsRowLocal(a.rows[t]);
      }
    }
  }

  // ---- operations ----

  /** Rewriting the status and counters of an operation that is not cancelled, without
      cancelling it, keeps the supersession structure. */
  lemma UpdateKeepsSupersession(ops: map<OpId, Operation>, id: OpId, op: Operation)
    requires SupersessionOk(ops) && id in ops
    requires !ops[id].status.Cancelled? && !op.status.Cancelled?
    requires op.command == ops[id].command && op.supersedes == ops[id].supersedes
    ensures SupersessionOk(ops[id := op])
  {
    var after := ops[id := op];
    assert forall i, j :: Supersedes(after, i, j) <==> Supersedes(ops, i, j);
  }

  lemma CreateKeepsSupersession(ops: map<OpId, Operation>, newId: OpId, op: Operation)
    requires SupersessionOk(ops) && newId !in ops
    requires !op.status.Cancelled? && op.supersedes.None?
    ensures SupersessionOk(ops[newId := op])
  {
    var after := ops[newId := op];
    assert forall i, j :: Supersedes(after, i, j) <==> Supersedes(ops, i, j);
  }

  lemma SupersedeKeepsSupersession(ops: map<OpId, Operation>, previous: OpId, cancelled: Operation,
                                   newId: OpId, op: Operation)
    requires SupersessionOk(ops) && previous in ops && newId !in ops
    requires !ops[previous].status.Cancelled? && !ops[previous].command.Delete?
    requires cancelled.status.Cancelled? && cancelled.command == ops[previous].command
    requires cancelled.supersedes == ops[previous].supersedes
    requires op.command.Delete? && !op.status.Cancelled? && op.supersedes == Some(previous)
    ensures SupersessionOk(ops[previous := cancelled][newId := op])
  {
    var after := ops[previous := cancelled][newId := op];
    assert forall i, j :: Supersedes(after, i, j) <==> Supersedes(ops, i, j) || (i == newId && j == previous);
    forall j | j in after && after[j].status.Cancelled?
      ensures exists i :: Supersedes(after, i, j)
    {
      if j == previous {
        assert Supersedes(after, newId, previous);
      } else {
        var i :| Supersedes(ops, i, j);
        assert Supersedes(after, i, j);
      }
    }
  }

  lemma RequestKeepsSupersession(a: Account, command: LifecycleCommand, target: Option<Target>, newId: OpId)
    requires ActiveOk(a) && SupersessionOk(a.ops) && newId !in a.ops
    ensures SupersessionOk(RequestSpec(a, command, target, newId).0.ops)
  {
    var (after, r) := RequestSpec(a, command, target, newId);
    var overridden := Overridden(a, command);
    if r == Granted(newId) {
      if overridden.Some? {
        var previous := overridden.value;
        assert after.ops == a.ops[previous := a.ops[previous].(status := Cancelled)][newId := after.ops[newId]];
        SupersedeKeepsSupersession(a.ops, previous, a.ops[previous].(status := Cancelled), newId, after.ops[newId]);
      } else {
        assert after.ops == a.ops[newId := after.ops[newId]];
        CreateKeepsSupersession(a.ops, newId, after.ops[newId]);
      }
    }
  }

  /** A granted request changes the operation table only at the new operation and at the
      unfinished one it cancels. */
  lemma RequestFrame(a: Account, command: LifecycleCommand, target: Option<Target>, newId: OpId)
    requires newId !in a.ops
    ensures
      var (after, r) := RequestSpec(a, command, target, newId);
      && after == a.(ops := after.ops, active := after.active)
      && (forall j | j in a.ops ::
            j in after.ops && after.ops[j].userId == a.ops[j].userId
            && (after.ops[j] == a.ops[j] || (!a.ops[j].status.Terminal() && after.ops[j].status.Cancelled?)))
      && (r.Granted? ==> after.active == Some(r.id) && r.id in after.ops
                         && (r.id == newId || (after.ops == a.ops && a.active == Some(r.id)))
                         && (r.id == newId ==> after.ops[newId].userId == Some(a.userId)
                                               && after.ops[newId].status.Queued?))
      && (r.Conflict? ==> after.ops == a.ops && after.active == ActiveId(a))
  {
  }

  lemma RequestKeepsLinks(a: Account, command: LifecycleCommand, target: Option<Target>, newId: OpId)
    requires Linked(a) && newId !in a.ops
    ensures
      var (after, r) := RequestSpec(a, command, target, newId);
      Linked(after) && after.rows == a.rows
  {
    var (after, r) := RequestSpec(a, command, target, newId);
    RequestFrame(a, command, target, newId);
    LinksSurvive(a.rows, a.userId, a.ops, after.ops);
  }

  /** Links survive changes that only add operations or cancel unfinished ones. */
  lemma LinksSurvive(rows: map<Target, Row>, userId: int, before: map<OpId, Operation>, after: map<OpId, Operation>)
    requires forall t | t in rows :: LinkOk(rows[t], userId, before)
    requires forall j | j in before ::
      j in after && after[j].userId == before[j].userId
      && (after[j] == before[j] || (!before[j].status.Terminal() && after[j].status.Cancelled?))
    ensures forall t | t in rows :: LinkOk(rows[t], userId, after)
  {
  }

  // ---- a run ----

  /** Between choosing and concluding, only the links to the chosen operation are open. */
  ghost predicate OpenLinks(a: Account, rows: map<Target, Row>, id: OpId) {
    && ActiveOk(a)
    && id in a.ops && a.ops[id].userId == Some(a.userId) && a.ops[id].status.Resumable()
    && (forall t | t in rows :: RowLocal(rows[t]))
    && (forall t | t in rows && rows[t].operationId != Some(id) :: LinkOk(rows[t], a.userId, a.ops))
  }

  lemma ChooseKeepsSupersession(a: Account, rows: map<Target, Row>, call: SyncCall)
    requires ActiveOk(a) && SupersessionOk(a.ops) && call.newId !in a.ops
    ensures SupersessionOk(Choose(a, rows, call).0.ops)
  {
    var chosen := Choose(a, rows, call).0;
    if call.operationId.Some? && call.operationId.value in a.ops {
    } else if RetryCandidate(a, rows, call).Some? {
      var id := RetryCandidate(a, rows, call).value;
      assert chosen.ops == a.ops[id := chosen.ops[id]];
      UpdateKeepsSupersession(a.ops, id, chosen.ops[id]);
    } else {
      RequestKeepsSupersession(a, CommandFor(Deleting(a, call), call.actor), call.target, call.newId);
    }
  }

  lemma RetryKeepsLinks(a: Account, rows: map<Target, Row>, id: OpId, target: Option<Target>)
    requires ActiveOk(a) && id in a.ops && a.ops[id].userId == Some(a.userId)
    requires forall t | t in rows :: RowLocal(rows[t]) && LinkOk(rows[t], a.userId, a.ops)
    ensures OpenLinks(Resumed(a, id, target), rows, id)
  {
  }

  lemma RequestOpensLinks(a: Account, rows: map<Target, Row>, command: LifecycleCommand,
                          target: Option<Target>, newId: OpId)
    requires ActiveOk(a) && newId !in a.ops
    requires forall t | t in rows :: RowLocal(rows[t]) && LinkOk(rows[t], a.userId, a.ops)
    ensures
      var (after, r) := RequestSpec(a, command, target, newId);
      r.Granted? ==> OpenLinks(after, rows, r.id)
  {
    RequestFrame(a, command, target, newId);
    LinksSurvive(rows, a.userId, a.ops, RequestSpec(a, command, target, newId).0.ops);
  }

  lemma ChooseKeepsLinks(a: Account, rows: map<Target, Row>, call: SyncCall)
    requires ActiveOk(a) && call.newId !in a.ops
    requires forall t | t in rows :: RowLocal(rows[t]) && LinkOk(rows[t], a.userId, a.ops)
    ensures
      var (chosen, result) := Choose(a, rows, call);
      && (!result.Completed? ==> chosen == a)
      && (result.Completed? ==> OpenLinks(chosen, rows, result.id))
  {
    if call.operationId.Some? && call.operationId.value in a.ops {
    } else if RetryCandidate(a, rows, call).Some? {
      assert LinkOk(rows[call.target.value], a.userId, a.ops);
      RetryKeepsLinks(a, rows, RetryCandidate(a, rows, call).value, call.target);
    } else {
      RequestOpensLinks(a, rows, CommandFor(Deleting(a, call), call.actor), call.target, call.newId);
    }
  }

  lemma BeginKeepsLinks(a: Account, rows: map<Target, Row>, id: OpId, total: nat, target: Option<Target>)
    requires OpenLinks(a, rows, id)
    ensures
      var begun := Begun(a, id, total, target);
      && OpenLinks(begun, rows, id)
      && begun == a.(ops := a.ops[id := begun.ops[id]], active := begun.active)
      && begun.ops[id].status.Running?
      && begun.ops[id].command == a.ops[id].command && begun.ops[id].supersedes == a.ops[id].supersedes
  {
  }

  lemma RowsKeepLinks(a: Account, rows: map<Target, Row>, ctx: RunContext, cfg: Config, call: SyncCall, id: OpId)
    requires OpenLinks(a, rows, id)
    ensures OpenLinks(a, RowsAfter(rows, ctx, cfg, call, id), id)
  {
    var after := RowsAfter(rows, ctx, cfg, call, id);
    forall t | t in after
      ensures RowLocal(after[t])
      ensures after[t].operationId != Some(id) ==> after[t] == rows[t]
    {
      if t in Scope(rows, ctx.deleting, cfg, call.target) {
        var stamped := rows[t].(operationId := Some(id));
        assert RowLocal(stamped);
        if Reached(rows, t, ctx, cfg, call) {
          VisitKeepsRowLocal(ctx, cfg, cfg.connectors[t], stamped, call.answer(t));
        }
      }
    }
  }

  /** Concluding changes one operation, and not to a cancelled one. */
  lemma ConcludeChangesOneOperation(a: Account, cfg: Config, id: OpId, deleting: bool, now: real)
    requires id in a.ops && a.ops[id].status.Running?
    ensures
      var after := Concluded(a, cfg, id, deleting, now);
      && after == a.(ops := a.ops[id := after.ops[id]], active := after.active,
                     deletedAt := after.deletedAt, pendingSecret := after.pendingSecret)
      && !after.ops[id].status.Cancelled? && !after.ops[id].status.Queued?
      && after.ops[id].command == a.ops[id].command && after.ops[id].supersedes == a.ops[id].supersedes
      && after.ops[id].userId == a.ops[id].userId
      && (after.active != a.active ==> after.active.None?)
      && (after.active == Some(id) ==> !after.ops[id].status.Terminal())
      && (Failures(a.rows, id) != {} ==> after.ops[id].status.Failed? || after.ops[id].status.PartiallyFailed?)
  {
  }

  lemma ConcludeKeepsLinks(a: Account, cfg: Config, id: OpId, deleting: bool, now: real)
    requires OpenLinks(a, a.rows, id) && a.ops[id].status.Running?
    ensures Linked(Concluded(a, cfg, id, deleting, now))
  {
    ConcludeChangesOneOperation(a, cfg, id, deleting, now);
    var after := Concluded(a, cfg, id, deleting, now);
    forall t | t in a.rows
      ensures LinkOk(a.rows[t], a.userId, after.ops)
    {
      if a.rows[t].operationId != Some(id) {
        assert LinkOk(a.rows[t], a.userId, a.ops);
      } else if a.rows[t].state.Failed? {
        assert t in Failures(a.rows, id);
      }
    }
  }

  /** An interrupted run leaves its operation running, whatever its rows hold. */
  lemma InterruptionKeepsLinks(a: Account, id: OpId)
    requires OpenLinks(a, a.rows, id) && a.ops[id].status.Running?
    ensures Linked(a)
  {
  }

  lemma ConcludeKeepsInv(a: Account, cfg: Config, id: OpId, deleting: bool, now: real)
    requires OpenLinks(a, a.rows, id) && a.ops[id].status.Running? && SupersessionOk(a.ops)
    ensures Inv(Concluded(a, cfg, id, deleting, now))
  {
    ConcludeKeepsLinks(a, cfg, id, deleting, now);
    ConcludeChangesOneOperation(a, cfg, id, deleting, now);
    UpdateKeepsSupersession(a.ops, id, Concluded(a, cfg, id, deleting, now).ops[id]);
  }

  lemma VisitKeepsOpenLinks(a: Account, cfg: Config, call: SyncCall, rows: map<Target, Row>, id: OpId)
    requires OpenLinks(a, rows, id) && SupersessionOk(a.ops)
    ensures
      var visited := VisitedAccount(a, cfg, call, rows, id);
      OpenLinks(visited, visited.rows, id) && visited.ops[id].status.Running? && SupersessionOk(visited.ops)
  {
    var ctx := Context(a, call);
    var total := |Scope(rows, ctx.deleting, cfg, call.target)|;
    BeginKeepsLinks(a, rows, id, total, call.target);
    var begun := Begun(a, id, total, call.target);
    UpdateKeepsSupersession(a.ops, id, begun.ops[id]);
    RowsKeepLinks(begun, rows, ctx, cfg, call, id);
  }

  lemma RunKeepsInv(a: Account, cfg: Config, call: SyncCall, rows: map<Target, Row>, id: OpId)
    requires OpenLinks(a, rows, id) && SupersessionOk(a.ops)
    ensures Inv(RunSpec(a, cfg, call, rows, id))
  {
    var visited := VisitedAccount(a, cfg, call, rows, id);
    VisitKeepsOpenLinks(a, cfg, call, rows, id);
    InterruptionKeepsLinks(visited, id);
    ConcludeKeepsInv(visited, cfg, id, Deleting(a, call), call.now);
  }

  lemma SyncKeepsInv(a: Account, cfg: Config, call: SyncCall)
    requires Inv(a) && call.newId !in a.ops
    ensures Inv(SyncSpec(a, cfg, call).0)
  {
    if !a.isRoot {
      var rows := WithLegacyRows(a.rows, cfg);
      ChooseKeepsLinks(a, rows, call);
      ChooseKeepsSupersession(a, rows, call);
      var (chosen, result) := Choose(a, rows, call);
      if result.Completed? {
        RunKeepsInv(chosen, cfg, call, rows, result.id);
      }
    }
  }

  // ---- every step, every run ----

  lemma StepKeepsInv(a: Account, cfg: Config, step: Step)
    requires Inv(a) && Legal(a, cfg, step)
    ensures Inv(Apply(a, cfg, step))
  {
    match step
    case Request(command, target, newId) =>
      RequestKeepsLinks(a, command, target, newId);
      RequestKeepsSupersession(a, command, target, newId);
    case Select(req) => if SetPendingSpec(a, cfg, req).Success? { SelectKeepsInv(a, cfg, req); }
    case Synchronise(call) => SyncKeepsInv(a, cfg, call);
    case StageHandoff(password) => HandoffKeepsInv(a, password);
    case StageExpiry(overdue) => ExpiryKeepsInv(a, overdue);
    case RetireTarget(t) => if t in a.rows { RetirementKeepsInv(a, t); }
    case EditUser(_, _, _, _, _, _, _, _) =>
  }

  lemma HandoffKeepsInv(a: Account, password: string)
    requires Inv(a)
    ensures Inv(StagedHandoff(a, password))
  {
    var after := StagedHandoff(a, password);
    forall t | t in after.rows
      ensures RowLocal(after.rows[t]) && LinkOk(after.rows[t], after.userId, after.ops)
    {
      assert RowLocal(a.rows[t]) && LinkOk(a.rows[t], a.userId, a.ops);
    }
  }

  lemma ExpiryKeepsInv(a: Account, overdue: bool)
    requires Inv(a)
    ensures Inv(StagedExpiry(a, overdue))
  {
    var after := StagedExpiry(a, overdue);
    forall t | t in after.rows
      ensures RowLocal(after.rows[t]) && LinkOk(after.rows[t], after.userId, after.ops)
    {
      assert RowLocal(a.rows[t]) && LinkOk(a.rows[t], a.userId, a.ops);
    }
  }

  lemma RetirementKeepsInv(a: Account, t: Target)
    requires Inv(a) && t in a.rows
    ensures Inv(a.(rows := a.rows[t := RetiredRow(a.rows[t])]))
  {
    assert RowLocal(a.rows[t]) && LinkOk(a.rows[t], a.userId, a.ops);
  }

  lemma {:induction false} RunsKeepInv(a: Account, run: seq<Moment>)
    requires Inv(a) && Execute(a, run).Some?
    ensures Inv(Execute(a, run).value)
    decreases |run|
  {
    if run != [] {
      StepKeepsInv(a, run[0].cfg, run[0].step);
      RunsKeepInv(Apply(a, run[0].cfg, run[0].step), run[1..]);
    }
  }

  // ---- what the invariant says to an operator ----

  lemma NewAccountOk(userId: int)
    ensures Inv(NewAccount(userId))
  {
  }

  /** Failed offboarding is masked by a lost outcome and by nothing else. Over every run
      from a new account, whatever targets are configured, retired and selected again
      meanwhile, a row that has lost its target shows as a finished offboarding exactly when
      the last thing that happened since was a disable or delete that the target accepted,
      or one whose outcome was lost; otherwise it shows as disabling, failed or unsupported.
      No outcome is lost before more than `LAST_ATTEMPT` calls to the target failed without
      one being accepted in between. */
  lemma {:induction false} FailedOffboardingIsMaskedIff(userId: int, run: seq<Moment>, t: Target)
    requires Execute(NewAccount(userId), run).Some?
    requires t in Execute(NewAccount(userId), run).value.rows
    requires
      var row := Execute(NewAccount(userId), run).value.rows[t];
      !row.isAssigned && !row.isRetired
    ensures
      var row := Execute(NewAccount(userId), run).value.rows[t];
      var since := SinceUnassigned(row.trace);
      && (Shown(row).Unassigned? <==> since != [] && (ConfirmsRemoval(Last(since)) || Last(since).OutcomeLost?))
      && (Shown(row).PendingDisable? <==> since == [])
      && (Shown(row).Unassigned? || Shown(row).PendingDisable? || Shown(row).Failed? || Shown(row).Unsupported?)
      && (forall e | e in since :: Offboarding(e))
      && (since != [] && Last(since).OutcomeLost? ==> FailedCalls(row.trace) > LAST_ATTEMPT)
  {
    NewAccountOk(userId);
    RunsKeepInv(NewAccount(userId), run);
    var row := Execute(NewAccount(userId), run).value.rows[t];
    assert RowLocal(row);
    var since := SinceUnassigned(row.trace);
    if since != [] {
      assert Last(since) in since && Last(since) == Last(row.trace);
    }
  }

  /** As long as no more than `LAST_ATTEMPT` calls to a target have failed without one being
      accepted in between, its failed offboarding is never masked. */
  lemma {:induction false} FailedOffboardingIsNeverMasked(userId: int, run: seq<Moment>, t: Target)
    requires Execute(NewAccount(userId), run).Some?
    requires t in Execute(NewAccount(userId), run).value.rows
    requires
      var row := Execute(NewAccount(userId), run).value.rows[t];
      !row.isAssigned && !row.isRetired && FailedCalls(row.trace) <= LAST_ATTEMPT
    ensures
      var row := Execute(NewAccount(userId), run).value.rows[t];
      var since := SinceUnassigned(row.trace);
      Shown(row).Unassigned? <==> since != [] && ConfirmsRemoval(Last(since))
  {
    FailedOffboardingIsMaskedIff(userId, run, t);
  }

  /** One visit masks a failed offboarding if and only if it breaks: the row then shows as
      offboarded although its last call was not accepted. */
  lemma VisitMasksIff(ctx: RunContext, cfg: Config, connector: Connector, row: Row, result: CallResult)
    requires !row.isAssigned && !row.isRetired && (row.state.PendingDisable? || row.state.Failed?)
    ensures
      var after := Visited(ctx, cfg, connector, row, result);
      && after.trace != []
      && (Shown(after).Unassigned? && !ConfirmsRemoval(Last(after.trace)) <==> Breaks(ctx, connector, row, result))
  {
  }

  /** A masked row is forgotten: no retry is scheduled for it, and no run but a deletion has
      it in scope. */
  lemma MaskedRowForgotten(row: Row, t: Target, cfg: Config, target: Option<Target>)
    requires RowLocal(row) && !row.isAssigned && !row.isRetired && row.state.Pending?
    ensures row.nextRetryAt.None? && !InScope(row, t, false, cfg, target)
    ensures
      var since := SinceUnassigned(row.trace);
      since != [] && (Last(since).OutcomeLost? || ConfirmsRemoval(Last(since)))
  {
    var since := SinceUnassigned(row.trace);
    if since != [] {
      assert Last(since) in since;
    }
  }

  // ---- runs without interruption ----

  /** Every failed row names an operation that failed. */
  ghost predicate RetriesNameFailures(a: Account) {
    forall t | t in a.rows && a.rows[t].state.Failed? ::
      && a.rows[t].operationId.Some? && a.rows[t].operationId.value in a.ops
      && HasFailed(a.ops[a.rows[t].operationId.value])
  }

  /** Failed rows of other operations name failures already. */
  ghost predicate OthersNameFailures(rows: map<Target, Row>, ops: map<OpId, Operation>, id: OpId) {
    forall t | t in rows && rows[t].state.Failed? && rows[t].operationId != Some(id) ::
      rows[t].operationId.Some? && rows[t].operationId.value in ops && HasFailed(ops[rows[t].operationId.value])
  }

  lemma ConcludingNamesFailures(a: Account, cfg: Config, id: OpId, deleting: bool, now: real)
    requires id in a.ops && a.ops[id].status.Running? && OthersNameFailures(a.rows, a.ops, id)
    ensures RetriesNameFailures(Concluded(a, cfg, id, deleting, now))
  {
    ConcludeChangesOneOperation(a, cfg, id, deleting, now);
    forall t | t in a.rows && a.rows[t].state.Failed? && a.rows[t].operationId == Some(id)
      ensures Failures(a.rows, id) != {}
    {
      assert t in Failures(a.rows, id);
    }
  }

  lemma RunKeepsFailureLinks(a: Account, cfg: Config, call: SyncCall, rows: map<Target, Row>, id: OpId)
    requires id in a.ops && Breaking(rows, Context(a, call), cfg, call) == {}
    requires OthersNameFailures(rows, a.ops, id)
    ensures RetriesNameFailures(RunSpec(a, cfg, call, rows, id))
  {
    var ctx := Context(a, call);
    var visited := VisitedAccount(a, cfg, call, rows, id);
    forall t | t in visited.rows && visited.rows[t].operationId != Some(id)
      ensures visited.rows[t] == rows[t]
    {
      assert t !in Scope(rows, ctx.deleting, cfg, call.target);
    }
    ConcludingNamesFailures(visited, cfg, id, ctx.deleting, call.now);
  }

  lemma ChooseKeepsFailures(a: Account, rows: map<Target, Row>, call: SyncCall, j: OpId)
    requires call.newId !in a.ops && j in a.ops && HasFailed(a.ops[j])
    ensures
      var (chosen, result) := Choose(a, rows, call);
      j in chosen.ops && (chosen.ops[j] == a.ops[j] || result == Completed(j))
  {
    if call.operationId.Some? && call.operationId.value in a.ops {
    } else if RetryCandidate(a, rows, call).None? {
      RequestFrame(a, CommandFor(Deleting(a, call), call.actor), call.target, call.newId);
    }
  }

  lemma SyncKeepsFailureLinks(a: Account, cfg: Config, call: SyncCall)
    requires RetriesNameFailures(a) && call.newId !in a.ops && !SyncSpec(a, cfg, call).1.Interrupted?
    ensures RetriesNameFailures(SyncSpec(a, cfg, call).0)
  {
    var rows := WithLegacyRows(a.rows, cfg);
    var (chosen, result) := Choose(a, rows, call);
    if !a.isRoot && result.Completed? {
      forall t | t in rows && rows[t].state.Failed? && rows[t].operationId != Some(result.id)
        ensures rows[t].operationId.Some? && rows[t].operationId.value in chosen.ops
                && HasFailed(chosen.ops[rows[t].operationId.value])
      {
        ChooseKeepsFailures(a, rows, call, rows[t].operationId.value);
      }
      RunKeepsFailureLinks(chosen, cfg, call, rows, result.id);
    }
  }

  predicate Interrupts(a: Account, cfg: Config, step: Step)
    requires Legal(a, cfg, step)
  {
    step.Synchronise? && SyncSpec(a, cfg, step.call).1.Interrupted?
  }

  predicate Uninterrupted(a: Account, run: seq<Moment>)
    decreases |run|
  {
    run == [] ||
    (&& Legal(a, run[0].cfg, run[0].step) && !Interrupts(a, run[0].cfg, run[0].step)
     && Uninterrupted(Apply(a, run[0].cfg, run[0].step), run[1..]))
  }

  lemma StepKeepsFailureLinks(a: Account, cfg: Config, step: Step)
    requires RetriesNameFailures(a) && Legal(a, cfg, step) && !Interrupts(a, cfg, step)
    ensures RetriesNameFailures(Apply(a, cfg, step))
  {
    match step
    case Request(command, target, newId) => RequestFrame(a, command, target, newId);
    case Synchronise(call) => SyncKeepsFailureLinks(a, cfg, call);
    case Select(req) => if SetPendingSpec(a, cfg, req).Success? { SelectKeepsFailureLinks(a, cfg, req); }
    case _ =>
  }

  lemma SelectKeepsFailureLinks(a: Account, cfg: Config, req: PendingRequest)
    requires RetriesNameFailures(a) && SetPendingSpec(a, cfg, req).Success?
    ensures RetriesNameFailures(SetPendingSpec(a, cfg, req).value)
  {
  }

  /** Over every run that is never interrupted, a failed row names an operation that failed,
      so that no retry is refused. */
  lemma {:induction false} UninterruptedRunsNameFailures(a: Account, run: seq<Moment>)
    requires RetriesNameFailures(a) && Uninterrupted(a, run)
    ensures Execute(a, run).Some? && RetriesNameFailures(Execute(a, run).value)
    decreases |run|
  {
    if run != [] {
      StepKeepsFailureLinks(a, run[0].cfg, run[0].step);
      UninterruptedRunsNameFailures(Apply(a, run[0].cfg, run[0].step), run[1..]);
    }
  }

  /** A retry is scheduled for exactly the failed rows, and each of them names an operation
      of this user that failed or, after an interruption, is running or superseded. */
  lemma RetriesAreScheduledExactly(a: Account, t: Target)
    requires Inv(a) && t in a.rows
    ensures a.rows[t].nextRetryAt.Some? <==> a.rows[t].state.Failed?
    ensures a.rows[t].state.Failed? ==>
      && a.rows[t].attemptCount >= 1 && !a.rows[t].isRetired
      && a.rows[t].operationId.Some? && a.rows[t].operationId.value in a.ops
      && var op := a.ops[a.rows[t].operationId.value];
      && op.userId == Some(a.userId) && (HasFailed(op) || op.status.Running? || op.status.Cancelled?)
      && (op.status.Resumable() <==> !op.status.Cancelled?)
  {
  }

  lemma ChooseFrame(a: Account, rows: map<Target, Row>, call: SyncCall)
    requires call.newId !in a.ops
    ensures
      var chosen := Choose(a, rows, call).0;
      && chosen == a.(ops := chosen.ops, active := chosen.active)
      && (forall j | j in a.ops ::
            && j in chosen.ops && chosen.ops[j].userId == a.ops[j].userId
            && (Absorbed(a.ops[j].status) ==> chosen.ops[j] == a.ops[j]))
  {
    if call.operationId.Some? && call.operationId.value in a.ops {
    } else if RetryCandidate(a, rows, call).Some? {
    } else {
      RequestFrame(a, CommandFor(Deleting(a, call), call.actor), call.target, call.newId);
    }
  }

  lemma RunFrame(a: Account, cfg: Config, call: SyncCall, rows: map<Target, Row>, id: OpId)
    requires id in a.ops
    ensures
      var after := RunSpec(a, cfg, call, rows, id);
      && after.rows == RowsAfter(rows, Context(a, call), cfg, call, id)
      && after.ops == a.ops[id := after.ops[id]] && after.ops[id].userId == a.ops[id].userId
      && after.isRoot == a.isRoot && after.userId == a.userId
  {
  }

  /** A targeted run touches its target's row only. */
  lemma TargetedRunFrame(a: Account, cfg: Config, call: SyncCall)
    requires call.newId !in a.ops && call.target.Some? && a.rows != map[]
    ensures
      var after := SyncSpec(a, cfg, call).0;
      && after.rows.Keys == a.rows.Keys
      && (forall t | t in a.rows && t != call.target.value :: after.rows[t] == a.rows[t])
      && after.isRoot == a.isRoot
  {
    var (chosen, result) := Choose(a, a.rows, call);
    ChooseFrame(a, a.rows, call);
    if !a.isRoot && result.Completed? {
      RunFrame(chosen, cfg, call, a.rows, result.id);
    }
  }

  /** Whether a retry of this row raises halfway: a condition on the row, its connector and
      the target's answer. */
  predicate RetryBreaks(a: Account, cfg: Config, call: SyncCall)
    requires call.target.Some?
  {
    var t := call.target.value;
    && t in a.rows && t in cfg.connectors
    && Breaks(Context(a, call), cfg.connectors[t], a.rows[t], call.answer(t))
  }

  lemma TargetedBreaking(a: Account, cfg: Config, call: SyncCall)
    requires call.target.Some? && call.target.value in a.rows
    requires a.rows[call.target.value].state.Failed? && !a.rows[call.target.value].isRetired
    ensures Breaking(a.rows, Context(a, call), cfg, call) != {} <==> RetryBreaks(a, cfg, call)
  {
    var t := call.target.value;
    if RetryBreaks(a, cfg, call) {
      assert t in Breaking(a.rows, Context(a, call), cfg, call);
    }
  }

  /** A due retry is never skipped. It is refused if and only if its operation was
      superseded; otherwise it runs under the operation the row was recorded with, and is
      interrupted exactly when its target fails again after the last attempt whose delay can
      be computed. */
  lemma DueRetryRuns(a: Account, cfg: Config, due: DueRetry, call: SyncCall)
    requires Inv(a) && !a.isRoot && call.newId !in a.ops
    requires call == RetryCall(due, call.newId, call.now, call.answer, call.rank)
    requires due.target in a.rows && a.rows[due.target].state.Failed?
    requires due.operationId == a.rows[due.target].operationId
    ensures due.operationId.Some? && due.operationId.value in a.ops
    ensures
      var id := due.operationId.value;
      SyncSpec(a, cfg, call).1 == if a.ops[id].status.Cancelled? then Raised
                                  else if RetryBreaks(a, cfg, call) then Interrupted(id) else Completed(id)
    ensures SyncSpec(a, cfg, call).0.ops.Keys == a.ops.Keys && Inv(SyncSpec(a, cfg, call).0)
    ensures Raised == SyncSpec(a, cfg, call).1 ==> SyncSpec(a, cfg, call).0 == a
  {
    RetriesAreScheduledExactly(a, due.target);
    SyncKeepsInv(a, cfg, call);
    TargetedBreaking(a, cfg, call);
    if !a.ops[due.operationId.value].status.Cancelled? {
      RunFrame(a, cfg, call, a.rows, due.operationId.value);
    }
  }

  /** A targeted visit of a failed row that carries the operation already. */
  lemma FailedRowAfter(rows: map<Target, Row>, t: Target, ctx: RunContext, cfg: Config, call: SyncCall, id: OpId)
    requires t in rows && rows[t].state.Failed? && !rows[t].isRetired && rows[t].operationId == Some(id)
    requires call.target == Some(t)
    ensures RowsAfter(rows, ctx, cfg, call, id)[t]
         == if t in cfg.connectors then Visited(ctx, cfg, cfg.connectors[t], rows[t], call.answer(t)) else rows[t]
  {
    assert rows[t].(operationId := Some(id)) == rows[t];
    if t in cfg.connectors {
      assert t in ToVisit(rows, ctx.deleting, cfg, call.target);
      assert Reached(rows, t, ctx, cfg, call);
    }
  }

  lemma VisitTrace(ctx: RunContext, cfg: Config, connector: Connector, row: Row, result: CallResult)
    requires !row.state.AwaitingCredentials?
    ensures
      var operation := LifecycleOperationFor(ctx, row);
      Visited(ctx, cfg, connector, row, result).trace == row.trace +
        if !connector.Supports(operation) then [DeclaredUnsupported(operation)]
        else if Breaks(ctx, connector, row, result) then [Called(operation, result), OutcomeLost]
        else [Called(operation, result)]
  {
  }

  lemma RetriedRow(a: Account, cfg: Config, due: DueRetry, call: SyncCall)
    requires Inv(a) && !a.isRoot && call.newId !in a.ops
    requires call == RetryCall(due, call.newId, call.now, call.answer, call.rank)
    requires due.target in a.rows && a.rows[due.target].state.Failed?
    requires due.operationId == a.rows[due.target].operationId
    requires SyncSpec(a, cfg, call).1.Began()
    ensures due.target in SyncSpec(a, cfg, call).0.rows
    ensures
      var t, row := due.target, a.rows[due.target];
      SyncSpec(a, cfg, call).0.rows[t]
      == if t in cfg.connectors then Visited(Context(a, call), cfg, cfg.connectors[t], row, call.answer(t)) else row
  {
    RetriesAreScheduledExactly(a, due.target);
    DueRetryRuns(a, cfg, due, call);
    RunFrame(a, cfg, call, a.rows, due.operationId.value);
    FailedRowAfter(a.rows, due.target, Context(a, call), cfg, call, due.operationId.value);
  }

  /** What a due retry does to its row: without a connector nothing at all, so that it stays
      due; where the operation is unsupported it says so; and otherwise, and only then, the
      target is asked. */
  lemma DueRetryAsksIff(a: Account, cfg: Config, due: DueRetry, call: SyncCall)
    requires Inv(a) && !a.isRoot && call.newId !in a.ops
    requires call == RetryCall(due, call.newId, call.now, call.answer, call.rank)
    requires due.target in a.rows && a.rows[due.target].state.Failed?
    requires due.operationId == a.rows[due.target].operationId
    requires SyncSpec(a, cfg, call).1.Began()
    ensures due.target in SyncSpec(a, cfg, call).0.rows
    ensures
      var t, row, after := due.target, a.rows[due.target], SyncSpec(a, cfg, call).0.rows[due.target];
      var operation := LifecycleOperationFor(Context(a, call), row);
      var events := if t !in cfg.connectors then []
                    else if !cfg.connectors[t].Supports(operation) then [DeclaredUnsupported(operation)]
                    else if RetryBreaks(a, cfg, call) then [Called(operation, call.answer(t)), OutcomeLost]
                    else [Called(operation, call.answer(t))];
      after.trace == row.trace + events && (t !in cfg.connectors ==> after == row)
  {
    RetriedRow(a, cfg, due, call);
    var t := due.target;
    if t in cfg.connectors {
      VisitTrace(Context(a, call), cfg, cfg.connectors[t], a.rows[t], call.answer(t));
    }
  }

  lemma SyncKeepsOperation(a: Account, cfg: Config, call: SyncCall, id: OpId)
    requires call.newId !in a.ops && id in a.ops
    ensures
      var after := SyncSpec(a, cfg, call).0;
      && after.userId == a.userId && after.isRoot == a.isRoot
      && id in after.ops && after.ops[id].userId == a.ops[id].userId
  {
    var rows := WithLegacyRows(a.rows, cfg);
    var (chosen, result) := Choose(a, rows, call);
    ChooseFrame(a, rows, call);
    if !a.isRoot && result.Completed? {
      RunFrame(chosen, cfg, call, rows, result.id);
    }
  }

  lemma StepKeepsOperation(a: Account, cfg: Config, step: Step, id: OpId)
    requires Legal(a, cfg, step) && id in a.ops
    ensures
      var after := Apply(a, cfg, step);
      && after.userId == a.userId && after.isRoot == a.isRoot
      && id in after.ops && after.ops[id].userId == a.ops[id].userId
  {
    match step
    case Request(command, target, newId) => RequestFrame(a, command, target, newId);
    case Synchronise(call) => SyncKeepsOperation(a, cfg, call, id);
    case _ =>
  }

  lemma {:induction false} RunsKeepOperation(a: Account, run: seq<Moment>, id: OpId)
    requires id in a.ops && Execute(a, run).Some?
    ensures
      var after := Execute(a, run).value;
      && after.userId == a.userId && after.isRoot == a.isRoot
      && id in after.ops && after.ops[id].userId == a.ops[id].userId
    decreases |run|
  {
    if run != [] {
      StepKeepsOperation(a, run[0].cfg, run[0].step, id);
      RunsKeepOperation(Apply(a, run[0].cfg, run[0].step), run[1..], id);
    }
  }

  /** An entry of a batch of retries after anything else has happened since the batch was
      read, be it other entries, manual retries or requests: it is refused if and only if its
      operation is settled by then, and otherwise runs under that operation. */
  lemma {:induction false} StaleRetryRefusedIff(a: Account, between: seq<Moment>, cfg: Config, due: DueRetry,
                                                call: SyncCall)
    requires Inv(a) && !a.isRoot && Execute(a, between).Some?
    requires due.target in a.rows && a.rows[due.target].state.Failed?
    requires due.operationId == a.rows[due.target].operationId
    requires call == RetryCall(due, call.newId, call.now, call.answer, call.rank)
    requires call.newId !in Execute(a, between).value.ops
    ensures due.operationId.Some? && due.operationId.value in Execute(a, between).value.ops
    ensures
      var now, id := Execute(a, between).value, due.operationId.value;
      if Absorbed(now.ops[id].status) then SyncSpec(now, cfg, call) == (now, Raised)
      else SyncSpec(now, cfg, call).1.Began() && SyncSpec(now, cfg, call).1.id == id
  {
    RetriesAreScheduledExactly(a, due.target);
    RunsKeepOperation(a, between, due.operationId.value);
    LateRunChangesNothing(Execute(a, between).value, cfg, call);
  }

  /** The state after running a batch of due retries one after the other, and whether all of
      them completed under their operations: an exception ends the scan. */
  function RetryBatch(a: Account, cfg: Config, batch: seq<DueRetry>, newId: OpId, now: real,
                      answer: Target -> CallResult, rank: Target -> nat): (Account, bool)
    decreases |batch|
  {
    if batch == [] then (a, true)
    else if newId in a.ops then (a, false)
    else
      var (next, result) := SyncSpec(a, cfg, RetryCall(batch[0], newId, now, answer, rank));
      if result.Raised? || result.Interrupted? then (next, false)
      else
        var (last, ok) := RetryBatch(next, cfg, batch[1..], newId, now, answer, rank);
        (last, ok && result.Completed? && Some(result.id) == batch[0].operationId)
  }

  /** An entry as it was read: its row is failed, and its operation not superseded. */
  ghost predicate Retryable(a: Account, due: DueRetry) {
    && due.target in a.rows && a.rows[due.target].state.Failed?
    && due.operationId == a.rows[due.target].operationId && due.operationId.Some?
    && due.operationId.value in a.ops && !a.ops[due.operationId.value].status.Cancelled?
  }

  /** One retry leaves the other entries of the batch as they were. */
  lemma RetryKeepsOthers(a: Account, cfg: Config, due: DueRetry, other: DueRetry, call: SyncCall, later: SyncCall)
    requires Inv(a) && !a.isRoot && call.newId !in a.ops && Retryable(a, due) && Retryable(a, other)
    requires due.target != other.target
    requires call == RetryCall(due, call.newId, call.now, call.answer, call.rank)
    requires later == RetryCall(other, call.newId, call.now, call.answer, call.rank)
    ensures
      var next := SyncSpec(a, cfg, call).0;
      && Retryable(next, other) && next.rows[other.target] == a.rows[other.target] && next.isRoot == a.isRoot
      && (RetryBreaks(next, cfg, later) <==> RetryBreaks(a, cfg, later))
  {
    var next := SyncSpec(a, cfg, call).0;
    TargetedRunFrame(a, cfg, call);
    RetryKeepsContext(a, cfg, due, call);
    SameBreaks(a, next, cfg, later);
  }

  lemma SameBreaks(a: Account, next: Account, cfg: Config, call: SyncCall)
    requires call.target.Some? && call.action.None? && call.target.value in a.rows && call.target.value in next.rows
    requires next.rows[call.target.value] == a.rows[call.target.value] && a.rows[call.target.value].state.Failed?
    requires next.desired == a.desired && next.isDisabled == a.isDisabled && next.decision == a.decision
    requires !a.desired.WantDelete? ==> next.deletedAt == a.deletedAt
    ensures RetryBreaks(next, cfg, call) <==> RetryBreaks(a, cfg, call)
  {
    assert LifecycleOperationFor(Context(next, call), a.rows[call.target.value])
        == LifecycleOperationFor(Context(a, call), a.rows[call.target.value]);
  }

  /** What a run may change of the user decides nothing about another row's retry: a date of
      deletion comes with a wish to delete, and a failed row needs no password. */
  lemma RunKeepsUser(a: Account, cfg: Config, call: SyncCall, rows: map<Target, Row>, id: OpId)
    requires id in a.ops
    ensures
      var after := RunSpec(a, cfg, call, rows, id);
      && after.desired == a.desired && after.isDisabled == a.isDisabled && after.decision == a.decision
      && (!Deleting(a, call) ==> after.deletedAt == a.deletedAt)
      && !after.ops[id].status.Cancelled?
  {
    var ctx := Context(a, call);
    var visited := VisitedAccount(a, cfg, call, rows, id);
    ConcludeKeepsUser(visited, cfg, id, ctx.deleting, call.now);
  }

  lemma ConcludeKeepsUser(a: Account, cfg: Config, id: OpId, deleting: bool, now: real)
    requires id in a.ops && a.ops[id].status.Running?
    ensures
      var after := Concluded(a, cfg, id, deleting, now);
      && after.desired == a.desired && after.isDisabled == a.isDisabled && after.decision == a.decision
      && (!deleting ==> after.deletedAt == a.deletedAt) && !after.ops[id].status.Cancelled?
  {
  }

  lemma RetryKeepsContext(a: Account, cfg: Config, due: DueRetry, call: SyncCall)
    requires Inv(a) && !a.isRoot && call.newId !in a.ops && Retryable(a, due)
    requires call == RetryCall(due, call.newId, call.now, call.answer, call.rank)
    ensures
      var next := SyncSpec(a, cfg, call).0;
      && next.desired == a.desired && next.isDisabled == a.isDisabled && next.decision == a.decision
      && (!a.desired.WantDelete? ==> next.deletedAt == a.deletedAt)
      && next.ops.Keys == a.ops.Keys
      && (forall j | j in a.ops && !a.ops[j].status.Cancelled? :: !next.ops[j].status.Cancelled?)
  {
    var id := due.operationId.value;
    DueRetryRuns(a, cfg, due, call);
    RetriesAreScheduledExactly(a, due.target);
    RunKeepsUser(a, cfg, call, a.rows, id);
    RunFrame(a, cfg, call, a.rows, id);
  }

  /** One completed entry leaves the rest of its batch as it was read. */
  lemma RetryKeepsBatch(a: Account, cfg: Config, batch: seq<DueRetry>, newId: OpId, now: real,
                        answer: Target -> CallResult, rank: Target -> nat)
    requires Inv(a) && !a.isRoot && newId !in a.ops && batch != []
    requires forall i, j | 0 <= i < j < |batch| :: batch[i].target != batch[j].target
    requires forall d | d in batch :: Retryable(a, d)
    ensures
      var next := SyncSpec(a, cfg, RetryCall(batch[0], newId, now, answer, rank)).0;
      && Inv(next) && !next.isRoot && newId !in next.ops
      && (forall d | d in batch[1..] ::
            && Retryable(next, d)
            && (RetryBreaks(next, cfg, RetryCall(d, newId, now, answer, rank))
                <==> RetryBreaks(a, cfg, RetryCall(d, newId, now, answer, rank))))
  {
    var call := RetryCall(batch[0], newId, now, answer, rank);
    assert batch[0] in batch;
    DueRetryRuns(a, cfg, batch[0], call);
    RetryKeepsContext(a, cfg, batch[0], call);
    SyncKeepsOperation(a, cfg, call, batch[0].operationId.value);
    forall d | d in batch[1..]
      ensures Retryable(SyncSpec(a, cfg, call).0, d)
      ensures RetryBreaks(SyncSpec(a, cfg, call).0, cfg, RetryCall(d, newId, now, answer, rank))
         <==> RetryBreaks(a, cfg, RetryCall(d, newId, now, answer, rank))
    {
      var j :| 1 <= j < |batch| && batch[j] == d;
      assert batch[0].target != batch[j].target;
      assert d in batch;
      RetryKeepsOthers(a, cfg, batch[0], d, call, RetryCall(d, newId, now, answer, rank));
    }
  }

  /** The scan completes all entries of a batch, read before the first of them ran, if and
      only if none of them breaks. */
  lemma {:induction false} RetryBatchCompletesIff(a: Account, cfg: Config, batch: seq<DueRetry>, newId: OpId,
                                                  now: real, answer: Target -> CallResult, rank: Target -> nat)
    requires Inv(a) && !a.isRoot && newId !in a.ops
    requires forall i, j | 0 <= i < j < |batch| :: batch[i].target != batch[j].target
    requires forall d | d in batch :: Retryable(a, d)
    ensures RetryBatch(a, cfg, batch, newId, now, answer, rank).1
       <==> forall d | d in batch :: !RetryBreaks(a, cfg, RetryCall(d, newId, now, answer, rank))
    decreases |batch|
  {
    if batch != [] {
      var next := FirstRetry(a, cfg, batch, newId, now, answer, rank);
      RetryBatchCompletesIff(next, cfg, batch[1..], newId, now, answer, rank);
      assert forall d | d in batch :: d == batch[0] || d in batch[1..];
      assert forall d | d in batch[1..] :: d in batch;
    }
  }

  /** The account after the first entry, from which the rest of the batch goes on. */
  lemma FirstRetry(a: Account, cfg: Config, batch: seq<DueRetry>, newId: OpId, now: real,
                   answer: Target -> CallResult, rank: Target -> nat)
    returns (next: Account)
    requires Inv(a) && !a.isRoot && newId !in a.ops && batch != []
    requires forall i, j | 0 <= i < j < |batch| :: batch[i].target != batch[j].target
    requires forall d | d in batch :: Retryable(a, d)
    ensures Inv(next) && !next.isRoot && newId !in next.ops
    ensures RetryBatch(a, cfg, batch, newId, now, answer, rank).1
       <==> !RetryBreaks(a, cfg, RetryCall(batch[0], newId, now, answer, rank))
            && RetryBatch(next, cfg, batch[1..], newId, now, answer, rank).1
    ensures forall d | d in batch[1..] ::
      && Retryable(next, d)
      && (RetryBreaks(next, cfg, RetryCall(d, newId, now, answer, rank))
          <==> RetryBreaks(a, cfg, RetryCall(d, newId, now, answer, rank)))
  {
    assert batch[0] in batch && batch[0..] == batch;
    next := SyncSpec(a, cfg, RetryCall(batch[0], newId, now, answer, rank)).0;
    DueRetryRuns(a, cfg, batch[0], RetryCall(batch[0], newId, now, answer, rank));
    RetryKeepsBatch(a, cfg, batch, newId, now, answer, rank);
    RetryBatchUnfolds(a, cfg, batch, 0, newId, now, answer, rank);
  }

  /** A run for a given operation and target creates nothing. */
  lemma GivenRunKeepsKeys(a: Account, cfg: Config, call: SyncCall)
    requires call.newId !in a.ops && call.operationId.Some? && call.operationId.value in a.ops
    requires call.target.Some? && a.rows != map[]
    ensures
      var after := SyncSpec(a, cfg, call).0;
      after.ops.Keys == a.ops.Keys && after.rows.Keys == a.rows.Keys
  {
    TargetedRunFrame(a, cfg, call);
    RunFrame(a, cfg, call, a.rows, call.operationId.value);
  }

  lemma {:induction false} RetryBatchUnfolds(a: Account, cfg: Config, batch: seq<DueRetry>, i: nat, newId: OpId,
                                             now: real, answer: Target -> CallResult, rank: Target -> nat)
    requires i < |batch| && newId !in a.ops
    ensures
      var (next, result) := SyncSpec(a, cfg, RetryCall(batch[i], newId, now, answer, rank));
      var rest := RetryBatch(next, cfg, batch[i + 1..], newId, now, answer, rank);
      RetryBatch(a, cfg, batch[i..], newId, now, answer, rank)
      == if result.Raised? || result.Interrupted? then (next, false)
         else (rest.0, rest.1 && result.Completed? && Some(result.id) == batch[i].operationId)
  {
    assert batch[i..][0] == batch[i] && batch[i..][1..] == batch[i + 1..];
  }

  // ---- operations over runs ----

  predicate Absorbed(status: OperationStatus) {
    status.Succeeded? || status.Cancelled? || status.Blocked?
  }

  /** A late run for an operation that has succeeded or was superseded is refused: it
      calls no connector and changes nothing at all. */
  lemma LateRunChangesNothing(a: Account, cfg: Config, call: SyncCall)
    requires call.newId !in a.ops && !a.isRoot
    requires call.operationId.Some? && call.operationId.value in a.ops
    requires a.ops[call.operationId.value].userId == Some(a.userId)
    ensures SyncSpec(a, cfg, call) == (a, Raised) <==> Absorbed(a.ops[call.operationId.value].status)
  {
  }

  lemma SyncKeepsAbsorbed(a: Account, cfg: Config, call: SyncCall, id: OpId)
    requires call.newId !in a.ops && id in a.ops && Absorbed(a.ops[id].status)
    ensures
      var after := SyncSpec(a, cfg, call).0;
      id in after.ops && after.ops[id] == a.ops[id]
  {
    if !a.isRoot {
      var rows := WithLegacyRows(a.rows, cfg);
      var (chosen, result) := Choose(a, rows, call);
      ChooseFrame(a, rows, call);
      if result.Completed? {
        RunFrame(chosen, cfg, call, rows, result.id);
      }
    }
  }

  lemma StepKeepsAbsorbed(a: Account, cfg: Config, step: Step, id: OpId)
    requires Legal(a, cfg, step) && id in a.ops && Absorbed(a.ops[id].status)
    ensures id in Apply(a, cfg, step).ops && Apply(a, cfg, step).ops[id] == a.ops[id]
  {
    match step
    case Request(command, target, newId) => RequestFrame(a, command, target, newId);
    case Synchronise(call) => SyncKeepsAbsorbed(a, cfg, call, id);
    case _ =>
  }

  /** Success and cancellation are absorbing: over every run such an operation keeps its
      record unchanged. */
  lemma {:induction false} SettledOperationsStaySettled(a: Account, run: seq<Moment>, id: OpId)
    requires id in a.ops && Absorbed(a.ops[id].status)
    requires Execute(a, run).Some?
    ensures
      var after := Execute(a, run).value;
      id in after.ops && after.ops[id] == a.ops[id]
    decreases |run|
  {
    if run != [] {
      StepKeepsAbsorbed(a, run[0].cfg, run[0].step, id);
      SettledOperationsStaySettled(Apply(a, run[0].cfg, run[0].step), run[1..], id);
    }
  }

  /** Over every run from a new account: only deletions supersede, each a different
      cancelled operation that is no deletion, and an operation is cancelled exactly when
      one deletion supersedes it. */
  lemma {:induction false} CancelledExactlyWhenSuperseded(userId: int, run: seq<Moment>)
    requires Execute(NewAccount(userId), run).Some?
    ensures
      var ops := Execute(NewAccount(userId), run).value.ops;
      && (forall i, j | Supersedes(ops, i, j) ::
            ops[i].command.Delete? && j in ops && !ops[j].command.Delete?)
      && (forall j | j in ops :: ops[j].status.Cancelled? <==> exists i :: Supersedes(ops, i, j))
      && (forall i, i', j | Supersedes(ops, i, j) && Supersedes(ops, i', j) :: i == i')
  {
    NewAccountOk(userId);
    RunsKeepInv(NewAccount(userId), run);
  }
}
