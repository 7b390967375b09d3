/** What one run, or a sequence of runs, achieves for the operation, the deletion and the
    pending password (na_sso/sync.py). */
module Runs {
  import opened Prelude
  import opened Lifecycle
  import opened Model
  import opened Operations
  import opened Sync
  import opened Backoff
  import opened Protocol

  // ---- facts about the rows of one run ----

  /** A run leaves behind, stamped with its operation, the rows it scoped and those that
      were stamped with it before. */
  lemma StampedAfter(rows: map<Target, Row>, ctx: RunContext, cfg: Config, call: SyncCall, id: OpId)
    ensures Stamped(RowsAfter(rows, ctx, cfg, call, id), id)
         == Stamped(rows, id) + Scope(rows, ctx.deleting, cfg, call.target)
  {
  }

  /** Every row an ensure run scopes ends in a state its operation counts as terminal. */
  lemma ScopedRowsSettle(rows: map<Target, Row>, ctx: RunContext, cfg: Config, call: SyncCall, id: OpId, t: Target)
    requires Breaking(rows, ctx, cfg, call) == {}
    requires !ctx.deleting && t in Scope(rows, false, cfg, call.target)
    ensures TerminalRow(RowsAfter(rows, ctx, cfg, call, id)[t], false)
  {
    assert Reached(rows, t, ctx, cfg, call) && t !in Breaking(rows, ctx, cfg, call);
  }

  /** In an account kept by the invariant, no row names an operation that is still queued. */
  lemma QueuedOperationsHaveNoRows(a: Account, id: OpId)
    requires RowsOk(a) && id in a.ops && a.ops[id].status.Queued?
    ensures Stamped(a.rows, id) == {}
  {
  }

  // ---- how a run will end, read off the rows before it ----

  predicate FailedRow(row: Row) {
    row.state.Failed? || row.state.Unsupported?
  }

  /** The rows a run is counted by: those it scopes and those that carry its operation. */
  predicate Counted(rows: map<Target, Row>, t: Target, ctx: RunContext, cfg: Config, call: SyncCall, id: OpId)
    requires t in rows
  {
    InScope(rows[t], t, ctx.deleting, cfg, call.target) || rows[t].operationId == Some(id)
  }

  /** The scoped rows whose target is asked for something or found unable to do it. */
  predicate ToBeVisited(row: Row, t: Target, ctx: RunContext, cfg: Config, call: SyncCall) {
    InScope(row, t, ctx.deleting, cfg, call.target) && !row.isRetired && t in cfg.connectors
  }

  /** Some visit will raise. */
  predicate WillBreak(rows: map<Target, Row>, ctx: RunContext, cfg: Config, call: SyncCall) {
    exists t | t in rows ::
      ToBeVisited(rows[t], t, ctx, cfg, call) && Breaks(ctx, cfg.connectors[t], rows[t], call.answer(t))
  }

  lemma BreakForecast(rows: map<Target, Row>, ctx: RunContext, cfg: Config, call: SyncCall)
    ensures Breaking(rows, ctx, cfg, call) != {} <==> WillBreak(rows, ctx, cfg, call)
  {
    if t :| t in rows && ToBeVisited(rows[t], t, ctx, cfg, call)
            && Breaks(ctx, cfg.connectors[t], rows[t], call.answer(t)) {
      assert t in Breaking(rows, ctx, cfg, call);
    }
  }

  /** The visit finds the operation unsupported, or the target does not accept it; a row
      that is not visited counts as it stands. */
  predicate WillFail(rows: map<Target, Row>, t: Target, ctx: RunContext, cfg: Config, call: SyncCall, id: OpId)
    requires t in rows
  {
    if ToBeVisited(rows[t], t, ctx, cfg, call)
    then !cfg.connectors[t].Supports(LifecycleOperationFor(ctx, rows[t]))
         || (!PassedOver(rows[t], ctx) && !call.answer(t).Accepted?)
    else Counted(rows, t, ctx, cfg, call, id) && FailedRow(rows[t])
  }

  /** Of the rows that are visited without failing, only an unassigned one under a deletion
      is left open; a row that is not visited counts as it stands. */
  predicate WillStayOpen(rows: map<Target, Row>, t: Target, ctx: RunContext, cfg: Config, call: SyncCall, id: OpId)
    requires t in rows
  {
    if ToBeVisited(rows[t], t, ctx, cfg, call) then ctx.deleting && !rows[t].isAssigned
    else Counted(rows, t, ctx, cfg, call, id) && !TerminalRow(rows[t], ctx.deleting)
  }

  lemma RowForecast(rows: map<Target, Row>, t: Target, ctx: RunContext, cfg: Config, call: SyncCall, id: OpId)
    requires t in rows && Breaking(rows, ctx, cfg, call) == {}
    ensures
      var after := RowsAfter(rows, ctx, cfg, call, id)[t];
      && (after.operationId == Some(id) <==> Counted(rows, t, ctx, cfg, call, id))
      && (after.operationId == Some(id) && FailedRow(after) <==> WillFail(rows, t, ctx, cfg, call, id))
      && (!WillFail(rows, t, ctx, cfg, call, id) ==>
            (after.operationId == Some(id) && !TerminalRow(after, ctx.deleting)
             <==> WillStayOpen(rows, t, ctx, cfg, call, id)))
  {
    assert t in Scope(rows, ctx.deleting, cfg, call.target) <==> InScope(rows[t], t, ctx.deleting, cfg, call.target);
    assert Reached(rows, t, ctx, cfg, call) <==> ToBeVisited(rows[t], t, ctx, cfg, call);
    if ToBeVisited(rows[t], t, ctx, cfg, call) {
      assert t !in Breaking(rows, ctx, cfg, call);
    }
  }

  predicate WillSucceed(rows: map<Target, Row>, ctx: RunContext, cfg: Config, call: SyncCall, id: OpId) {
    forall t | t in rows :: !WillFail(rows, t, ctx, cfg, call, id) && !WillStayOpen(rows, t, ctx, cfg, call, id)
  }

  /** No counted row fails, but one of them stays open. */
  predicate WillLeaveOpen(rows: map<Target, Row>, ctx: RunContext, cfg: Config, call: SyncCall, id: OpId) {
    && (forall t | t in rows :: !WillFail(rows, t, ctx, cfg, call, id))
    && (exists t | t in rows :: WillStayOpen(rows, t, ctx, cfg, call, id))
  }

  lemma FailuresForecast(rows: map<Target, Row>, ctx: RunContext, cfg: Config, call: SyncCall, id: OpId)
    requires Breaking(rows, ctx, cfg, call) == {}
    ensures Failures(RowsAfter(rows, ctx, cfg, call, id), id) == {}
       <==> forall t | t in rows :: !WillFail(rows, t, ctx, cfg, call, id)
  {
    var after := RowsAfter(rows, ctx, cfg, call, id);
    forall t | t in rows
      ensures t in Failures(after, id) <==> WillFail(rows, t, ctx, cfg, call, id)
    {
      RowForecast(rows, t, ctx, cfg, call, id);
    }
  }

  lemma CompletionForecast(rows: map<Target, Row>, ctx: RunContext, cfg: Config, call: SyncCall, id: OpId)
    requires Breaking(rows, ctx, cfg, call) == {}
    ensures Completes(RowsAfter(rows, ctx, cfg, call, id), id, ctx.deleting) <==> WillSucceed(rows, ctx, cfg, call, id)
  {
    var after := RowsAfter(rows, ctx, cfg, call, id);
    var stamped, terminal := Stamped(after, id), TerminalRows(after, id, ctx.deleting);
    FailuresForecast(rows, ctx, cfg, call, id);
    SubsetSizeExact(terminal, stamped);
    if forall t | t in rows :: !WillFail(rows, t, ctx, cfg, call, id) {
      forall t | t in rows
        ensures t in stamped && t !in terminal <==> WillStayOpen(rows, t, ctx, cfg, call, id)
      {
        RowForecast(rows, t, ctx, cfg, call, id);
      }
      assert terminal == stamped <==> forall t | t in rows :: !WillStayOpen(rows, t, ctx, cfg, call, id);
    }
  }

  /** How a run ends is known before it starts from the rows, the configuration and the
      targets' answers: it succeeds when every counted row neither fails nor stays open, it
      leaves its operation running when a visit breaks, or when no counted row fails but one
      stays open, and it fails otherwise. */
  lemma RunEndsAsForecast(a: Account, cfg: Config, call: SyncCall, rows: map<Target, Row>, id: OpId)
    requires id in a.ops && a.ops[id].status.Resumable()
    ensures
      var ctx := Context(a, call);
      var after := RunSpec(a, cfg, call, rows, id);
      var status := after.ops[id].status;
      && (Breaking(rows, ctx, cfg, call) != {} <==> WillBreak(rows, ctx, cfg, call))
      && (status.Succeeded? <==> WillSucceed(rows, ctx, cfg, call, id))
      && (status.Running? <==> WillStayRunning(rows, ctx, cfg, call, id))
      && (HasFailed(after.ops[id]) <==>
            !WillBreak(rows, ctx, cfg, call) && exists t | t in rows :: WillFail(rows, t, ctx, cfg, call, id))
      && (after.deletedAt != a.deletedAt ==> ctx.deleting && status.Succeeded?)
      && (ctx.deleting && status.Succeeded? ==> after.deletedAt == Some(call.now))
  {
    var ctx := Context(a, call);
    BreakForecast(rows, ctx, cfg, call);
    if WillBreak(rows, ctx, cfg, call) {
      var t :| t in rows && ToBeVisited(rows[t], t, ctx, cfg, call)
               && Breaks(ctx, cfg.connectors[t], rows[t], call.answer(t));
      assert WillFail(rows, t, ctx, cfg, call, id);
    } else {
      FailuresForecast(rows, ctx, cfg, call, id);
      CompletionForecast(rows, ctx, cfg, call, id);
    }
  }

  /** The run leaves its operation running. */
  predicate WillStayRunning(rows: map<Target, Row>, ctx: RunContext, cfg: Config, call: SyncCall, id: OpId) {
    WillBreak(rows, ctx, cfg, call) || WillLeaveOpen(rows, ctx, cfg, call, id)
  }

  lemma {:induction false} FirstOf(targets: set<Target>, rank: Target -> nat) returns (first: Target)
    requires targets != {}
    ensures first in targets && forall t | t in targets :: rank(first) <= rank(t)
    decreases |targets|
  {
    first :| first in targets;
    if targets != {first} {
      var rest := FirstOf(targets - {first}, rank);
      if rank(rest) < rank(first) {
        first := rest;
      }
    }
  }

  /** The rows an interrupted run leaves: the breaking one saved as pending, without a retry
      and with its counter unchanged; those listed before it as visited; all others of the
      scope only stamped. */
  lemma InterruptedRows(rows: map<Target, Row>, ctx: RunContext, cfg: Config, call: SyncCall, id: OpId)
    returns (first: Target)
    requires WillBreak(rows, ctx, cfg, call) && Listed(rows.Keys, call.rank)
    ensures first in rows && ToBeVisited(rows[first], first, ctx, cfg, call)
    ensures Breaks(ctx, cfg.connectors[first], rows[first], call.answer(first))
    ensures
      var operation := LifecycleOperationFor(ctx, rows[first]);
      RowsAfter(rows, ctx, cfg, call, id)[first]
      == rows[first].(operationId := Some(id), state := SyncStateValue.Pending, nextRetryAt := None,
                      trace := rows[first].trace + [Called(operation, Errored)] + [OutcomeLost])
    ensures forall t | t in rows && t != first ::
      RowsAfter(rows, ctx, cfg, call, id)[t]
      == if !InScope(rows[t], t, ctx.deleting, cfg, call.target) then rows[t]
         else if ToBeVisited(rows[t], t, ctx, cfg, call) && call.rank(t) < call.rank(first)
         then Visited(ctx, cfg, cfg.connectors[t], rows[t].(operationId := Some(id)), call.answer(t))
         else rows[t].(operationId := Some(id))
  {
    BreakForecast(rows, ctx, cfg, call);
    first := FirstOf(Breaking(rows, ctx, cfg, call), call.rank);
    forall t | t in rows
      ensures t in Scope(rows, ctx.deleting, cfg, call.target) <==> InScope(rows[t], t, ctx.deleting, cfg, call.target)
      ensures Reached(rows, t, ctx, cfg, call)
         <==> ToBeVisited(rows[t], t, ctx, cfg, call) && call.rank(t) <= call.rank(first)
    {
    }
  }

  /** A run is interrupted, after its commits, if and only if it has an operation to work on
      and a visit breaks. It then leaves that operation running, dates nothing and keeps the
      password. */
  lemma SyncInterruptedIff(a: Account, cfg: Config, call: SyncCall)
    requires call.newId !in a.ops && !a.isRoot
    ensures
      var rows := WithLegacyRows(a.rows, cfg);
      var (after, result) := SyncSpec(a, cfg, call);
      && (result.Began() <==> Choose(a, rows, call).1.Completed?)
      && (result.Interrupted? <==> Choose(a, rows, call).1.Completed? && WillBreak(rows, Context(a, call), cfg, call))
      && (result.Interrupted? ==>
            && result.id in after.ops && after.ops[result.id].status.Running?
            && after.rows == RowsAfter(rows, Context(a, call), cfg, call, result.id)
            && after.deletedAt == a.deletedAt && after.pendingSecret == a.pendingSecret)
  {
    var rows := WithLegacyRows(a.rows, cfg);
    ChooseFrame(a, rows, call);
    BreakForecast(rows, Context(a, call), cfg, call);
  }

  // ---- a fresh ensure operation always finishes ----

  function FailedTargets(rows: map<Target, Row>, targets: set<Target>): set<Target> {
    set t | t in targets && t in rows && FailedRow(rows[t])
  }

  /** How a queued ensure operation ends: it stays running if its run breaks, and otherwise
      finishes with every scoped row counted as completed. */
  predicate Finishes(after: Account, id: OpId, scope: set<Target>, breaks: bool)
    requires id in after.ops
  {
    var failed := FailedTargets(after.rows, scope);
    && (after.ops[id].status.Running? <==> breaks)
    && after.ops[id].total == |scope|
    && (!breaks ==>
          && after.active != Some(id)
          && after.ops[id].completed == |scope| && after.ops[id].failed == |failed|
          && (after.ops[id].status.Succeeded? <==> failed == {})
          && (after.ops[id].status.Failed? <==> failed != {} && failed == scope)
          && (after.ops[id].status.PartiallyFailed? <==> failed != {} && failed != scope))
  }

  lemma RunningOperationSettles(a: Account, cfg: Config, call: SyncCall, rows: map<Target, Row>, id: OpId)
    requires id in a.ops && a.ops[id].status.Queued?
    requires !Deleting(a, call) && Stamped(rows, id) == {}
    ensures Finishes(RunSpec(a, cfg, call, rows, id), id, Scope(rows, false, cfg, call.target),
                     WillBreak(rows, Context(a, call), cfg, call))
  {
    var ctx := Context(a, call);
    var scope := Scope(rows, false, cfg, call.target);
    var after := RowsAfter(rows, ctx, cfg, call, id);
    BreakForecast(rows, ctx, cfg, call);
    if Breaking(rows, ctx, cfg, call) == {} {
      StampedAfter(rows, ctx, cfg, call, id);
      forall t | t in scope
        ensures TerminalRow(after[t], false)
      {
        ScopedRowsSettle(rows, ctx, cfg, call, id, t);
      }
      assert Stamped(after, id) == scope;
      assert TerminalRows(after, id, false) == scope;
      var failed := FailedTargets(after, scope);
      assert Failures(after, id) == failed;
      SubsetSizeExact(failed, scope);
      SubsetSize(failed, scope);
    }
  }

  /** Whatever the rows hold and the connectors answer, a run on a queued ensure operation
      finishes it unless a visit breaks: every scoped row is counted as completed, the user
      no longer points at it, and the status says whether none, some or all of the scoped
      rows failed. If and only if a visit breaks, it stays running. */
  lemma FreshEnsureOperationFinishes(a: Account, cfg: Config, call: SyncCall)
    requires Inv(a) && !a.isRoot && call.newId !in a.ops && !Deleting(a, call)
    requires
      var (chosen, result) := Choose(a, WithLegacyRows(a.rows, cfg), call);
      result.Completed? && chosen.ops[result.id].status.Queued?
    ensures
      var rows := WithLegacyRows(a.rows, cfg);
      var (after, result) := SyncSpec(a, cfg, call);
      var breaks := WillBreak(rows, Context(a, call), cfg, call);
      && result.Began() && (result.Interrupted? <==> breaks)
      && result.id in after.ops && Finishes(after, result.id, Scope(rows, false, cfg, call.target), breaks)
  {
    var rows := WithLegacyRows(a.rows, cfg);
    var (chosen, result) := Choose(a, rows, call);
    ChooseFrame(a, rows, call);
    ChooseKeepsLinks(a, rows, call);
    ChosenQueuedHasNoRows(a, rows, call);
    BreakForecast(rows, Context(chosen, call), cfg, call);
    RunningOperationSettles(chosen, cfg, call, rows, result.id);
  }

  lemma ChosenQueuedHasNoRows(a: Account, rows: map<Target, Row>, call: SyncCall)
    requires RowsOk(a.(rows := rows)) && call.newId !in a.ops
    requires
      var (chosen, result) := Choose(a, rows, call);
      result.Completed? && chosen.ops[result.id].status.Queued?
    ensures Stamped(rows, Choose(a, rows, call).1.id) == {}
  {
    var (chosen, result) := Choose(a, rows, call);
    RequestFrame(a, CommandFor(Deleting(a, call), call.actor), call.target, call.newId);
    if result.id in a.ops {
      QueuedOperationsHaveNoRows(a.(rows := rows), result.id);
    } else {
      forall t | t in rows
        ensures rows[t].operationId != Some(result.id)
      {
        assert LinkOk(rows[t], a.userId, a.ops);
      }
    }
  }

  // ---- retry spacing ----

  /** A row visited again and again while its target keeps failing. */
  function AfterFailures(visits: seq<RunContext>, cfg: Config, connector: Connector, row: Row): Row {
    if visits == [] then row
    else Visited(Last(visits), cfg, connector, AfterFailures(Front(visits), cfg, connector, row), Errored)
  }

  /** The time from the last visit to the retry it schedules, summed over the visits. */
  function TotalWait(visits: seq<RunContext>, cfg: Config, connector: Connector, row: Row): real {
    if visits == [] then 0.0
    else
      var next := AfterFailures(visits, cfg, connector, row).nextRetryAt;
      TotalWait(Front(visits), cfg, connector, row) + (if next.Some? then next.value - Last(visits).now else 0.0)
  }

  lemma FailingVisit(ctx: RunContext, cfg: Config, connector: Connector, row: Row)
    requires connector.ensureSupported && connector.disableSupported && connector.deleteSupported
    requires !row.state.AwaitingCredentials? && row.attemptCount < LAST_ATTEMPT
    ensures
      var after := Visited(ctx, cfg, connector, row, Errored);
      && after.state.Failed? && after.attemptCount == row.attemptCount + 1
      && after.nextRetryAt == Some(ctx.now + Delay(cfg.retryBase, cfg.retryMax, after.attemptCount))
  {
  }

  /** Up to `LAST_ATTEMPT` consecutive failures, whatever operation each run asked for, leave
      one scheduled retry at the capped backoff of the streak, and together wait what the
      backoff adds up to. */
  lemma {:induction false} FailureStreakBacksOff(visits: seq<RunContext>, cfg: Config, connector: Connector, row: Row)
    requires connector.ensureSupported && connector.disableSupported && connector.deleteSupported
    requires !row.state.AwaitingCredentials? && row.attemptCount == 0 && |visits| <= LAST_ATTEMPT
    ensures visits != [] ==>
      var after := AfterFailures(visits, cfg, connector, row);
      && after.state.Failed? && after.attemptCount == |visits|
      && after.nextRetryAt == Some(Last(visits).now + Delay(cfg.retryBase, cfg.retryMax, |visits|))
    ensures TotalWait(visits, cfg, connector, row) == TotalDelay(cfg.retryBase, cfg.retryMax, |visits|)
    decreases |visits|
  {
    if visits != [] {
      var earlier := Front(visits);
      FailureStreakBacksOff(earlier, cfg, connector, row);
      FailingVisit(Last(visits), cfg, connector, AfterFailures(earlier, cfg, connector, row));
    }
  }

  /** The next failure breaks its run: no retry is scheduled, and the row is saved as
      pending with the same count. */
  lemma {:induction false} NextFailureBreaks(visits: seq<RunContext>, ctx: RunContext, cfg: Config,
                                             connector: Connector, row: Row)
    requires connector.ensureSupported && connector.disableSupported && connector.deleteSupported
    requires !row.state.AwaitingCredentials? && row.attemptCount == 0 && |visits| == LAST_ATTEMPT
    ensures
      var before := AfterFailures(visits, cfg, connector, row);
      var after := AfterFailures(visits + [ctx], cfg, connector, row);
      && Breaks(ctx, connector, before, Errored)
      && after.state.Pending? && after.nextRetryAt.None? && after.attemptCount == LAST_ATTEMPT
      && after.trace == before.trace + [Called(LifecycleOperationFor(ctx, before), Errored), OutcomeLost]
  {
    FailureStreakBacksOff(visits, cfg, connector, row);
    assert Front(visits + [ctx]) == visits && Last(visits + [ctx]) == ctx;
    var before := AfterFailures(visits, cfg, connector, row);
    var operation := LifecycleOperationFor(ctx, before);
    assert before.trace + [Called(operation, Errored)] + [OutcomeLost]
        == before.trace + [Called(operation, Errored), OutcomeLost];
  }

  // ---- deletion ----

  /** Removed everywhere: every row that is not retired is `ok`. */
  predicate Removed(rows: map<Target, Row>) {
    forall t | t in rows && !rows[t].isRetired :: rows[t].state.Ok?
  }

  /** The accounts whose deletion can finish: every row is assigned, or retired and not
      failed, and every target that is not retired is configured. */
  predicate Deletable(rows: map<Target, Row>, cfg: Config) {
    forall t | t in rows ::
      if rows[t].isRetired then !FailedRow(rows[t])
      else rows[t].isAssigned && t in cfg.connectors
  }

  /** A row under its deletion. */
  predicate DeletionRow(row: Row, id: OpId) {
    && row.operationId == Some(id) && Storable(row)
    && (if row.isRetired then !FailedRow(row) else row.isAssigned)
  }

  /** A row between two runs of its deletion that were not interrupted. */
  predicate SettledRow(row: Row) {
    row.isRetired || row.state.Ok? || FailedRow(row)
  }

  /** Where a deletion stands after any of its runs: it is dated and succeeded if and only
      if the user is removed everywhere, and open to a retry otherwise. */
  ghost predicate DeletionTracked(a: Account, cfg: Config, id: OpId) {
    && !a.isRoot && a.desired.WantDelete? && WithLegacyRows(a.rows, cfg) == a.rows
    && id in a.ops && a.ops[id].userId == Some(a.userId)
    && Deletable(a.rows, cfg)
    && (forall t | t in a.rows :: DeletionRow(a.rows[t], id))
    && (a.deletedAt.Some? <==> Removed(a.rows))
    && (if Removed(a.rows) then a.ops[id].status.Succeeded? else a.ops[id].status.Resumable())
  }

  /** ... and, as long as no run is interrupted, failed where it did not succeed. */
  ghost predicate DeletionSettled(a: Account, id: OpId) {
    && (forall t | t in a.rows :: SettledRow(a.rows[t]))
    && (Removed(a.rows) || (id in a.ops && HasFailed(a.ops[id])))
  }

  predicate DeletionCall(call: SyncCall, id: OpId) {
    (call.action == None || call.action == Some(WantDelete)) && call.operationId == Some(id)
  }

  /** Counting the rows decides exactly whether the user is removed everywhere. */
  lemma CountsDecideRemoval(rows: map<Target, Row>, id: OpId)
    requires forall t | t in rows :: DeletionRow(rows[t], id)
    ensures Completes(rows, id, true) <==> Removed(rows)
    ensures (forall t | t in rows :: SettledRow(rows[t])) ==> (Failures(rows, id) == {} <==> Removed(rows))
  {
    assert Stamped(rows, id) == rows.Keys;
    SubsetSizeExact(TerminalRows(rows, id, true), rows.Keys);
    if t :| t in rows && !rows[t].isRetired && !rows[t].state.Ok? {
      assert t !in TerminalRows(rows, id, true) && (FailedRow(rows[t]) ==> t in Failures(rows, id));
    } else {
      assert TerminalRows(rows, id, true) == rows.Keys;
      assert Failures(rows, id) == {};
    }
  }

  lemma DeletionRowAfter(rows: map<Target, Row>, t: Target, ctx: RunContext, cfg: Config, call: SyncCall, id: OpId)
    requires t in rows && ctx.deleting && Deletable(rows, cfg) && Storable(rows[t])
    requires call.target.None? || call.target.value == t || DeletionRow(rows[t], id)
    ensures DeletionRow(RowsAfter(rows, ctx, cfg, call, id)[t], id)
    ensures RowsAfter(rows, ctx, cfg, call, id)[t].isRetired == rows[t].isRetired
    ensures Breaking(rows, ctx, cfg, call) == {} && (call.target.None? || SettledRow(rows[t])) ==>
      SettledRow(RowsAfter(rows, ctx, cfg, call, id)[t])
  {
    if t in ToVisit(rows, ctx.deleting, cfg, call.target) && Breaking(rows, ctx, cfg, call) == {} {
      assert Reached(rows, t, ctx, cfg, call) && t !in Breaking(rows, ctx, cfg, call);
    }
  }

  /** The rows a deletion run leaves, and what counting them comes to. */
  lemma DeletionRows(rows: map<Target, Row>, ctx: RunContext, cfg: Config, call: SyncCall, id: OpId)
    requires ctx.deleting && WithLegacyRows(rows, cfg) == rows && Deletable(rows, cfg)
    requires forall t | t in rows ::
      Storable(rows[t]) && (call.target.None? || call.target.value == t || DeletionRow(rows[t], id))
    ensures
      var after := RowsAfter(rows, ctx, cfg, call, id);
      var settles := Breaking(rows, ctx, cfg, call) == {}
                     && (call.target.None? || forall t | t in rows :: SettledRow(rows[t]));
      && WithLegacyRows(after, cfg) == after && Deletable(after, cfg)
      && (forall t | t in after :: DeletionRow(after[t], id))
      && (Completes(after, id, true) <==> Removed(after))
      && (Breaking(rows, ctx, cfg, call) != {} ==> !Removed(after))
      && (settles ==>
            (forall t | t in after :: SettledRow(after[t])) && (Failures(after, id) == {} <==> Removed(after)))
  {
    var after := RowsAfter(rows, ctx, cfg, call, id);
    assert after.Keys == rows.Keys;
    forall t | t in after
      ensures DeletionRow(after[t], id) && after[t].isRetired == rows[t].isRetired
      ensures Breaking(rows, ctx, cfg, call) == {} && (call.target.None? || SettledRow(rows[t])) ==>
        SettledRow(after[t])
    {
      DeletionRowAfter(rows, t, ctx, cfg, call, id);
    }
    CountsDecideRemoval(after, id);
    if Breaking(rows, ctx, cfg, call) != {} {
      var first := FirstOf(Breaking(rows, ctx, cfg, call), call.rank);
      assert Reached(rows, first, ctx, cfg, call) && after[first].state.Pending? && !after[first].isRetired;
    }
  }

  /** Concluding a deletion whose rows all carry its stamp. */
  lemma ConcludedDeletionTracked(a: Account, cfg: Config, id: OpId, now: real)
    requires a.desired.WantDelete? && a.deletedAt.None? && !a.isRoot
    requires id in a.ops && a.ops[id].userId == Some(a.userId) && a.ops[id].status.Running?
    requires WithLegacyRows(a.rows, cfg) == a.rows && Deletable(a.rows, cfg)
    requires forall t | t in a.rows :: DeletionRow(a.rows[t], id)
    ensures DeletionTracked(Concluded(a, cfg, id, true, now), cfg, id)
    ensures (forall t | t in a.rows :: SettledRow(a.rows[t])) ==> DeletionSettled(Concluded(a, cfg, id, true, now), id)
  {
    CountsDecideRemoval(a.rows, id);
  }

  /** The run that a deletion is counted by: all rows carry its stamp. */
  lemma DeletionRunTracked(a: Account, cfg: Config, call: SyncCall, rows: map<Target, Row>, id: OpId)
    requires a.desired.WantDelete? && DeletionCall(call, id) && a.deletedAt.None?
    requires id in a.ops && a.ops[id].userId == Some(a.userId) && !a.isRoot && a.ops[id].status.Resumable()
    requires WithLegacyRows(rows, cfg) == rows && Deletable(rows, cfg)
    requires forall t | t in rows ::
      Storable(rows[t]) && (call.target.None? || call.target.value == t || DeletionRow(rows[t], id))
    ensures DeletionTracked(RunSpec(a, cfg, call, rows, id), cfg, id)
    ensures Breaking(rows, Context(a, call), cfg, call) == {}
            && (call.target.None? || forall t | t in rows :: SettledRow(rows[t])) ==>
      DeletionSettled(RunSpec(a, cfg, call, rows, id), id)
  {
    DeletionRows(rows, Context(a, call), cfg, call, id);
    var visited := VisitedAccount(a, cfg, call, rows, id);
    ConcludedDeletionTracked(visited, cfg, id, call.now);
    if Breaking(rows, Context(a, call), cfg, call) != {} {
      assert DeletionTracked(visited, cfg, id);
    }
  }

  lemma LegacyRowsStable(rows: map<Target, Row>, cfg: Config)
    ensures WithLegacyRows(WithLegacyRows(rows, cfg), cfg) == WithLegacyRows(rows, cfg)
  {
  }

  /** First run of a deletion, over all targets. */
  lemma DeletionStarts(a: Account, cfg: Config, call: SyncCall, id: OpId)
    requires !a.isRoot && a.desired.WantDelete? && a.deletedAt.None? && call.newId !in a.ops
    requires DeletionCall(call, id) && call.target.None?
    requires id in a.ops && a.ops[id].userId == Some(a.userId) && a.ops[id].status.Resumable()
    requires Deletable(WithLegacyRows(a.rows, cfg), cfg) && forall t | t in a.rows :: Storable(a.rows[t])
    ensures SyncSpec(a, cfg, call).1.Began() && SyncSpec(a, cfg, call).1.id == id
    ensures DeletionTracked(SyncSpec(a, cfg, call).0, cfg, id)
    ensures !SyncSpec(a, cfg, call).1.Interrupted? ==> DeletionSettled(SyncSpec(a, cfg, call).0, id)
  {
    LegacyRowsStable(a.rows, cfg);
    DeletionRunTracked(a, cfg, call, WithLegacyRows(a.rows, cfg), id);
  }

  /** A later retry: before completion it runs and keeps track; after completion it is
      refused and changes nothing. */
  lemma DeletionContinues(a: Account, cfg: Config, call: SyncCall, id: OpId)
    requires DeletionTracked(a, cfg, id) && DeletionCall(call, id) && call.newId !in a.ops
    ensures DeletionTracked(SyncSpec(a, cfg, call).0, cfg, id)
    ensures Removed(a.rows) ==> SyncSpec(a, cfg, call) == (a, Raised)
    ensures !Removed(a.rows) ==> SyncSpec(a, cfg, call).1.Began() && SyncSpec(a, cfg, call).1.id == id
    ensures DeletionSettled(a, id) && !SyncSpec(a, cfg, call).1.Interrupted? ==>
      DeletionSettled(SyncSpec(a, cfg, call).0, id)
  {
    if !Removed(a.rows) {
      DeletionRunTracked(a, cfg, call, a.rows, id);
      RunFrame(a, cfg, call, a.rows, id);
    }
  }

  /** A run under the configuration of its moment. */
  datatype SyncRun = SyncRun(cfg: Config, call: SyncCall)

  /** A sequence of runs; it ends early only where an identifier is not new. */
  function RunAll(a: Account, runs: seq<SyncRun>): Account
    decreases |runs|
  {
    if runs == [] || runs[0].call.newId in a.ops then a
    else RunAll(SyncSpec(a, runs[0].cfg, runs[0].call).0, runs[1..])
  }

  /** None of the runs is interrupted. */
  predicate AllUnbroken(a: Account, runs: seq<SyncRun>)
    decreases |runs|
  {
    runs == [] || runs[0].call.newId in a.ops
    || (!SyncSpec(a, runs[0].cfg, runs[0].call).1.Interrupted?
        && AllUnbroken(SyncSpec(a, runs[0].cfg, runs[0].call).0, runs[1..]))
  }

  /** Runs of one deletion, under configurations that all know its targets. */
  predicate DeletionRuns(runs: seq<SyncRun>, cfg: Config, id: OpId) {
    forall i | 0 <= i < |runs| :: runs[i].cfg == cfg && DeletionCall(runs[i].call, id)
  }

  lemma {:induction false} DeletionStaysTracked(a: Account, cfg: Config, retries: seq<SyncRun>, id: OpId)
    requires DeletionTracked(a, cfg, id) && DeletionRuns(retries, cfg, id)
    ensures DeletionTracked(RunAll(a, retries), cfg, id)
    ensures Removed(a.rows) ==> RunAll(a, retries) == a
    ensures DeletionSettled(a, id) && AllUnbroken(a, retries) ==> DeletionSettled(RunAll(a, retries), id)
    decreases |retries|
  {
    if retries != [] && retries[0].call.newId !in a.ops {
      DeletionContinues(a, cfg, retries[0].call, id);
      DeletionStaysTracked(SyncSpec(a, cfg, retries[0].call).0, cfg, retries[1..], id);
    }
  }

  /** A deletion completes exactly when it should: after its first run and any sequence of
      retries it is dated and succeeded if and only if every row that is not retired is
      `ok`, and otherwise it can be resumed; it has then failed, unless one of the runs was
      interrupted. Once completed, nothing later moves the date, so it was set by the first
      run that removed the user everywhere. */
  lemma {:induction false} DeletionCompletesExactly(a: Account, cfg: Config, first: SyncCall, retries: seq<SyncRun>,
                                                    more: seq<SyncRun>, id: OpId)
    requires !a.isRoot && a.desired.WantDelete? && a.deletedAt.None? && first.newId !in a.ops
    requires DeletionCall(first, id) && first.target.None?
    requires id in a.ops && a.ops[id].userId == Some(a.userId) && a.ops[id].status.Resumable()
    requires Deletable(WithLegacyRows(a.rows, cfg), cfg) && forall t | t in a.rows :: Storable(a.rows[t])
    requires DeletionRuns(retries, cfg, id) && DeletionRuns(more, cfg, id)
    ensures
      var (begun, result) := SyncSpec(a, cfg, first);
      var later := RunAll(begun, retries);
      && DeletionStands(later, id, !result.Interrupted? && AllUnbroken(begun, retries))
      && (Removed(later.rows) ==> RunAll(later, more) == later)
  {
    DeletionStarts(a, cfg, first, id);
    DeletionContinued(SyncSpec(a, cfg, first).0, cfg, retries, more, id);
  }

  /** How far a deletion has come: dated and succeeded if and only if the user is removed
      everywhere, otherwise resumable, and failed unless a run was interrupted. */
  predicate DeletionStands(a: Account, id: OpId, unbroken: bool) {
    && id in a.ops
    && (a.deletedAt.Some? <==> Removed(a.rows))
    && (a.ops[id].status.Succeeded? <==> Removed(a.rows))
    && (!Removed(a.rows) ==> a.ops[id].status.Resumable())
    && (!Removed(a.rows) && unbroken ==> HasFailed(a.ops[id]))
  }

  lemma {:induction false} DeletionContinued(a: Account, cfg: Config, retries: seq<SyncRun>, more: seq<SyncRun>,
                                             id: OpId)
    requires DeletionTracked(a, cfg, id) && DeletionRuns(retries, cfg, id) && DeletionRuns(more, cfg, id)
    ensures
      var later := RunAll(a, retries);
      && DeletionStands(later, id, DeletionSettled(a, id) && AllUnbroken(a, retries))
      && (Removed(later.rows) ==> RunAll(later, more) == later)
  {
    DeletionStaysTracked(a, cfg, retries, id);
    DeletionStaysTracked(RunAll(a, retries), cfg, more, id);
  }

  /** A settled deletion is left running by its next run if and only if that run breaks. */
  lemma DeletionStaysRunningIff(a: Account, cfg: Config, call: SyncCall, id: OpId)
    requires DeletionTracked(a, cfg, id) && DeletionSettled(a, id) && !Removed(a.rows)
    requires DeletionCall(call, id) && call.newId !in a.ops
    ensures id in SyncSpec(a, cfg, call).0.ops
    ensures SyncSpec(a, cfg, call).0.ops[id].status.Running? <==> WillBreak(a.rows, Context(a, call), cfg, call)
  {
    DeletionContinues(a, cfg, call, id);
    SyncInterruptedIff(a, cfg, call);
  }

  /** What one row must bring for a deletion run over all targets to complete. */
  predicate RowPermitsDeletion(row: Row, t: Target, cfg: Config, call: SyncCall) {
    if row.isRetired then !FailedRow(row)
    else
      && row.isAssigned
      && (if t in cfg.connectors
          then cfg.connectors[t].deleteSupported && call.answer(t).Accepted?
          else row.state.Ok?)
  }

  /** The exact condition, without assumptions on the rows: a deletion is completed by a
      run over all targets if and only if every row permits it. A row that is neither assigned
      nor retired never does, even when its target confirms the delete. */
  lemma DeletionCompletesIff(a: Account, cfg: Config, call: SyncCall, id: OpId)
    requires !a.isRoot && a.desired.WantDelete? && a.deletedAt.None? && call.newId !in a.ops
    requires DeletionCall(call, id) && call.target.None?
    requires id in a.ops && a.ops[id].userId == Some(a.userId) && a.ops[id].status.Resumable()
    requires forall t | t in a.rows :: Storable(a.rows[t])
    ensures
      var rows := WithLegacyRows(a.rows, cfg);
      var after := SyncSpec(a, cfg, call).0;
      && (after.deletedAt.Some? <==> forall t | t in rows :: RowPermitsDeletion(rows[t], t, cfg, call))
      && (after.deletedAt.Some? <==> after.ops[id].status.Succeeded?)
  {
    var ctx := Context(a, call);
    var rows := WithLegacyRows(a.rows, cfg);
    RunEndsAsForecast(a, cfg, call, rows, id);
    forall t | t in rows
      ensures RowPermitsDeletion(rows[t], t, cfg, call)
         <==> !WillFail(rows, t, ctx, cfg, call, id) && !WillStayOpen(rows, t, ctx, cfg, call, id)
    {
      DeletionOfOneRow(rows, t, ctx, cfg, call, id);
    }
  }

  lemma DeletionOfOneRow(rows: map<Target, Row>, t: Target, ctx: RunContext, cfg: Config, call: SyncCall, id: OpId)
    requires t in rows && Storable(rows[t]) && ctx.deleting && (call.target.None? || call.target.value == t)
    ensures RowPermitsDeletion(rows[t], t, cfg, call)
       <==> !WillFail(rows, t, ctx, cfg, call, id) && !WillStayOpen(rows, t, ctx, cfg, call, id)
  {
  }

  /** A fresh deletion run for one target, as a reconciliation repair starts it, looks at
      that target alone: it dates the whole account's deletion if and only if the target has
      no row or its row permits the deletion. What the other rows hold does not matter, and
      they stay as they are. */
  lemma TargetedDeletionCompletesIff(a: Account, cfg: Config, call: SyncCall, id: OpId)
    requires Inv(a) && !a.isRoot && a.deletedAt.None? && call.newId !in a.ops
    requires call.action == Some(WantDelete) && call.operationId == Some(id) && call.target.Some?
    requires id in a.ops && a.ops[id].userId == Some(a.userId) && a.ops[id].status.Queued?
    ensures
      var t, rows := call.target.value, WithLegacyRows(a.rows, cfg);
      var after := SyncSpec(a, cfg, call).0;
      && (after.deletedAt.Some? <==> t !in rows || RowPermitsDeletion(rows[t], t, cfg, call))
      && (after.deletedAt.Some? <==> after.ops[id].status.Succeeded?)
      && after.rows.Keys == rows.Keys
      && (forall u | u in rows && u != t :: after.rows[u] == rows[u])
  {
    var rows := WithLegacyRows(a.rows, cfg);
    QueuedRunIsFresh(a, cfg, id);
    RunFrame(a, cfg, call, rows, id);
    RunEndsAsForecast(a, cfg, call, rows, id);
    OnlyTargetDecides(rows, Context(a, call), cfg, call, id);
    OtherRowsStay(rows, Context(a, call), cfg, call, id);
  }

  lemma QueuedRunIsFresh(a: Account, cfg: Config, id: OpId)
    requires Inv(a) && id in a.ops && a.ops[id].status.Queued?
    ensures
      var rows := WithLegacyRows(a.rows, cfg);
      Stamped(rows, id) == {} && forall t | t in rows :: Storable(rows[t])
  {
    assert forall t | t in a.rows :: RowLocal(a.rows[t]);
    QueuedOperationsHaveNoRows(a, id);
  }

  lemma OtherRowsStay(rows: map<Target, Row>, ctx: RunContext, cfg: Config, call: SyncCall, id: OpId)
    requires call.target.Some?
    ensures
      var after := RowsAfter(rows, ctx, cfg, call, id);
      after.Keys == rows.Keys && forall u | u in rows && u != call.target.value :: after[u] == rows[u]
  {
  }

  lemma OnlyTargetDecides(rows: map<Target, Row>, ctx: RunContext, cfg: Config, call: SyncCall, id: OpId)
    requires ctx.deleting && call.target.Some? && Stamped(rows, id) == {}
    requires forall t | t in rows :: Storable(rows[t])
    ensures
      var t := call.target.value;
      WillSucceed(rows, ctx, cfg, call, id) <==> t !in rows || RowPermitsDeletion(rows[t], t, cfg, call)
  {
    forall u | u in rows && u != call.target.value
      ensures !WillFail(rows, u, ctx, cfg, call, id) && !WillStayOpen(rows, u, ctx, cfg, call, id)
    {
      assert u !in Stamped(rows, id);
    }
    if call.target.value in rows {
      DeletionOfOneRow(rows, call.target.value, ctx, cfg, call, id);
    }
  }

  ghost predicate HoldsUnassignedRow(a: Account, id: OpId) {
    exists t :: t in a.rows && a.rows[t].operationId == Some(id) && !a.rows[t].isAssigned
      && !a.rows[t].isRetired && Storable(a.rows[t])
  }

  /** Such a row blocks the deletion for good: no run under the same operation completes it,
      whatever is answered. */
  lemma UnassignedRowBlocksDeletion(a: Account, cfg: Config, call: SyncCall, id: OpId)
    requires a.desired.WantDelete? && DeletionCall(call, id) && call.newId !in a.ops
    requires id in a.ops && !a.ops[id].status.Succeeded?
    requires HoldsUnassignedRow(a, id)
    ensures
      var after := SyncSpec(a, cfg, call).0;
      && after.deletedAt == a.deletedAt && id in after.ops && !after.ops[id].status.Succeeded?
      && HoldsUnassignedRow(after, id)
  {
    if !a.isRoot && Choose(a, a.rows, call).1.Completed? {
      BlockedRun(a, cfg, call, id);
    }
  }

  lemma BlockedRun(a: Account, cfg: Config, call: SyncCall, id: OpId)
    requires a.desired.WantDelete? && DeletionCall(call, id)
    requires id in a.ops && a.ops[id].status.Resumable() && HoldsUnassignedRow(a, id)
    ensures
      var after := RunSpec(a, cfg, call, a.rows, id);
      && after.deletedAt == a.deletedAt && id in after.ops && !after.ops[id].status.Succeeded?
      && HoldsUnassignedRow(after, id)
  {
    var t :| t in a.rows && a.rows[t].operationId == Some(id) && !a.rows[t].isAssigned
      && !a.rows[t].isRetired && Storable(a.rows[t]);
    var ctx := Context(a, call);
    RunFrame(a, cfg, call, a.rows, id);
    RunEndsAsForecast(a, cfg, call, a.rows, id);
    UnassignedRowStaysOpen(a.rows, ctx, cfg, call, id, t);
    assert RunSpec(a, cfg, call, a.rows, id).rows[t] == RowsAfter(a.rows, ctx, cfg, call, id)[t];
  }

  lemma UnassignedRowStaysOpen(rows: map<Target, Row>, ctx: RunContext, cfg: Config, call: SyncCall, id: OpId,
                               t: Target)
    requires ctx.deleting && t in rows && rows[t].operationId == Some(id)
    requires !rows[t].isAssigned && !rows[t].isRetired && Storable(rows[t])
    ensures
      var after := RowsAfter(rows, ctx, cfg, call, id)[t];
      after.operationId == Some(id) && !after.isAssigned && !after.isRetired && Storable(after)
    ensures !WillSucceed(rows, ctx, cfg, call, id)
  {
    assert WillFail(rows, t, ctx, cfg, call, id) || WillStayOpen(rows, t, ctx, cfg, call, id);
  }
}
