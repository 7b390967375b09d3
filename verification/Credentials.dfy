/** The password-change gate and the life of the pending password
    (na_sso/users.py, na_sso/sync.py). */
module Credentials {
  import opened Prelude
  import opened Lifecycle
  import opened Model
  import opened Pending
  import opened Sync
  import opened Runs
  import opened Protocol

  /** What the run asked of the row's target, if it asked anything. */
  function NewEvents(before: Row, after: Row): seq<Event>
    requires |before.trace| <= |after.trace|
  {
    after.trace[|before.trace|..]
  }

  lemma VisitedTraceGrows(rows: map<Target, Row>, t: Target, ctx: RunContext, cfg: Config, call: SyncCall, id: OpId)
    requires t in rows
    ensures |rows[t].trace| <= |RowsAfter(rows, ctx, cfg, call, id)[t].trace|
    ensures rows[t].trace <= RowsAfter(rows, ctx, cfg, call, id)[t].trace
  {
  }

  predicate EnsureRequested(before: Row, after: Row)
    requires |before.trace| <= |after.trace|
  {
    exists r :: Called(EnsureUser, r) in NewEvents(before, after)
  }

  predicate AwaitsPasswordChange(a: Account) {
    a.decision.Initial? || a.decision.Reset?
  }

  /** Exactly when an ensure run without a stored password asks a target that it reaches to
      create or update the account while a password change is awaited. */
  predicate GateOpensFor(a: Account, row: Row, t: Target, cfg: Config, target: Option<Target>) {
    && InScope(row, t, false, cfg, target) && row.isAssigned
    && !row.state.PendingChpwDisable? && !row.state.AwaitingCredentials?
    && cfg.connectors[t].ensureSupported
    && !a.isDisabled && a.deletedAt.None? && !a.desired.WantDelete?
  }

  lemma EnsureRequestedIff(a: Account, cfg: Config, call: SyncCall, rows: map<Target, Row>, id: OpId, t: Target)
    requires !Deleting(a, call) && AwaitsPasswordChange(a) && a.pendingSecret.None? && t in rows
    ensures
      var after := RowsAfter(rows, Context(a, call), cfg, call, id);
      && |rows[t].trace| <= |after[t].trace|
      && (EnsureRequested(rows[t], after[t]) <==>
            GateOpensFor(a, rows[t], t, cfg, call.target) && Reached(rows, t, Context(a, call), cfg, call))
  {
    var ctx := Context(a, call);
    var after := RowsAfter(rows, ctx, cfg, call, id);
    VisitedTraceGrows(rows, t, ctx, cfg, call, id);
    if Reached(rows, t, ctx, cfg, call) {
      var stamped := rows[t].(operationId := Some(id));
      VisitEvents(ctx, cfg, cfg.connectors[t], stamped, call.answer(t));
      assert NewEvents(rows[t], after[t]) == EventsOf(ctx, cfg.connectors[t], stamped, call.answer(t));
      if GateOpensFor(a, rows[t], t, cfg, call.target) {
        assert EventsOf(ctx, cfg.connectors[t], stamped, call.answer(t))[0] == Called(EnsureUser, call.answer(t));
      }
    } else {
      assert NewEvents(rows[t], after[t]) == [];
    }
  }

  /** The events of one visit. */
  function EventsOf(ctx: RunContext, connector: Connector, row: Row, result: CallResult): seq<Event> {
    var operation := LifecycleOperationFor(ctx, row);
    if !connector.Supports(operation) then [DeclaredUnsupported(operation)]
    else if PassedOver(row, ctx) then []
    else if Breaks(ctx, connector, row, result) then [Called(operation, result), OutcomeLost]
    else [Called(operation, result)]
  }

  lemma VisitEvents(ctx: RunContext, cfg: Config, connector: Connector, row: Row, result: CallResult)
    ensures Visited(ctx, cfg, connector, row, result).trace == row.trace + EventsOf(ctx, connector, row, result)
  {
  }

  /** The state after demanding a password change and running once. */
  function GatedRun(a: Account, cfg: Config, req: PendingRequest, call: SyncCall): (Account, SyncResult)
    requires SetPendingSpec(a, cfg, req).Success? && call.newId !in a.ops
  {
    SyncSpec(SetPendingSpec(a, cfg, req).value, cfg, call)
  }

  ghost predicate Gates(a: Account, cfg: Config, req: PendingRequest, call: SyncCall) {
    && SetPendingSpec(a, cfg, req).Success? && call.newId !in a.ops
    && req.requirePasswordChange && AwaitsPasswordChange(a)
    && !Deleting(a, call)
    && (a.rows != map[] || Selection(a, cfg, req) != {} || cfg.hasConfigFile)
  }

  /** The accounts such a request stages: selected rows wait for the change or for the
      disable before it, and no other row is assigned. */
  ghost predicate Gated(a: Account, cfg: Config, selected: set<Target>) {
    && AwaitsPasswordChange(a) && a.pendingSecret.None? && WithLegacyRows(a.rows, cfg) == a.rows
    && selected <= a.rows.Keys * cfg.connectors.Keys
    && (forall t | t in a.rows && a.rows[t].isAssigned ::
          t in selected && !a.rows[t].isRetired && (a.rows[t].state.Chpw? || a.rows[t].state.PendingChpwDisable?))
    && (forall t | t in selected :: a.rows[t].isAssigned && a.rows[t].attemptCount == 0)
  }

  lemma StagedAccountIsGated(a: Account, cfg: Config, req: PendingRequest)
    requires SetPendingSpec(a, cfg, req).Success? && req.requirePasswordChange && AwaitsPasswordChange(a)
    requires a.rows != map[] || Selection(a, cfg, req) != {} || cfg.hasConfigFile
    ensures Gated(SetPendingSpec(a, cfg, req).value, cfg, Selection(a, cfg, req))
  {
    var staged := SetPendingSpec(a, cfg, req).value;
    assert staged.rows.Keys == a.rows.Keys + Selection(a, cfg, req);
    if a.rows != map[] {
      var t :| t in a.rows;
      assert t in staged.rows;
    } else if Selection(a, cfg, req) != {} {
      var t :| t in Selection(a, cfg, req);
      assert t in staged.rows;
    }
  }

  /** What a run does to a gated account. */
  lemma GatedRunOutcome(a: Account, cfg: Config, selected: set<Target>, call: SyncCall)
    requires Gated(a, cfg, selected) && call.newId !in a.ops && !Deleting(a, call)
    ensures
      var (after, result) := SyncSpec(a, cfg, call);
      && after.rows.Keys == a.rows.Keys && after.decision == a.decision && after.pendingSecret.None?
      && (result.Began() ==> after.rows == RowsAfter(a.rows, Context(a, call), cfg, call, result.id))
      && (result.Completed? ==> Breaking(a.rows, Context(a, call), cfg, call) == {})
      && (!result.Began() ==> after.rows == a.rows)
  {
    var (chosen, result) := Choose(a, a.rows, call);
    ChooseFrame(a, a.rows, call);
    if !a.isRoot && result.Completed? {
      RunFrame(chosen, cfg, call, a.rows, result.id);
      RunKeepsUser(chosen, cfg, call, a.rows, result.id);
      PasswordDroppedIff(a, cfg, call);
    }
  }

  lemma GatedRowOutcome(a: Account, cfg: Config, selected: set<Target>, call: SyncCall, id: OpId, t: Target)
    requires Gated(a, cfg, selected) && !Deleting(a, call) && t in a.rows
    ensures
      var after := RowsAfter(a.rows, Context(a, call), cfg, call, id);
      && |a.rows[t].trace| <= |after[t].trace| && !EnsureRequested(a.rows[t], after[t])
      && after[t].isAssigned == a.rows[t].isAssigned && after[t].isRetired == a.rows[t].isRetired
      && (t in selected ==> GateState(after[t].state) || after[t] == a.rows[t].(operationId := after[t].operationId))
      && (t in selected && call.target.None? && Breaking(a.rows, Context(a, call), cfg, call) == {} ==>
            GateState(after[t].state))
  {
    var ctx := Context(a, call);
    EnsureRequestedIff(a, cfg, call, a.rows, id, t);
    if t in selected && call.target.None? && Breaking(a.rows, ctx, cfg, call) == {} && !a.rows[t].state.Chpw? {
      assert Reached(a.rows, t, ctx, cfg, call);
    }
  }

  /** Waiting for the change, or the guarding disable did not succeed. */
  predicate GateState(state: SyncStateValue) {
    state.Chpw? || state.Failed? || state.Unsupported?
  }

  /** The password-change gate. After a password change is demanded, the next ensure run
      asks no target to create or update the account, keeps no password, and leaves every
      selected row waiting for the change, failed or unsupported; where a run is interrupted
      or over other targets, the row may still wait for its disable. */
  lemma PasswordGateHolds(a: Account, cfg: Config, req: PendingRequest, call: SyncCall)
    requires Gates(a, cfg, req, call)
    ensures
      var staged := SetPendingSpec(a, cfg, req).value;
      var (after, result) := GatedRun(a, cfg, req, call);
      && after.pendingSecret.None?
      && after.rows.Keys == staged.rows.Keys
      && (forall t | t in staged.rows :: |staged.rows[t].trace| <= |after.rows[t].trace|
                                         && !EnsureRequested(staged.rows[t], after.rows[t]))
      && (result.Completed? && call.target.None? ==>
            forall t | t in Selection(a, cfg, req) :: t in after.rows && GateState(after.rows[t].state))
      && (forall t | t in Selection(a, cfg, req) ::
            t in after.rows && (GateState(after.rows[t].state) || after.rows[t].state.PendingChpwDisable?))
  {
    StagedAccountIsGated(a, cfg, req);
    GatedAccountHolds(SetPendingSpec(a, cfg, req).value, cfg, Selection(a, cfg, req), call);
  }

  lemma GatedAccountHolds(a: Account, cfg: Config, selected: set<Target>, call: SyncCall)
    requires Gated(a, cfg, selected) && call.newId !in a.ops && !Deleting(a, call)
    ensures
      var (after, result) := SyncSpec(a, cfg, call);
      && after.pendingSecret.None? && after.rows.Keys == a.rows.Keys && AwaitsPasswordChange(after)
      && (forall t | t in a.rows :: |a.rows[t].trace| <= |after.rows[t].trace|
                                    && !EnsureRequested(a.rows[t], after.rows[t]))
      && (forall t | t in selected :: t in after.rows && after.rows[t].isAssigned && !after.rows[t].isRetired)
      && (result.Completed? && call.target.None? ==>
            forall t | t in selected :: t in after.rows && GateState(after.rows[t].state))
      && (forall t | t in selected ::
            t in after.rows && (GateState(after.rows[t].state) || after.rows[t].state.PendingChpwDisable?))
  {
    var (after, result) := SyncSpec(a, cfg, call);
    GatedRunOutcome(a, cfg, selected, call);
    if result.Began() {
      forall t | t in a.rows {
        GatedRowOutcome(a, cfg, selected, call, result.id, t);
      }
    }
  }

  /** The one way around the gate in that run: without a configuration file, a user without
      rows is given fresh ones for every connector, and these carry no marker. */
  lemma FreshRowsEscapeGate(a: Account, cfg: Config, call: SyncCall, t: Target)
    requires AwaitsPasswordChange(a) && a.pendingSecret.None? && a.rows == map[] && !cfg.hasConfigFile
    requires call.newId !in a.ops && !Deleting(a, call) && SyncSpec(a, cfg, call).1.Began()
    ensures
      var after := SyncSpec(a, cfg, call).0;
      && after.rows.Keys == cfg.connectors.Keys
      && (t in after.rows ==>
            (EnsureRequested(FRESH_ROW, after.rows[t]) <==>
               && (call.target.None? || call.target.value == t) && cfg.connectors[t].ensureSupported
               && !a.isDisabled && a.deletedAt.None? && !a.desired.WantDelete?))
  {
    var rows := WithLegacyRows(a.rows, cfg);
    var (chosen, result) := Choose(a, rows, call);
    ChooseFrame(a, rows, call);
    RunFrame(chosen, cfg, call, rows, result.id);
    assert Breaking(rows, Context(chosen, call), cfg, call) == {};
    if t in rows {
      EnsureRequestedIff(chosen, cfg, call, rows, result.id, t);
    }
  }

  /** The gate does not outlast that run: a row whose disable failed or was declared
      unsupported has lost its marker, and the next ensure run over all targets or over its
      own, such as its automatic retry, asks exactly those targets that it reaches, where
      creating is supported and the user is active, for the account. */
  lemma PasswordGateEndsAfterOneRun(a: Account, cfg: Config, req: PendingRequest, first: SyncCall,
                                    second: SyncCall, t: Target)
    requires Gates(a, cfg, req, first) && first.target.None?
    requires GatedRun(a, cfg, req, first).1.Completed?
    requires
      var middle := GatedRun(a, cfg, req, first).0;
      && second.newId !in middle.ops && !Deleting(middle, second) && (second.target.None? || second.target == Some(t))
      && SyncSpec(middle, cfg, second).1.Began()
    requires t in Selection(a, cfg, req)
    ensures
      var middle := GatedRun(a, cfg, req, first).0;
      var after := SyncSpec(middle, cfg, second).0;
      && t in cfg.connectors
      && t in middle.rows && t in after.rows && |middle.rows[t].trace| <= |after.rows[t].trace|
      && (EnsureRequested(middle.rows[t], after.rows[t]) <==>
            && (middle.rows[t].state.Failed? || middle.rows[t].state.Unsupported?)
            && cfg.connectors[t].ensureSupported
            && !middle.isDisabled && middle.deletedAt.None? && !middle.desired.WantDelete?
            && Reached(middle.rows, t, Context(middle, second), cfg, second))
  {
    StagedAccountIsGated(a, cfg, req);
    GatedAccountHolds(SetPendingSpec(a, cfg, req).value, cfg, Selection(a, cfg, req), first);
    SecondRun(GatedRun(a, cfg, req, first).0, cfg, second, t);
  }

  lemma SecondRun(middle: Account, cfg: Config, call: SyncCall, t: Target)
    requires AwaitsPasswordChange(middle) && middle.pendingSecret.None?
    requires t in middle.rows && t in cfg.connectors && middle.rows[t].isAssigned && !middle.rows[t].isRetired
    requires middle.rows[t].state.Chpw? || middle.rows[t].state.Failed? || middle.rows[t].state.Unsupported?
    requires call.newId !in middle.ops && !Deleting(middle, call) && (call.target.None? || call.target == Some(t))
    requires SyncSpec(middle, cfg, call).1.Began()
    ensures
      var after := SyncSpec(middle, cfg, call).0;
      && t in after.rows && |middle.rows[t].trace| <= |after.rows[t].trace|
      && (EnsureRequested(middle.rows[t], after.rows[t]) <==>
            && !middle.rows[t].state.Chpw? && cfg.connectors[t].ensureSupported
            && !middle.isDisabled && middle.deletedAt.None? && !middle.desired.WantDelete?
            && Reached(middle.rows, t, Context(middle, call), cfg, call))
  {
    var (chosen, result) := Choose(middle, middle.rows, call);
    ChooseFrame(middle, middle.rows, call);
    RunFrame(chosen, cfg, call, middle.rows, result.id);
    EnsureRequestedIff(chosen, cfg, call, middle.rows, result.id, t);
  }

  // ---- the pending password ----

  lemma ConcludingDropsPasswordIff(a: Account, cfg: Config, id: OpId, deleting: bool, now: real)
    requires id in a.ops && a.ops[id].status.Running?
    ensures
      var after := Concluded(a, cfg, id, deleting, now);
      && (after.pendingSecret != a.pendingSecret <==>
            && a.pendingSecret.Some? && !deleting
            && after.ops[id].status.Succeeded? && PasswordDelivered(after.rows, cfg))
      && (after.pendingSecret != a.pendingSecret ==> after.pendingSecret.None?)
  {
    assert ConcludedStatus(a.rows, id, deleting, a.ops[id].status).Succeeded? <==> Completes(a.rows, id, deleting);
  }

  lemma RunDropsPasswordIff(a: Account, cfg: Config, call: SyncCall, rows: map<Target, Row>, id: OpId)
    requires id in a.ops && a.ops[id].status.Resumable()
    ensures
      var after := RunSpec(a, cfg, call, rows, id);
      && (after.pendingSecret != a.pendingSecret <==>
            && a.pendingSecret.Some? && Breaking(rows, Context(a, call), cfg, call) == {} && !Deleting(a, call)
            && after.ops[id].status.Succeeded? && PasswordDelivered(after.rows, cfg))
      && (after.pendingSecret != a.pendingSecret ==> after.pendingSecret.None?)
  {
    ConcludingDropsPasswordIff(VisitedAccount(a, cfg, call, rows, id), cfg, id, Deleting(a, call), call.now);
  }

  /** A run drops the pending password exactly when it is an ensure run that ends with its
      operation succeeded while at least one configured target is assigned and all of them
      are `ok`; otherwise the password is untouched. */
  lemma PasswordDroppedIff(a: Account, cfg: Config, call: SyncCall)
    requires call.newId !in a.ops
    ensures
      var (after, result) := SyncSpec(a, cfg, call);
      && (after.pendingSecret != a.pendingSecret <==>
            && a.pendingSecret.Some? && result.Completed? && !Deleting(a, call)
            && after.ops[result.id].status.Succeeded? && PasswordDelivered(after.rows, cfg))
      && (after.pendingSecret != a.pendingSecret ==> after.pendingSecret.None?)
  {
    var rows := WithLegacyRows(a.rows, cfg);
    var (chosen, result) := Choose(a, rows, call);
    ChooseFrame(a, rows, call);
    if !a.isRoot && result.Completed? {
      RunDropsPasswordIff(chosen, cfg, call, rows, result.id);
    }
  }

  /** The k-th run is the one that drops the password, with every target assigned and
      configured at that moment `ok`. */
  ghost predicate DroppedAt(a: Account, runs: seq<SyncRun>, k: nat)
    requires 1 <= k <= |runs|
  {
    && RunAll(a, runs[..k - 1]).pendingSecret == a.pendingSecret
    && RunAll(a, runs[..k]).pendingSecret.None?
    && PasswordDelivered(RunAll(a, runs[..k]).rows, runs[k - 1].cfg)
  }

  /** Over any sequence of runs, each under its own configuration, the password is either
      still there, unchanged, or one of them dropped it, and that one left every target
      assigned and configured then `ok`. */
  lemma {:induction false} PasswordSurvivesUntilDelivered(a: Account, runs: seq<SyncRun>)
    ensures
      var last := RunAll(a, runs);
      last.pendingSecret == a.pendingSecret
      || (last.pendingSecret.None? && exists k | 1 <= k <= |runs| :: DroppedAt(a, runs, k))
    decreases |runs|
  {
    if runs != [] && runs[0].call.newId !in a.ops {
      var next := SyncSpec(a, runs[0].cfg, runs[0].call).0;
      PasswordDroppedIff(a, runs[0].cfg, runs[0].call);
      PasswordSurvivesUntilDelivered(next, runs[1..]);
      RunAllShifts(a, runs, 1);
      if next.pendingSecret != a.pendingSecret {
        assert runs[1..][..0] == [] && DroppedAt(a, runs, 1);
      } else if RunAll(next, runs[1..]).pendingSecret != a.pendingSecret {
        var k :| 1 <= k <= |runs[1..]| && DroppedAt(next, runs[1..], k);
        RunAllShifts(a, runs, k);
        RunAllShifts(a, runs, k + 1);
        assert DroppedAt(a, runs, k + 1);
      }
    }
  }

  lemma {:induction false} RunAllShifts(a: Account, runs: seq<SyncRun>, k: nat)
    requires 1 <= k <= |runs| && runs[0].call.newId !in a.ops
    ensures RunAll(a, runs[..k]) == RunAll(SyncSpec(a, runs[0].cfg, runs[0].call).0, runs[1..][..k - 1])
  {
    assert runs[..k][0] == runs[0] && runs[..k][1..] == runs[1..][..k - 1];
  }
}
