/** The sync run behind one repair group: when a finding that counts as repaired had its
    target asked at all (na_sso/reconcile.py, na_sso/sync.py). */
module RepairRuns {
  import opened Prelude
  import opened Lifecycle
  import opened Model
  import opened Operations
  import opened Sync
  import opened Protocol
  import opened Runs
  import Repair

  /** The run a repair starts under the operation it has just been granted. */
  function RepairCall(a: Account, t: Target, id: OpId, newId: OpId, now: real, answer: Target -> CallResult,
                      rank: Target -> nat): SyncCall
  {
    SyncCall(if a.desired.WantDelete? || a.deletedAt.Some? then Some(WantDelete) else None,
             Some(t), OtherActor, Some(id), newId, now, answer, rank)
  }

  /** The account after the request of a repair operation and its run. */
  function Repaired(a: Account, cfg: Config, t: Target, id: OpId, newId: OpId, now: real,
                    answer: Target -> CallResult, rank: Target -> nat): (Account, SyncResult)
    requires id !in a.ops && newId !in a.ops && newId != id
  {
    var requested := RequestSpec(a, Reconcile, Some(t), id).0;
    SyncSpec(requested, cfg, RepairCall(a, t, id, newId, now, answer, rank))
  }

  /** What the repair of one account and target meets. */
  function Meets(a: Account, cfg: Config, t: Target, id: OpId, newId: OpId, now: real,
                 answer: Target -> CallResult, rank: Target -> nat): Repair.Circumstances
    requires id !in a.ops && newId !in a.ops && newId != id
  {
    var (after, result) := Repaired(a, cfg, t, id, newId, now, answer, rank);
    Repair.Circumstances(true, t in cfg.connectors, a.pendingSecret.Some?,
                         RequestSpec(a, Reconcile, Some(t), id).1.Granted?, result.Interrupted?,
                         id in after.ops && after.ops[id].status.Succeeded?)
  }

  /** A granted repair gets a fresh operation of its own. */
  lemma RepairIsFresh(a: Account, t: Target, id: OpId)
    requires Inv(a) && id !in a.ops && RequestSpec(a, Reconcile, Some(t), id).1.Granted?
    ensures
      var requested := RequestSpec(a, Reconcile, Some(t), id).0;
      && requested == Created(a, Reconcile, Some(t), None, id)
      && forall u | u in a.rows :: a.rows[u].operationId != Some(id)
  {
    forall u | u in a.rows
      ensures a.rows[u].operationId != Some(id)
    {
      assert LinkOk(a.rows[u], a.userId, a.ops);
    }
  }

  /** The row a repair's run leaves, where the run succeeds. */
  lemma SucceededRow(rows: map<Target, Row>, ctx: RunContext, cfg: Config, call: SyncCall, id: OpId, t: Target)
    requires t in rows && WillSucceed(rows, ctx, cfg, call, id)
    ensures
      var after := RowsAfter(rows, ctx, cfg, call, id)[t];
      after.trace == rows[t].trace +
        if ToBeVisited(rows[t], t, ctx, cfg, call) && !PassedOver(rows[t], ctx)
        then [Called(LifecycleOperationFor(ctx, rows[t]), Accepted)] else []
  {
    forall u | u in rows
      ensures !(ToBeVisited(rows[u], u, ctx, cfg, call) && Breaks(ctx, cfg.connectors[u], rows[u], call.answer(u)))
    {
      assert !WillFail(rows, u, ctx, cfg, call, id);
    }
    BreakForecast(rows, ctx, cfg, call);
    assert !WillFail(rows, t, ctx, cfg, call, id);
    assert Reached(rows, t, ctx, cfg, call) <==> ToBeVisited(rows[t], t, ctx, cfg, call);
  }

  /** A finding counts as repaired when its operation succeeded. Its target then accepted a
      call if and only if the row was in scope of the run, its target configured and not
      retired, and it was not passed over for want of a credential; otherwise nothing was
      asked of the target at all, as of one that waits for a password change. */
  lemma RepairedMeansAcceptedIff(a: Account, cfg: Config, t: Target, id: OpId, newId: OpId, now: real,
                                 answer: Target -> CallResult, rank: Target -> nat, missing: bool)
    requires Inv(a) && !a.isRoot && id !in a.ops && newId !in a.ops && newId != id
    requires t in WithLegacyRows(a.rows, cfg)
    requires Repair.Outcome(Meets(a, cfg, t, id, newId, now, answer, rank), missing) == Repair.Repaired
    ensures t in Repaired(a, cfg, t, id, newId, now, answer, rank).0.rows
    ensures
      var call := RepairCall(a, t, id, newId, now, answer, rank);
      var ctx := Context(a, call);
      var row := WithLegacyRows(a.rows, cfg)[t];
      Repaired(a, cfg, t, id, newId, now, answer, rank).0.rows[t].trace == row.trace +
        if ToBeVisited(row, t, ctx, cfg, call) && !PassedOver(row, ctx)
        then [Called(LifecycleOperationFor(ctx, row), Accepted)] else []
  {
    RepairIsFresh(a, t, id);
    var requested := RequestSpec(a, Reconcile, Some(t), id).0;
    var call := RepairCall(a, t, id, newId, now, answer, rank);
    var rows := WithLegacyRows(a.rows, cfg);
    RunFrame(requested, cfg, call, rows, id);
    RunEndsAsForecast(requested, cfg, call, rows, id);
    SucceededRow(rows, Context(requested, call), cfg, call, id, t);
  }
}
