/** The delete route followed by its run, and why an account cannot be deleted while one of
    its rows is unassigned (na_sso/users.py, na_sso/sync.py). */
module Deletion {
  import opened Prelude
  import opened Lifecycle
  import opened Model
  import opened Operations
  import opened Pending
  import opened Sync
  import opened Protocol
  import opened Runs

  function DeleteSelection(a: Account): PendingRequest {
    PendingRequest(None, Some(CurrentTargets(a.rows)), false, false, false)
  }

  /** The account once a deletion is requested and its rows are queued. A deletion request
      is never refused, so the route always has an operation. */
  function DeleteRoute(a: Account, cfg: Config, newId: OpId): Result<(Account, OpId), PendingError>
    requires newId !in a.ops
  {
    var (requested, outcome) := RequestSpec(a, Delete, None, newId);
    if outcome.Conflict? then Failure(TargetNotConfigured)
    else
      match SetPendingSpec(requested.(desired := WantDelete, deletedAt := None), cfg, DeleteSelection(a))
      case Success(after) => Success((after, outcome.id))
      case Failure(error) => Failure(error)
  }

  lemma DeletionIsAlwaysGranted(a: Account, newId: OpId)
    requires newId !in a.ops
    ensures RequestSpec(a, Delete, None, newId).1.Granted?
  {
  }

  method DeleteUser(u: ManagedUser, cfg: Config, newId: OpId) returns (id: Option<OpId>)
    requires newId !in u.ops
    modifies u
    ensures match DeleteRoute(old(u.Snapshot()), cfg, newId)
      case Success(pair) => id == Some(pair.1) && u.Snapshot() == pair.0
      case Failure(_) => id == None && u.Snapshot() == old(u.Snapshot())
  {
    var savedOps, savedActive, savedDesired, savedDeletedAt := u.ops, u.active, u.desired, u.deletedAt;
    DeletionIsAlwaysGranted(u.Snapshot(), newId);
    var outcome := RequestOperation(u, Delete, None, newId);
    u.desired := WantDelete;
    u.deletedAt := None;
    var current := CurrentTargets(u.rows);
    var error := SetPending(u, cfg, PendingRequest(None, Some(current), false, false, false));
    if error.Some? {
      // The session is dropped unsaved.
      u.ops, u.active, u.desired, u.deletedAt := savedOps, savedActive, savedDesired, savedDeletedAt;
      return None;
    }
    return Some(outcome.id);
  }

  function DeleteCall(id: OpId, newId: OpId, now: real, answer: Target -> CallResult, rank: Target -> nat): SyncCall {
    SyncCall(Some(WantDelete), None, OtherActor, Some(id), newId, now, answer, rank)
  }

  lemma DeleteRouteShape(a: Account, cfg: Config, newId: OpId)
    requires Inv(a) && !a.isRoot && newId !in a.ops && CurrentTargets(a.rows) <= cfg.connectors.Keys
    ensures
      var r := DeleteRoute(a, cfg, newId);
      && r.Success?
      && var (after, id) := r.value;
      && !after.isRoot && after.desired.WantDelete? && after.deletedAt.None?
      && after.rows == PendingRows(a.rows, CurrentTargets(a.rows), cfg.connectors, DeleteSelection(a))
      && id in after.ops && after.ops[id].userId == Some(after.userId) && after.ops[id].status.Resumable()
  {
  }

  /** What the account page can tell before the request: the row is retired, or it is still
      assigned and its target supports the delete; and then the target confirms it. */
  predicate Removable(row: Row, t: Target, cfg: Config, answer: Target -> CallResult) {
    row.isRetired
    || (row.isAssigned && t in cfg.connectors && cfg.connectors[t].deleteSupported && answer(t).Accepted?)
  }

  lemma RoutedRowPermits(a: Account, cfg: Config, call: SyncCall, t: Target)
    requires Inv(a) && CurrentTargets(a.rows) <= cfg.connectors.Keys && t in a.rows
    ensures
      var rows := PendingRows(a.rows, CurrentTargets(a.rows), cfg.connectors, DeleteSelection(a));
      && Storable(rows[t])
      && (RowPermitsDeletion(rows[t], t, cfg, call) <==> Removable(a.rows[t], t, cfg, call.answer))
  {
    assert RowLocal(a.rows[t]);
  }

  lemma RoutedRowsPermit(a: Account, cfg: Config, call: SyncCall)
    requires Inv(a) && CurrentTargets(a.rows) <= cfg.connectors.Keys
    ensures
      var staged := PendingRows(a.rows, CurrentTargets(a.rows), cfg.connectors, DeleteSelection(a));
      var rows, before := WithLegacyRows(staged, cfg), WithLegacyRows(a.rows, cfg);
      && rows.Keys == before.Keys && (forall t | t in staged :: Storable(staged[t]))
      && (forall t | t in rows ::
            RowPermitsDeletion(rows[t], t, cfg, call) <==> Removable(before[t], t, cfg, call.answer))
  {
    var staged := PendingRows(a.rows, CurrentTargets(a.rows), cfg.connectors, DeleteSelection(a));
    assert staged.Keys == a.rows.Keys;
    if a.rows == map[] {
      assert staged == map[];
    } else {
      var t :| t in a.rows;
      assert t in staged;
      forall t | t in a.rows {
        RoutedRowPermits(a, cfg, call, t);
      }
    }
  }

  /** The delete route followed by its run completes the deletion if and only if every row
      that is not retired is still assigned, and every current target supports the delete
      and confirms it. In particular the account cannot be deleted while one of its rows is
      unassigned, even when that target has confirmed the disable. */
  lemma DeleteRouteCompletesIff(a: Account, cfg: Config, newId: OpId, later: OpId, now: real,
                                answer: Target -> CallResult, rank: Target -> nat)
    requires Inv(a) && !a.isRoot && newId !in a.ops
    requires CurrentTargets(a.rows) <= cfg.connectors.Keys
    requires DeleteRoute(a, cfg, newId).Success? && later !in DeleteRoute(a, cfg, newId).value.0.ops
    ensures
      var (staged, id) := DeleteRoute(a, cfg, newId).value;
      var rows := WithLegacyRows(a.rows, cfg);
      var after := SyncSpec(staged, cfg, DeleteCall(id, later, now, answer, rank)).0;
      after.deletedAt.Some? <==> forall t | t in rows :: Removable(rows[t], t, cfg, answer)
  {
    DeleteRouteShape(a, cfg, newId);
    var (staged, id) := DeleteRoute(a, cfg, newId).value;
    var call := DeleteCall(id, later, now, answer, rank);
    RoutedRowsPermit(a, cfg, call);
    DeletionCompletesIff(staged, cfg, call, id);
  }
}
