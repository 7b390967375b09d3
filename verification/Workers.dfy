/** The entry points that stage rows before a run: credential hand-off, password expiry
    and due retries (na_sso/sync.py). */
module Workers {
  import opened Prelude
  import opened Lifecycle
  import opened Model
  import opened Sync

  // ---- credential hand-off ----

  function Waiting(rows: map<Target, Row>): set<Target> {
    set t | t in rows && rows[t].isAssigned && !rows[t].isRetired
            && (rows[t].state.AwaitingCredentials? || rows[t].state.ExpiredDisabled? || rows[t].state.Chpw?)
  }

  predicate AcceptsHandoff(a: Account) {
    !a.isRoot && !a.decision.Initial? && !a.decision.Reset? && Waiting(a.rows) != {}
  }

  function StagedHandoff(a: Account, password: string): Account {
    if !AcceptsHandoff(a) then a
    else a.(pendingSecret := Some(password),
            rows := map t | t in a.rows ::
              if t in Waiting(a.rows) then a.rows[t].(state := SyncStateValue.Pending) else a.rows[t])
  }

  function WorkerCall(actor: Actor, target: Option<Target>, operationId: Option<OpId>,
                      newId: OpId, now: real, answer: Target -> CallResult, rank: Target -> nat): SyncCall
  {
    SyncCall(None, target, actor, operationId, newId, now, answer, rank)
  }

  method SetPendingState(before: map<Target, Row>, targets: set<Target>, state: SyncStateValue)
    returns (rows: map<Target, Row>)
    requires targets <= before.Keys
    ensures rows == map t | t in before :: if t in targets then before[t].(state := state) else before[t]
  {
    rows := before;
    var todo := targets;
    while todo != {}
      invariant todo <= targets
      invariant rows.Keys == before.Keys
      invariant forall t | t in rows ::
        rows[t] == (if t in targets && t !in todo then before[t].(state := state) else before[t])
      decreases todo
    {
      var t :| t in todo;
      todo := todo - {t};
      rows := rows[t := rows[t].(state := state)];
    }
  }

  method CredentialHandoff(u: ManagedUser, cfg: Config, password: string, newId: OpId, now: real,
                           answer: Target -> CallResult, rank: Target -> nat)
    requires newId !in u.ops && Listed(WithLegacyRows(u.rows, cfg).Keys, rank)
    modifies u
    ensures
      var a := old(u.Snapshot());
      u.Snapshot() == if AcceptsHandoff(a)
                      then SyncSpec(StagedHandoff(a, password), cfg,
                                    SyncCall(None, None, VerifiedLogin, None, newId, now, answer, rank)).0
                      else a
  {
    if u.isRoot || u.decision.Initial? || u.decision.Reset? {
      return;
    }
    var waiting := Waiting(u.rows);
    if waiting == {} {
      return;
    }
    u.pendingSecret := Some(password);
    u.rows := SetPendingState(u.rows, waiting, SyncStateValue.Pending);
    assert u.Snapshot() == StagedHandoff(old(u.Snapshot()), password);
    var _ := SyncUser(u, cfg, WorkerCall(VerifiedLogin, None, None, newId, now, answer, rank));
  }

  // ---- password expiry ----

  predicate Expires(a: Account, overdue: bool) {
    !a.isRoot && !a.isDisabled && !a.decisionRequired && overdue
  }

  function StagedExpiry(a: Account, overdue: bool): Account {
    if !Expires(a, overdue) then a
    else a.(decisionRequired := true, decision := Expired,
            rows := map t | t in a.rows ::
              if t in CurrentTargets(a.rows)
              then a.rows[t].(state := PendingExpiryDisable, nextRetryAt := None) else a.rows[t])
  }

  method MarkExpired(before: map<Target, Row>) returns (rows: map<Target, Row>)
    ensures rows == map t | t in before ::
      if t in CurrentTargets(before) then before[t].(state := PendingExpiryDisable, nextRetryAt := None)
      else before[t]
  {
    rows := before;
    var todo := before.Keys;
    while todo != {}
      invariant todo <= before.Keys == rows.Keys
      invariant forall t | t in rows ::
        rows[t] == (if t !in todo && t in CurrentTargets(before)
                    then before[t].(state := PendingExpiryDisable, nextRetryAt := None) else before[t])
      decreases todo
    {
      var t :| t in todo;
      todo := todo - {t};
      if rows[t].isAssigned && !rows[t].isRetired {
        rows := rows[t := rows[t].(state := PendingExpiryDisable)];
        rows := rows[t := rows[t].(nextRetryAt := None)];
      }
    }
  }

  /** `overdue` says whether the password's expiry lies at or before the clock. */
  method ExpireDue(u: ManagedUser, cfg: Config, overdue: bool, newId: OpId, now: real,
                   answer: Target -> CallResult, rank: Target -> nat)
    requires newId !in u.ops && Listed(WithLegacyRows(u.rows, cfg).Keys, rank)
    modifies u
    ensures
      var a := old(u.Snapshot());
      u.Snapshot() == if Expires(a, overdue)
                      then SyncSpec(StagedExpiry(a, overdue), cfg,
                                    SyncCall(None, None, PasswordExpiry, None, newId, now, answer, rank)).0
                      else a
  {
    if u.isRoot || u.isDisabled || u.decisionRequired || !overdue {
      return;
    }
    u.decisionRequired := true;
    u.decision := Expired;
    u.rows := MarkExpired(u.rows);
    assert u.Snapshot() == StagedExpiry(old(u.Snapshot()), overdue);
    var _ := SyncUser(u, cfg, WorkerCall(PasswordExpiry, None, None, newId, now, answer, rank));
  }

  // ---- due retries ----

  datatype DueRetry = DueRetry(target: Target, operationId: Option<OpId>)

  predicate IsDue(row: Row, now: real) {
    !row.isRetired && row.state.Failed? && row.nextRetryAt.Some? && row.nextRetryAt.value <= now
  }

  function RetryCall(due: DueRetry, newId: OpId, now: real, answer: Target -> CallResult, rank: Target -> nat)
    : SyncCall
  {
    WorkerCall(OtherActor, Some(due.target), due.operationId, newId, now, answer, rank)
  }

  /** The batch is read from the rows once, before any of its runs. */
  ghost predicate IsDueBatch(rows: map<Target, Row>, now: real, batch: seq<DueRetry>) {
    && (forall i, j | 0 <= i < j < |batch| :: batch[i].target != batch[j].target)
    && (forall t ::
          t in rows && IsDue(rows[t], now)
          <==> DueRetry(t, if t in rows then rows[t].operationId else None) in batch)
    && (forall d | d in batch ::
          d.target in rows && IsDue(rows[d.target], now) && d.operationId == rows[d.target].operationId)
  }

  method CollectDue(rows: map<Target, Row>, now: real) returns (batch: seq<DueRetry>)
    ensures IsDueBatch(rows, now, batch)
  {
    batch := [];
    var todo := set t | t in rows && IsDue(rows[t], now);
    while todo != {}
      invariant todo <= set t | t in rows && IsDue(rows[t], now)
      invariant forall d | d in batch ::
        d.target in rows && d.target !in todo && IsDue(rows[d.target], now)
        && d.operationId == rows[d.target].operationId
      invariant forall i, j | 0 <= i < j < |batch| :: batch[i].target != batch[j].target
      invariant forall t | t in rows && IsDue(rows[t], now) && t !in todo :: DueRetry(t, rows[t].operationId) in batch
      decreases todo
    {
      var t :| t in todo;
      todo := todo - {t};
      ghost var before := batch;
      batch := batch + [DueRetry(t, rows[t].operationId)];
      assert forall d | d in before :: d in batch;
      assert batch[|before|] == DueRetry(t, rows[t].operationId);
    }
  }
}
