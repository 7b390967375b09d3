/** `_set_pending`: rewriting a user's rows for a new selection (na_sso/users.py). */
module Pending {
  import opened Prelude
  import opened Lifecycle
  import opened Model
  import opened Assignments

  datatype PendingRequest = PendingRequest(
    password: Option<string>,
    targetIds: Option<set<Target>>,
    requirePasswordChange: bool,
    remoteAccountsAbsent: bool,
    updateExceptions: bool)

  /** The two ways the call raises; the session is then dropped unsaved. */
  datatype PendingError = RootHasNoTargets | TargetNotConfigured

  function Selection(a: Account, cfg: Config, req: PendingRequest): set<Target> {
    if req.targetIds.Some? then req.targetIds.value
    else if a.rows != map[] || !cfg.hasConfigFile then cfg.connectors.Keys
    else {}
  }

  function SecretAfterRequest(secret: Option<string>, req: PendingRequest): Option<string> {
    if req.password.Some? && !req.requirePasswordChange then req.password
    else if req.requirePasswordChange then None
    else secret
  }

  function DeselectedRow(row: Row): Row {
    if row.isAssigned
    then row.(isAssigned := false, state := PendingDisable, nextRetryAt := None,
              trace := row.trace + [LostAssignment])
    else row
  }

  function SelectedState(row: Option<Row>, takesPassword: bool, req: PendingRequest): SyncStateValue {
    var newlyAssigned := row.None? || !row.value.isAssigned;
    if req.requirePasswordChange then
      if !req.remoteAccountsAbsent && !newlyAssigned && row.value.state.Ok? then PendingChpwDisable else Chpw
    else if newlyAssigned && takesPassword && req.password.None? then AwaitingCredentials
    else SyncStateValue.Pending
  }

  function SelectedRow(row: Option<Row>, takesPassword: bool, req: PendingRequest): Row {
    var start := if row.Some? then row.value else FRESH_ROW;
    start.(isAssigned := true, isRetired := false, state := SelectedState(row, takesPassword, req),
           attemptCount := 0, nextRetryAt := None)
  }

  function RowAt(rows: map<Target, Row>, t: Target): Option<Row> {
    if t in rows then Some(rows[t]) else None
  }

  function PendingRows(rows: map<Target, Row>, selected: set<Target>, connectors: map<Target, Connector>,
                       req: PendingRequest): map<Target, Row>
    requires selected <= connectors.Keys
  {
    map t | t in rows.Keys + selected ::
      if t in selected then SelectedRow(RowAt(rows, t), connectors[t].takesPassword, req)
      else DeselectedRow(rows[t])
  }

  function PendingAccount(a: Account, selected: set<Target>, connectors: map<Target, Connector>,
                          req: PendingRequest): Account
    requires selected <= connectors.Keys
  {
    var recorded := if req.updateExceptions then RecordSpec(a, selected) else a;
    recorded.(pendingSecret := SecretAfterRequest(a.pendingSecret, req),
              rows := PendingRows(a.rows, selected, connectors, req))
  }

  function SetPendingSpec(a: Account, cfg: Config, req: PendingRequest): Result<Account, PendingError> {
    var selected := Selection(a, cfg, req);
    if a.isRoot && selected != {} then Failure(RootHasNoTargets)
    else if !(selected <= cfg.connectors.Keys) then Failure(TargetNotConfigured)
    else Success(PendingAccount(a, selected, cfg.connectors, req))
  }

  /** First loop: rows that lose their assignment are queued for a disable. */
  method DeselectRows(existing: map<Target, Row>, selected: set<Target>) returns (rows: map<Target, Row>)
    ensures rows == map t | t in existing :: if t in selected then existing[t] else DeselectedRow(existing[t])
  {
    rows := existing;
    var todo := existing.Keys;
    while todo != {}
      invariant todo <= existing.Keys == rows.Keys
      invariant forall t | t in rows ::
        rows[t] == (if t in todo || t in selected then existing[t] else DeselectedRow(existing[t]))
      decreases todo
    {
      var t :| t in todo;
      todo := todo - {t};
      var row := rows[t];
      if t !in selected && row.isAssigned {
        row := row.(isAssigned := false, trace := row.trace + [LostAssignment]);
        row := row.(state := PendingDisable);
        row := row.(nextRetryAt := None);
        rows := rows[t := row];
      }
    }
  }

  /** Second loop: selected rows are created or reset. */
  method SelectRows(existing: map<Target, Row>, selected: set<Target>, connectors: map<Target, Connector>,
                    req: PendingRequest) returns (rows: map<Target, Row>)
    requires selected <= connectors.Keys
    ensures rows == map t | t in existing.Keys + selected ::
      if t in selected then SelectedRow(RowAt(existing, t), connectors[t].takesPassword, req) else existing[t]
  {
    rows := existing;
    var todo := selected;
    while todo != {}
      invariant todo <= selected
      invariant rows.Keys == existing.Keys + (selected - todo)
      invariant forall t | t in rows ::
        rows[t] == (if t in selected && t !in todo
                    then SelectedRow(RowAt(existing, t), connectors[t].takesPassword, req)
                    else existing[t])
      decreases todo
    {
      var t :| t in todo;
      todo := todo - {t};
      var row := if t in rows then rows[t] else FRESH_ROW;
      var newlyAssigned := t !in rows || !row.isAssigned;
      var previousState := row.state;
      row := row.(isAssigned := true, isRetired := false);
      var takesPassword := connectors[t].takesPassword;
      if req.requirePasswordChange {
        row := row.(state := if !req.remoteAccountsAbsent && !newlyAssigned && previousState.Ok?
                             then PendingChpwDisable else Chpw);
      } else {
        row := row.(state := if newlyAssigned && takesPassword && req.password.None?
                             then AwaitingCredentials else SyncStateValue.Pending);
      }
      row := row.(attemptCount := 0, nextRetryAt := None);
      rows := rows[t := row];
    }
  }

  method RewriteRows(existing: map<Target, Row>, selected: set<Target>, connectors: map<Target, Connector>,
                     req: PendingRequest) returns (rows: map<Target, Row>)
    requires selected <= connectors.Keys
    ensures rows == PendingRows(existing, selected, connectors, req)
  {
    var deselected := DeselectRows(existing, selected);
    rows := SelectRows(deselected, selected, connectors, req);
  }

  method ApplySelection(u: ManagedUser, selected: set<Target>, connectors: map<Target, Connector>, req: PendingRequest)
    requires selected <= connectors.Keys
    modifies u
    ensures u.Snapshot() == PendingAccount(old(u.Snapshot()), selected, connectors, req)
  {
    if req.password.Some? && !req.requirePasswordChange {
      u.pendingSecret := req.password;
    } else if req.requirePasswordChange {
      u.pendingSecret := None;
    }
    if req.updateExceptions {
      RecordSelectedTargetExceptions(u, selected);
    }
    u.rows := RewriteRows(u.rows, selected, connectors, req);
  }

  method SetPending(u: ManagedUser, cfg: Config, req: PendingRequest) returns (error: Option<PendingError>)
    modifies u
    ensures match SetPendingSpec(old(u.Snapshot()), cfg, req)
      case Success(after) => error == None && u.Snapshot() == after
      case Failure(e) => error == Some(e) && u.Snapshot() == old(u.Snapshot())
  {
    var selected := if req.targetIds.Some? then req.targetIds.value
                    else if u.rows != map[] || !cfg.hasConfigFile then cfg.connectors.Keys
                    else {};
    // Both checks come first here: what the program has done before it raises is never saved.
    if u.isRoot && selected != {} {
      return Some(RootHasNoTargets);
    }
    if !(selected <= cfg.connectors.Keys) {
      return Some(TargetNotConfigured);
    }
    ApplySelection(u, selected, cfg.connectors, req);
    return None;
  }
}
