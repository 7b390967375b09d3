/** What selections, hand-offs and expiries stage, stated on the user's own data, and what the
    runs after them do with it (na_sso/users.py, na_sso/sync.py). */
module Staging {
  import opened Prelude
  import opened Lifecycle
  import opened Model
  import opened Pending
  import opened Sync
  import opened Workers
  import opened Runs
  import opened Credentials
  import opened Calls
  import opened Operations
  import opened Deletion
  import opened Assignments
  import opened ProfileApplication
  import opened Ledger

  // ---- selections ----

  /** The targets a request selects: those it names, or all configured ones where the user
      has rows or there is no configuration file, or none. */
  predicate IsSelected(a: Account, cfg: Config, req: PendingRequest, t: Target) {
    match req.targetIds
    case Some(targets) => t in targets
    case None => t in cfg.connectors && (a.rows != map[] || !cfg.hasConfigFile)
  }

  /** A selection is refused if and only if it selects something for the root account or a
      target that is not configured. */
  lemma SelectionAcceptedIff(a: Account, cfg: Config, req: PendingRequest)
    ensures SetPendingSpec(a, cfg, req).Success? <==>
      forall t :: IsSelected(a, cfg, req, t) ==> !a.isRoot && t in cfg.connectors
  {
    assert forall t :: t in Selection(a, cfg, req) <==> IsSelected(a, cfg, req, t);
    if SetPendingSpec(a, cfg, req).Failure? {
      var t :| t in Selection(a, cfg, req) && (a.isRoot || t !in cfg.connectors);
      assert IsSelected(a, cfg, req, t);
    }
  }

  /** The password after a selection: gone where a change is demanded, otherwise the supplied
      one or, without one, the old. Nothing else of the user changes but rows and, where they
      are to be recorded, exceptions. */
  lemma SelectionStoresPassword(a: Account, cfg: Config, req: PendingRequest)
    requires SetPendingSpec(a, cfg, req).Success?
    ensures
      var after := SetPendingSpec(a, cfg, req).value;
      && (req.requirePasswordChange ==> after.pendingSecret == None)
      && (!req.requirePasswordChange && req.password != None ==> after.pendingSecret == req.password)
      && (!req.requirePasswordChange && req.password == None ==> after.pendingSecret == a.pendingSecret)
      && after == a.(pendingSecret := after.pendingSecret, rows := after.rows, exceptions := after.exceptions)
      && (!req.updateExceptions || a.profile == None ==> after.exceptions == a.exceptions)
  {
  }

  /** A row of the selection: every state under its exact condition. */
  predicate SelectedAs(before: Option<Row>, takesPassword: bool, req: PendingRequest, row: Row) {
    var isNew := before == None || !before.value.isAssigned;
    && (row.state == AwaitingCredentials <==>
          isNew && takesPassword && req.password == None && !req.requirePasswordChange)
    && (row.state == SyncStateValue.Pending <==>
          !req.requirePasswordChange && (!isNew || !takesPassword || req.password != None))
    && (row.state == PendingChpwDisable <==>
          req.requirePasswordChange && !req.remoteAccountsAbsent && !isNew && before.value.state == Ok)
    && (row.state == Chpw <==>
          req.requirePasswordChange && (req.remoteAccountsAbsent || isNew || before.value.state != Ok))
    && row.isAssigned && !row.isRetired && row.attemptCount == 0 && row.nextRetryAt == None
    && row.operationId == (if before == None then None else before.value.operationId)
    && row.trace == (if before == None then [] else before.value.trace)
  }

  /** A row that is not selected: one that was assigned waits for its disable, with its
      counter kept and without a retry; any other stays as it was. */
  predicate DeselectedAs(before: Row, row: Row) {
    if before.isAssigned
    then row == before.(isAssigned := false, state := PendingDisable, nextRetryAt := None,
                        trace := before.trace + [LostAssignment])
    else row == before
  }

  lemma SelectionStoresRows(a: Account, cfg: Config, req: PendingRequest, t: Target)
    requires SetPendingSpec(a, cfg, req).Success?
    ensures
      var after := SetPendingSpec(a, cfg, req).value;
      && (t in after.rows <==> t in a.rows || IsSelected(a, cfg, req, t))
      && (IsSelected(a, cfg, req, t) ==>
            t in cfg.connectors
            && SelectedAs(if t in a.rows then Some(a.rows[t]) else None, cfg.connectors[t].takesPassword, req,
                          after.rows[t]))
      && (t in a.rows && !IsSelected(a, cfg, req, t) ==> DeselectedAs(a.rows[t], after.rows[t]))
  {
    assert t in Selection(a, cfg, req) <==> IsSelected(a, cfg, req, t);
  }

  /** A supplied password outlives the selection: after any sequence of runs it is still
      pending, unless one of them delivered it. */
  lemma {:induction false} SuppliedPasswordSurvives(a: Account, cfg: Config, req: PendingRequest, runs: seq<SyncRun>)
    requires SetPendingSpec(a, cfg, req).Success? && req.password != None && !req.requirePasswordChange
    ensures
      var staged := SetPendingSpec(a, cfg, req).value;
      RunAll(staged, runs).pendingSecret == req.password
      || (RunAll(staged, runs).pendingSecret == None && exists k | 1 <= k <= |runs| :: DroppedAt(staged, runs, k))
  {
    SelectionStoresPassword(a, cfg, req);
    PasswordSurvivesUntilDelivered(SetPendingSpec(a, cfg, req).value, runs);
  }

  /** No ensure run asks a target anything whose row waits for a credential, as long as none
      is stored; the row keeps waiting, unless its target does not offer the operation. */
  lemma WaitingRowNotAsked(a: Account, cfg: Config, call: SyncCall, t: Target)
    requires call.newId !in a.ops && SyncSpec(a, cfg, call).1.Began() && t in WithLegacyRows(a.rows, cfg)
    requires WithLegacyRows(a.rows, cfg)[t].state == AwaitingCredentials
    requires a.pendingSecret == None && !RunDeletes(a, call)
    ensures t in SyncSpec(a, cfg, call).0.rows
    ensures
      var before, after := WithLegacyRows(a.rows, cfg)[t], SyncSpec(a, cfg, call).0.rows[t];
      && (forall operation :: !WasAsked(before, after, operation))
      && (after.state == AwaitingCredentials || after.state == SyncStateValue.Unsupported)
  {
    var before := WithLegacyRows(a.rows, cfg)[t];
    forall operation
      ensures !WasAsked(before, SyncSpec(a, cfg, call).0.rows[t], operation)
    {
      RunAsksIff(a, cfg, call, t, operation);
    }
    RunStores(a, cfg, call, t, Intended(a, call, before));
  }

  /** A newly assigned target that takes a password is asked for the account by the next
      ensure run if and only if a password is pending, for a user it may be asked for at all. */
  lemma NewTargetAskedIff(a: Account, cfg: Config, req: PendingRequest, call: SyncCall, t: Target)
    requires SetPendingSpec(a, cfg, req).Success? && !req.requirePasswordChange && IsSelected(a, cfg, req, t)
    requires t !in a.rows || !a.rows[t].isAssigned
    requires t in cfg.connectors && cfg.connectors[t].takesPassword && cfg.connectors[t].ensureSupported
    requires call.newId !in a.ops && (call.target == None || call.target == Some(t))
    requires
      var staged := SetPendingSpec(a, cfg, req).value;
      && !UserGone(staged, call) && !staged.isDisabled && staged.decision != Expired
      && t in staged.rows && SyncSpec(staged, cfg, call).1.Began() && ComesToIt(staged, cfg, call, staged.rows, t)
    ensures
      var staged := SetPendingSpec(a, cfg, req).value;
      && t in SyncSpec(staged, cfg, call).0.rows
      && (WasAsked(staged.rows[t], SyncSpec(staged, cfg, call).0.rows[t], EnsureUser)
          <==> req.password != None || a.pendingSecret != None)
  {
    var staged := SetPendingSpec(a, cfg, req).value;
    SelectionStoresRows(a, cfg, req, t);
    SelectionStoresPassword(a, cfg, req);
    NewRowAskedIff(staged, cfg, call, t);
  }

  lemma NewRowAskedIff(a: Account, cfg: Config, call: SyncCall, t: Target)
    requires call.newId !in a.ops && (call.target == None || call.target == Some(t)) && t in a.rows
    requires a.rows[t].isAssigned && !a.rows[t].isRetired
    requires a.rows[t].state == AwaitingCredentials || a.rows[t].state == SyncStateValue.Pending
    requires t in cfg.connectors && cfg.connectors[t].ensureSupported
    requires !UserGone(a, call) && !a.isDisabled && a.decision != Expired
    requires SyncSpec(a, cfg, call).1.Began() && ComesToIt(a, cfg, call, a.rows, t)
    ensures t in SyncSpec(a, cfg, call).0.rows
    ensures WasAsked(a.rows[t], SyncSpec(a, cfg, call).0.rows[t], EnsureUser)
       <==> a.rows[t].state != AwaitingCredentials || a.pendingSecret != None
  {
    assert WithLegacyRows(a.rows, cfg) == a.rows;
    RunAsksIff(a, cfg, call, t, EnsureUser);
    NewRowAsks(a, cfg, call, a.rows[t], t);
  }

  lemma NewRowAsks(a: Account, cfg: Config, call: SyncCall, row: Row, t: Target)
    requires (call.target == None || call.target == Some(t)) && row.isAssigned && !row.isRetired
    requires row.state == AwaitingCredentials || row.state == SyncStateValue.Pending
    requires t in cfg.connectors && cfg.connectors[t].ensureSupported
    requires !UserGone(a, call) && !a.isDisabled && a.decision != Expired
    ensures Asks(a, cfg, call, row, t, EnsureUser) <==> row.state != AwaitingCredentials || a.pendingSecret != None
  {
  }

  // ---- hand-off ----

  /** Rows that wait for a verified credential. */
  predicate AwaitsHandoff(row: Row) {
    && row.isAssigned && !row.isRetired
    && (row.state == AwaitingCredentials || row.state == ExpiredDisabled || row.state == Chpw)
  }

  /** A hand-off is taken up if and only if some row waits for it, for a user who is not the
      root account and whose password is neither initial nor reset. It then stores the
      password and makes exactly the waiting rows pending. */
  lemma HandoffStages(a: Account, password: string)
    ensures
      var after := StagedHandoff(a, password);
      var taken := !a.isRoot && a.decision != Initial && a.decision != Reset
                   && exists t | t in a.rows :: AwaitsHandoff(a.rows[t]);
      && after == a.(pendingSecret := after.pendingSecret, rows := after.rows)
      && after.pendingSecret == (if taken then Some(password) else a.pendingSecret)
      && after.rows.Keys == a.rows.Keys
      && (forall t | t in a.rows ::
            after.rows[t] == if taken && AwaitsHandoff(a.rows[t]) then a.rows[t].(state := SyncStateValue.Pending)
                             else a.rows[t])
  {
    assert forall t :: t in Waiting(a.rows) <==> t in a.rows && AwaitsHandoff(a.rows[t]);
    if exists t | t in a.rows :: AwaitsHandoff(a.rows[t]) {
      var t :| t in a.rows && AwaitsHandoff(a.rows[t]);
      assert t in Waiting(a.rows);
    }
  }

  // ---- expiry ----

  /** An expiry is staged if and only if the password is overdue and the user neither root
      nor disabled nor already waiting for a decision. Every current row then waits for its
      disable, without a retry. */
  lemma ExpiryStages(a: Account, overdue: bool)
    ensures
      var after := StagedExpiry(a, overdue);
      var taken := overdue && !a.isRoot && !a.isDisabled && !a.decisionRequired;
      && after == a.(decisionRequired := after.decisionRequired, decision := after.decision, rows := after.rows)
      && after.decisionRequired == (taken || a.decisionRequired)
      && after.decision == (if taken then Expired else a.decision)
      && after.rows.Keys == a.rows.Keys
      && (forall t | t in a.rows ::
            after.rows[t] == if taken && a.rows[t].isAssigned && !a.rows[t].isRetired
                             then a.rows[t].(state := PendingExpiryDisable, nextRetryAt := None) else a.rows[t])
  {
  }

  /** What the run after an expiry asks and stores for every current row it comes to: the
      disable is asked where the target offers it, and nothing else; accepted, the row is
      stored as disabled for expiry, failed, with a retry, and where the disable is refused
      or not offered, as unsupported. */
  lemma ExpiryDisables(a: Account, cfg: Config, call: SyncCall, t: Target)
    requires !a.isRoot && !a.isDisabled && !a.decisionRequired && a.desired != WantDelete && a.deletedAt == None
    requires t in a.rows && a.rows[t].isAssigned && !a.rows[t].isRetired && t in cfg.connectors
    requires call.action == None && call.target == None && call.newId !in a.ops
    requires
      var staged := StagedExpiry(a, true);
      SyncSpec(staged, cfg, call).1.Began() && ComesToIt(staged, cfg, call, staged.rows, t)
    ensures t in SyncSpec(StagedExpiry(a, true), cfg, call).0.rows
    ensures
      var before, after := a.rows[t], SyncSpec(StagedExpiry(a, true), cfg, call).0.rows[t];
      && (forall operation :: WasAsked(before, after, operation)
                         <==> operation == DisableUser && cfg.connectors[t].disableSupported)
      && (if !cfg.connectors[t].disableSupported then after.state == SyncStateValue.Unsupported
          else match call.answer(t)
            case Accepted => after.state == ExpiredDisabled && after.attemptCount == 0 && after.nextRetryAt == None
            case Rejected => after.state == SyncStateValue.Unsupported && after.nextRetryAt == None
            case Errored =>
              before.attemptCount < 1024 ==> after.state == SyncStateValue.Failed && after.nextRetryAt != None)
  {
    var staged := StagedExpiry(a, true);
    ExpiryStages(a, true);
    assert t in staged.rows && WithLegacyRows(staged.rows, cfg) == staged.rows;
    assert Intends(staged, call, staged.rows[t], DisableUser);
    RunStores(staged, cfg, call, t, DisableUser);
    forall operation
      ensures WasAsked(a.rows[t], SyncSpec(staged, cfg, call).0.rows[t], operation)
         <==> operation == DisableUser && cfg.connectors[t].disableSupported
    {
      RunAsksIff(staged, cfg, call, t, operation);
    }
  }

  // ---- deletion ----

  /** The delete route is refused if and only if a current target is not configured or the
      root account has one. */
  lemma DeletionAcceptedIff(a: Account, cfg: Config, newId: OpId)
    requires newId !in a.ops
    ensures DeleteRoute(a, cfg, newId).Success? <==>
      forall t | t in a.rows && a.rows[t].isAssigned && !a.rows[t].isRetired :: !a.isRoot && t in cfg.connectors
  {
    DeletionIsAlwaysGranted(a, newId);
    assert forall t :: t in CurrentTargets(a.rows) <==> t in a.rows && a.rows[t].isAssigned && !a.rows[t].isRetired;
    if DeleteRoute(a, cfg, newId).Failure? {
      assert exists t :: t in CurrentTargets(a.rows) && (a.isRoot || t !in cfg.connectors);
    }
  }

  /** Otherwise the account is wanted deleted, no longer dated, and its current rows start
      over; the operation is the one a deletion request is granted. */
  lemma DeletionStages(a: Account, cfg: Config, newId: OpId)
    requires newId !in a.ops && DeleteRoute(a, cfg, newId).Success?
    ensures
      var (after, id) := DeleteRoute(a, cfg, newId).value;
      && after == a.(desired := WantDelete, deletedAt := None, rows := after.rows, ops := after.ops, active := Some(id))
      && (after.ops, Granted(id)) == (RequestSpec(a, Delete, None, newId).0.ops, RequestSpec(a, Delete, None, newId).1)
      && after.rows.Keys == a.rows.Keys
      && forall t | t in a.rows ::
           after.rows[t] ==
             if a.rows[t].isAssigned && !a.rows[t].isRetired
             then a.rows[t].(state := SyncStateValue.Pending, attemptCount := 0, nextRetryAt := None)
             else if a.rows[t].isAssigned
             then a.rows[t].(isAssigned := false, state := PendingDisable, nextRetryAt := None,
                             trace := a.rows[t].trace + [LostAssignment])
             else a.rows[t]
  {
    assert forall t :: t in CurrentTargets(a.rows) <==> t in a.rows && a.rows[t].isAssigned && !a.rows[t].isRetired;
  }

  // ---- profile confirmation ----

  /** A confirmation meets a conflict if and only if the user's operation is unfinished. An
      applied one has requested an update and keeps the password and all that is not rows,
      exceptions or operations. */
  lemma ConfirmationRecords(a: Account, cfg: Config, profile: Intents, newId: OpId)
    requires newId !in a.ops
    ensures
      var (after, outcome) := ConfirmSpec(a, cfg, profile, newId);
      && (outcome == Conflicted <==> Occupied(a)) && (!outcome.Applied? ==> after == a)
      && (outcome.Applied? ==>
            && outcome.id == newId && after.active == Some(newId)
            && after.ops == a.ops[newId := Operation(Some(a.userId), Update, Queued, None, None, 0, 0, 0)]
            && after == a.(profile := Some(profile), exceptions := after.exceptions, rows := after.rows,
                           ops := after.ops, active := after.active))
  {
    RequestRecords(WithProfile(a, profile), Update, None, newId);
  }

  /** Every intended target then has the row of a plain selection, and every other one that of
      a deselection. */
  lemma ConfirmationStages(a: Account, cfg: Config, profile: Intents, newId: OpId, t: Target)
    requires newId !in a.ops && ConfirmSpec(a, cfg, profile, newId).1.Applied?
    ensures
      var after := ConfirmSpec(a, cfg, profile, newId).0;
      var intents := ResolveSpec(after, cfg.connectors);
      && (t in after.rows <==> t in a.rows || t in intents)
      && (t in intents ==>
            && t in cfg.connectors
            && SelectedAs(if t in a.rows then Some(a.rows[t]) else None, cfg.connectors[t].takesPassword,
                          PendingRequest(None, None, false, false, false), after.rows[t]))
      && (t in a.rows && t !in intents ==> DeselectedAs(a.rows[t], after.rows[t]))
  {
    var prepared := WithProfile(a, profile);
    var requested := RequestSpec(prepared, Update, None, newId).0;
    var req := IntentsRequest(ResolveSpec(prepared, cfg.connectors).Keys);
    RequestLeavesIntents(prepared, cfg, newId);
    PlainSelection(requested, cfg, req, t);
    ResolvedSelectionAgrees(requested, cfg, req);
  }

  lemma PlainSelection(a: Account, cfg: Config, req: PendingRequest, t: Target)
    requires SetPendingSpec(a, cfg, req).Success? && req.targetIds.Some?
    requires req == IntentsRequest(req.targetIds.value)
    ensures
      var after := SetPendingSpec(a, cfg, req).value;
      && (t in after.rows <==> t in a.rows || t in req.targetIds.value)
      && (t in req.targetIds.value ==>
            && t in cfg.connectors
            && SelectedAs(if t in a.rows then Some(a.rows[t]) else None, cfg.connectors[t].takesPassword,
                          PendingRequest(None, None, false, false, false), after.rows[t]))
      && (t in a.rows && t !in req.targetIds.value ==> DeselectedAs(a.rows[t], after.rows[t]))
  {
    SelectionStoresRows(a, cfg, req, t);
  }
}
