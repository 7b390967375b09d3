/** Typed lifecycle values, the conflict rules between commands, and the
    terminal-state checks (na_sso/lifecycle.py). */
module Lifecycle {
  import opened Prelude

  datatype DesiredAction = WantEnsure | WantDelete | WantLocalOnly

  datatype SyncStateValue =
    | NotAssigned | Pending | Ok | Failed | Unsupported | Chpw
    | AwaitingCredentials | PendingDisable | PendingChpwDisable
    | PendingExpiryDisable | Unassigned | Retired | ExpiredDisabled

  datatype LifecycleCommand =
    | Create | Update | Enable | Disable | Delete | Restore | Purge | Retry
    | Expire | CredentialHandoff | PasswordChange | Reconcile | Bulk | TargetProbe

  datatype OperationStatus =
    Queued | Running | Succeeded | PartiallyFailed | Failed | Cancelled | Blocked
  {
    predicate Terminal() {
      Succeeded? || PartiallyFailed? || Failed? || Cancelled? || Blocked?
    }

    /** The statuses `resume_operation` accepts. */
    predicate Resumable() {
      Failed? || PartiallyFailed? || Queued? || Running?
    }
  }

  datatype TransitionMode = Start | Reuse | Supersede | Reject

  /** The command and status of the operation the user points at, if any. */
  datatype ActiveOperation = ActiveOperation(command: LifecycleCommand, status: OperationStatus)

  function DecideTransition(requested: LifecycleCommand, current: Option<ActiveOperation>,
                            deleteComplete: bool): (mode: TransitionMode)
  {
    var active := current.Some? && !current.value.status.Terminal();
    if requested.Purge? then
      if deleteComplete then Start else Reject
    else if requested.Restore? then
      if !active && deleteComplete then Start else Reject
    else if requested.Delete? then
      if !active then Start else if current.value.command.Delete? then Reuse else Supersede
    else if requested.Retry? then
      if current.Some? && (current.value.status.Failed? || current.value.status.PartiallyFailed?) then Reuse else Reject
    else
      if active then Reject else Start
  }

  /** What a stored row can hold: no row, a value outside the vocabulary, or a known value. */
  datatype StoredState = Absent | Unrecognised | Known(value: SyncStateValue)

  function NormaliseSyncState(state: StoredState, isAssigned: bool, isRetired: bool): SyncStateValue {
    if isRetired then SyncStateValue.Retired
    else match state
      case Absent => NotAssigned
      case Unrecognised => Pending
      case Known(value) =>
        if !isAssigned && !(value.NotAssigned? || value.PendingDisable? || value.Retired?
                          || value.Failed? || value.Unsupported?)
        then Unassigned
        else value
  }

  /** The `terminal` column of the presentation table. */
  predicate PresentedTerminal(value: SyncStateValue) {
    match value
    case NotAssigned | Ok | Failed | Unsupported | Chpw | AwaitingCredentials
       | Unassigned | Retired | ExpiredDisabled => true
    case Pending | PendingDisable | PendingChpwDisable | PendingExpiryDisable => false
  }

  predicate SyncStateIsTerminal(state: StoredState, deleting: bool, isAssigned: bool, isRetired: bool) {
    var value := NormaliseSyncState(state, isAssigned, isRetired);
    if deleting then value.Ok? || value.Retired? || value.NotAssigned?
    else PresentedTerminal(value)
  }

  /** The documented conflict rules, as one equivalence per mode: deletion overrides
      unfinished work and reuses an unfinished deletion, restore and purge wait for a
      completed deletion, a retry needs a failed operation, everything else needs quiet. */
  lemma ConflictRules(requested: LifecycleCommand, current: Option<ActiveOperation>, deleteComplete: bool)
    ensures
      var unfinished := current.Some? && !current.value.status.Terminal();
      var mode := DecideTransition(requested, current, deleteComplete);
      && (mode == Supersede <==>
            requested.Delete? && unfinished && !current.value.command.Delete?)
      && (mode == Reuse <==>
            || (requested.Delete? && unfinished && current.value.command.Delete?)
            || (requested.Retry? && current.Some?
                && (current.value.status.Failed? || current.value.status.PartiallyFailed?)))
      && (requested.Purge? ==> (mode == Start <==> deleteComplete))
      && (requested.Restore? ==> (mode == Start <==> deleteComplete && !unfinished))
      && (!(requested.Purge? || requested.Restore? || requested.Delete? || requested.Retry?) ==>
            (mode == Start <==> !unfinished) && (mode == Reject <==> unfinished))
      && (requested.Delete? ==> mode != Reject)
  {
  }
}
