/** The managed user with its per-target rows and its operation table (na_sso/models.py).

    `Account` is the value of a user at one moment and is what specifications speak
    about; `ManagedUser` is the mutable object whose fields the routes and workers assign. */
module Model {
  import opened Prelude
  import opened Lifecycle

  type Target = string
  type OpId = nat

  /** The mutation a sync run asks of a connector. */
  datatype RemoteOperation = EnsureUser | DisableUser | DeleteUser

  /** How a connector call ended; `Rejected` stands for a validation error. */
  datatype CallResult = Accepted | Rejected | Errored

  /** History of one row: not stored by the program, kept here so that properties can
      speak of what has been asked of the target so far. `OutcomeLost` follows a call whose
      answer was not saved because the run raised. */
  datatype Event =
    | LostAssignment
    | Called(operation: RemoteOperation, result: CallResult)
    | OutcomeLost
    | DeclaredUnsupported(operation: RemoteOperation)

  datatype Row = Row(
    isAssigned: bool,
    isRetired: bool,
    state: SyncStateValue,
    attemptCount: nat,
    nextRetryAt: Option<real>,
    operationId: Option<OpId>,
    trace: seq<Event>)

  datatype Operation = Operation(
    userId: Option<int>,
    command: LifecycleCommand,
    status: OperationStatus,
    requestedTarget: Option<Target>,
    supersedes: Option<OpId>,
    total: nat,
    completed: nat,
    failed: nat)

  datatype DecisionKind = NoDecision | Initial | Reset | Expired

  datatype AssignmentMode = Inherit | Include | Exclude

  datatype AssignmentException = AssignmentException(
    mode: AssignmentMode, add: set<string>, remove: set<string>)

  datatype Connector = Connector(
    ensureSupported: bool,
    disableSupported: bool,
    deleteSupported: bool,
    takesPassword: bool,
    defaultMemberships: set<string>)
  {
    predicate Supports(operation: RemoteOperation) {
      match operation
      case EnsureUser => ensureSupported
      case DisableUser => disableSupported
      case DeleteUser => deleteSupported
    }
  }

  datatype Config = Config(
    connectors: map<Target, Connector>,
    hasConfigFile: bool,
    retryBase: real,
    retryMax: real)

  datatype Account = Account(
    userId: int,
    isRoot: bool,
    rows: map<Target, Row>,
    ops: map<OpId, Operation>,
    active: Option<OpId>,
    desired: DesiredAction,
    isDisabled: bool,
    deletedAt: Option<real>,
    pendingSecret: Option<string>,
    decision: DecisionKind,
    decisionRequired: bool,
    profile: Option<map<Target, set<string>>>,
    exceptions: map<Target, AssignmentException>)

  /** The row a new `SyncState` holds once it is written with its column defaults. */
  const FRESH_ROW: Row := Row(true, false, Pending, 0, None, None, [])

  function AssignedTargets(rows: map<Target, Row>): set<Target> {
    set t | t in rows && rows[t].isAssigned
  }

  /** Rows the account page counts as current access. */
  function CurrentTargets(rows: map<Target, Row>): set<Target> {
    set t | t in rows && rows[t].isAssigned && !rows[t].isRetired
  }

  /** What the row shows on the account page. */
  function Shown(row: Row): SyncStateValue {
    NormaliseSyncState(Known(row.state), row.isAssigned, row.isRetired)
  }

  class ManagedUser {
    const userId: int
    var isRoot: bool
    var rows: map<Target, Row>
    var ops: map<OpId, Operation>
    var active: Option<OpId>
    var desired: DesiredAction
    var isDisabled: bool
    var deletedAt: Option<real>
    var pendingSecret: Option<string>
    var decision: DecisionKind
    var decisionRequired: bool
    var profile: Option<map<Target, set<string>>>
    var exceptions: map<Target, AssignmentException>

    ghost function Snapshot(): Account
      reads this
    {
      Account(userId, isRoot, rows, ops, active, desired, isDisabled, deletedAt, pendingSecret,
              decision, decisionRequired, profile, exceptions)
    }

    constructor (userId: int)
      ensures Snapshot() == NewAccount(userId)
    {
      this.userId := userId;
      isRoot, rows, ops, active := false, map[], map[], None;
      desired, isDisabled, deletedAt, pendingSecret := WantEnsure, false, None, None;
      decision, decisionRequired, profile, exceptions := NoDecision, false, None, map[];
    }
  }

  function NewAccount(userId: int): Account {
    Account(userId, false, map[], map[], None, WantEnsure, false, None, None,
            NoDecision, false, None, map[])
  }
}
