/** One synchronisation run: choose the operation, scope the rows, visit each connector
    and fold the results back (na_sso/sync.py). */
module Sync {
  import opened Prelude
  import opened Lifecycle
  import opened Model
  import opened Operations
  import opened Backoff

  datatype Actor = VerifiedLogin | PasswordExpiry | OtherActor

  /** The arguments of a run together with what the outside world contributes: a new
      operation id, the clock, the answer of each connector, and the order in which the
      database lists the rows. */
  datatype SyncCall = SyncCall(
    action: Option<DesiredAction>,
    target: Option<Target>,
    actor: Actor,
    operationId: Option<OpId>,
    newId: OpId,
    now: real,
    answer: Target -> CallResult,
    rank: Target -> nat)

  /** `Skipped` is a `None` return, `Raised` an operation that cannot resume; in both
      cases the session is dropped and nothing is saved. `Interrupted` is a run that raises
      between two commits, so that part of it stays. */
  datatype SyncResult = Skipped | Raised | Interrupted(id: OpId) | Completed(id: OpId)
  {
    /** The run began to work on its operation. */
    predicate Began() {
      Interrupted? || Completed?
    }
  }

  // ---- one row ----

  /** The user-level facts a run reads once, before it visits any row. */
  datatype RunContext = RunContext(
    deleting: bool, userDeleted: bool, isDisabled: bool, decision: DecisionKind,
    hasPassword: bool, now: real)

  predicate Deleting(a: Account, call: SyncCall) {
    (if call.action.Some? then call.action.value else a.desired).WantDelete?
  }

  function Context(a: Account, call: SyncCall): RunContext {
    RunContext(Deleting(a, call), a.desired.WantDelete? || a.deletedAt.Some?, a.isDisabled,
               a.decision, a.pendingSecret.Some?, call.now)
  }

  function LifecycleOperationFor(ctx: RunContext, row: Row): RemoteOperation {
    if ctx.deleting || ctx.userDeleted then DeleteUser
    else if !row.isAssigned || row.state.PendingChpwDisable? || ctx.isDisabled || ctx.decision.Expired?
    then DisableUser
    else EnsureUser
  }

  /** The state a successful call leaves behind. */
  function SettledState(ctx: RunContext, row: Row): SyncStateValue {
    if ctx.deleting then Ok
    else if !row.isAssigned then Unassigned
    else if ctx.decision.Initial? || ctx.decision.Reset? then Chpw
    else if ctx.decision.Expired? then ExpiredDisabled
    else Ok
  }

  /** A row waiting for a credential the run does not have is passed over. */
  predicate PassedOver(row: Row, ctx: RunContext) {
    !ctx.deleting && row.state.AwaitingCredentials? && !ctx.hasPassword
  }

  /** The visit raises: the target is asked, fails, and the next retry cannot be computed. */
  predicate Breaks(ctx: RunContext, connector: Connector, row: Row, result: CallResult) {
    && connector.Supports(LifecycleOperationFor(ctx, row)) && !PassedOver(row, ctx)
    && result.Errored? && row.attemptCount >= LAST_ATTEMPT
  }

  /** What one visit leaves in the database. The row is saved as pending before the call;
      a visit that raises leaves it so. */
  function Visited(ctx: RunContext, cfg: Config, connector: Connector, row: Row, result: CallResult): Row {
    var operation := LifecycleOperationFor(ctx, row);
    if !connector.Supports(operation) then
      row.(state := Unsupported, nextRetryAt := None, trace := row.trace + [DeclaredUnsupported(operation)])
    else if PassedOver(row, ctx) then
      row
    else
      var called := row.(trace := row.trace + [Called(operation, result)]);
      match result
      case Accepted => called.(state := SettledState(ctx, row), attemptCount := 0, nextRetryAt := None)
      case Rejected => called.(state := Unsupported, attemptCount := row.attemptCount + 1, nextRetryAt := None)
      case Errored =>
        if row.attemptCount >= LAST_ATTEMPT then
          called.(state := SyncStateValue.Pending, nextRetryAt := None, trace := called.trace + [OutcomeLost])
        else
          called.(state := SyncStateValue.Failed, attemptCount := row.attemptCount + 1,
                  nextRetryAt := Some(ctx.now + Delay(cfg.retryBase, cfg.retryMax, row.attemptCount + 1)))
  }

  method VisitTarget(ctx: RunContext, cfg: Config, connector: Connector, before: Row, result: CallResult)
    returns (row: Row, broke: bool)
    ensures row == Visited(ctx, cfg, connector, before, result)
    ensures broke == Breaks(ctx, connector, before, result)
  {
    row, broke := before, false;
    var chpwDisable := row.state.PendingChpwDisable?;
    var operation := if ctx.deleting || ctx.userDeleted then DeleteUser
                     else if !row.isAssigned || chpwDisable || ctx.isDisabled || ctx.decision.Expired?
                     then DisableUser else EnsureUser;
    if !connector.Supports(operation) {
      row := row.(state := Unsupported);
      row := row.(nextRetryAt := None, trace := row.trace + [DeclaredUnsupported(operation)]);
      return;
    }
    if !ctx.deleting && row.state.AwaitingCredentials? && !ctx.hasPassword {
      return;
    }
    row := row.(state := SyncStateValue.Pending, nextRetryAt := None);
    row := row.(trace := row.trace + [Called(operation, result)]);
    var saved := row;
    row := row.(state := if result.Accepted? then Ok else SyncStateValue.Failed);
    if result.Accepted? {
      row := row.(attemptCount := 0, nextRetryAt := None);
      if ctx.deleting {
        row := row.(state := Ok);
      } else if !row.isAssigned {
        row := row.(state := Unassigned);
      } else if ctx.decision.Initial? || ctx.decision.Reset? {
        row := row.(state := Chpw);
      } else if ctx.decision.Expired? {
        row := row.(state := ExpiredDisabled);
      }
    } else {
      row := row.(attemptCount := row.attemptCount + 1);
      if result.Rejected? {
        row := row.(state := Unsupported);
      } else if row.attemptCount > LAST_ATTEMPT {
        // Computing the delay raises, and the session falls back to what it saved last.
        row := saved.(trace := saved.trace + [OutcomeLost]);
        broke := true;
      } else {
        row := row.(nextRetryAt := Some(ctx.now + Delay(cfg.retryBase, cfg.retryMax, row.attemptCount)));
      }
    }
  }

  // ---- all rows ----

  function WithLegacyRows(rows: map<Target, Row>, cfg: Config): map<Target, Row> {
    if rows == map[] && !cfg.hasConfigFile then map t | t in cfg.connectors :: FRESH_ROW else rows
  }

  predicate InScope(row: Row, t: Target, deleting: bool, cfg: Config, target: Option<Target>) {
    && (target.None? || target.value == t)
    && (deleting ||
        (&& (row.isAssigned || row.state.PendingDisable? || row.state.Failed?)
         && !row.isRetired && t in cfg.connectors && !row.state.Chpw?))
  }

  function Scope(rows: map<Target, Row>, deleting: bool, cfg: Config, target: Option<Target>): set<Target> {
    set t | t in rows && InScope(rows[t], t, deleting, cfg, target)
  }

  /** The scoped rows whose connector is actually called. */
  function ToVisit(rows: map<Target, Row>, deleting: bool, cfg: Config, target: Option<Target>): set<Target> {
    set t | t in Scope(rows, deleting, cfg, target) && !rows[t].isRetired && t in cfg.connectors
  }

  /** The visits that would raise. */
  function Breaking(rows: map<Target, Row>, ctx: RunContext, cfg: Config, call: SyncCall): set<Target> {
    set t | t in ToVisit(rows, ctx.deleting, cfg, call.target)
            && Breaks(ctx, cfg.connectors[t], rows[t], call.answer(t))
  }

  /** The visits that take place: those up to the first that raises. */
  predicate Reached(rows: map<Target, Row>, t: Target, ctx: RunContext, cfg: Config, call: SyncCall) {
    && t in ToVisit(rows, ctx.deleting, cfg, call.target)
    && forall u | u in Breaking(rows, ctx, cfg, call) :: call.rank(t) <= call.rank(u)
  }

  function RowAfter(rows: map<Target, Row>, t: Target, ctx: RunContext, cfg: Config, call: SyncCall, id: OpId): Row
    requires t in rows
  {
    if t !in Scope(rows, ctx.deleting, cfg, call.target) then rows[t]
    else
      var stamped := rows[t].(operationId := Some(id));
      if Reached(rows, t, ctx, cfg, call)
      then Visited(ctx, cfg, cfg.connectors[t], stamped, call.answer(t))
      else stamped
  }

  function RowsAfter(rows: map<Target, Row>, ctx: RunContext, cfg: Config, call: SyncCall, id: OpId): map<Target, Row> {
    map t | t in rows :: RowAfter(rows, t, ctx, cfg, call, id)
  }

  method AddLegacyRows(before: map<Target, Row>, cfg: Config) returns (rows: map<Target, Row>)
    ensures rows == WithLegacyRows(before, cfg)
  {
    rows := before;
    if rows == map[] && !cfg.hasConfigFile {
      var todo := cfg.connectors.Keys;
      while todo != {}
        invariant todo <= cfg.connectors.Keys
        invariant rows.Keys == cfg.connectors.Keys - todo
        invariant forall t | t in rows :: rows[t] == FRESH_ROW
        decreases todo
      {
        var t :| t in todo;
        todo := todo - {t};
        rows := rows[t := FRESH_ROW];
      }
    }
  }

  method StampRows(before: map<Target, Row>, scope: set<Target>, id: OpId) returns (rows: map<Target, Row>)
    requires scope <= before.Keys
    ensures rows == map t | t in before :: if t in scope then before[t].(operationId := Some(id)) else before[t]
  {
    rows := before;
    var todo := scope;
    while todo != {}
      invariant todo <= scope
      invariant rows.Keys == before.Keys
      invariant forall t | t in rows ::
        rows[t] == (if t in scope && t !in todo then before[t].(operationId := Some(id)) else before[t])
      decreases todo
    {
      var t :| t in todo;
      todo := todo - {t};
      rows := rows[t := rows[t].(operationId := Some(id))];
    }
  }

  /** The listing order tells these targets apart. */
  ghost predicate Listed(targets: set<Target>, rank: Target -> nat) {
    forall t, u | t in targets && u in targets && rank(t) == rank(u) :: t == u
  }

  method NextListed(todo: set<Target>, rank: Target -> nat) returns (next: Target)
    requires todo != {}
    ensures next in todo && forall u | u in todo :: rank(next) <= rank(u)
  {
    next :| next in todo;
    var rest := todo - {next};
    while rest != {}
      invariant rest <= todo && next in todo
      invariant forall u | u in todo && u !in rest :: rank(next) <= rank(u)
      decreases rest
    {
      var u :| u in rest;
      rest := rest - {u};
      if rank(u) < rank(next) {
        next := u;
      }
    }
  }

  function BreakingIn(rows: map<Target, Row>, visit: set<Target>, ctx: RunContext, cfg: Config, call: SyncCall)
    : set<Target>
    requires visit <= rows.Keys && visit <= cfg.connectors.Keys
  {
    set t | t in visit && Breaks(ctx, cfg.connectors[t], rows[t], call.answer(t))
  }

  /** The rows once these visits have been made. */
  function VisitedRows(rows: map<Target, Row>, done: set<Target>, ctx: RunContext, cfg: Config, call: SyncCall)
    : map<Target, Row>
    requires done <= cfg.connectors.Keys
  {
    map t | t in rows ::
      if t in done then Visited(ctx, cfg, cfg.connectors[t], rows[t], call.answer(t)) else rows[t]
  }

  function UpToFirst(visit: set<Target>, breaking: set<Target>, rank: Target -> nat): set<Target> {
    set t | t in visit && forall u | u in breaking :: rank(t) <= rank(u)
  }

  /** The connector loop, in the order the rows are listed; it ends early where a visit
      raises. */
  method VisitRows(before: map<Target, Row>, visit: set<Target>, ctx: RunContext, cfg: Config, call: SyncCall)
    returns (rows: map<Target, Row>, broke: bool)
    requires visit <= before.Keys && visit <= cfg.connectors.Keys && Listed(visit, call.rank)
    ensures
      var breaking := BreakingIn(before, visit, ctx, cfg, call);
      && broke == (breaking != {})
      && rows == VisitedRows(before, UpToFirst(visit, breaking, call.rank), ctx, cfg, call)
  {
    rows, broke := before, false;
    ghost var breaking := BreakingIn(before, visit, ctx, cfg, call);
    ghost var done := {};
    var todo := visit;
    while todo != {} && !broke
      invariant done !! todo && done + todo == visit
      invariant rows == VisitedRows(before, done, ctx, cfg, call)
      invariant forall t, u | t in done && u in todo :: call.rank(t) < call.rank(u)
      invariant !broke ==> breaking <= todo
      invariant broke ==> breaking != {} && done == UpToFirst(visit, breaking, call.rank)
      decreases todo
    {
      var t := NextListed(todo, call.rank);
      assert rows[t] == before[t];
      var row;
      row, broke := VisitTarget(ctx, cfg, cfg.connectors[t], rows[t], call.answer(t));
      ghost var doneBefore := done;
      done, todo := done + {t}, todo - {t};
      rows := rows[t := row];
      if broke {
        FirstBreaks(visit, breaking, doneBefore, t, call.rank);
      }
    }
    if !broke {
      assert done == UpToFirst(visit, {}, call.rank);
    }
  }

  lemma FirstBreaks(visit: set<Target>, breaking: set<Target>, done: set<Target>, t: Target, rank: Target -> nat)
    requires done <= visit && t in breaking && breaking <= visit - done && Listed(visit, rank)
    requires forall u, v | u in done && v in visit && v !in done :: rank(u) < rank(v)
    requires forall u | u in visit && u !in done :: rank(t) <= rank(u)
    ensures done + {t} == UpToFirst(visit, breaking, rank)
  {
    forall u | u in visit
      ensures u in done + {t} <==> u in UpToFirst(visit, breaking, rank)
    {
    }
  }

  lemma StampingKeepsBreaking(rows: map<Target, Row>, stamped: map<Target, Row>, ctx: RunContext, cfg: Config,
                              call: SyncCall, id: OpId)
    requires stamped == map t | t in rows ::
      if t in Scope(rows, ctx.deleting, cfg, call.target) then rows[t].(operationId := Some(id)) else rows[t]
    ensures
      var visit := ToVisit(rows, ctx.deleting, cfg, call.target);
      && BreakingIn(stamped, visit, ctx, cfg, call) == Breaking(rows, ctx, cfg, call)
      && VisitedRows(stamped, UpToFirst(visit, Breaking(rows, ctx, cfg, call), call.rank), ctx, cfg, call)
         == RowsAfter(rows, ctx, cfg, call, id)
  {
    var visit := ToVisit(rows, ctx.deleting, cfg, call.target);
    var done := UpToFirst(visit, Breaking(rows, ctx, cfg, call), call.rank);
    forall t | t in rows
      ensures t in done <==> Reached(rows, t, ctx, cfg, call)
    {
    }
    forall t | t in visit
      ensures Breaks(ctx, cfg.connectors[t], stamped[t], call.answer(t))
         <==> Breaks(ctx, cfg.connectors[t], rows[t], call.answer(t))
    {
    }
  }

  /** Scope, stamp and visit: the row part of a run. */
  method RunRows(before: map<Target, Row>, ctx: RunContext, cfg: Config, call: SyncCall, id: OpId)
    returns (rows: map<Target, Row>, broke: bool)
    requires Listed(before.Keys, call.rank)
    ensures rows == RowsAfter(before, ctx, cfg, call, id)
    ensures broke == (Breaking(before, ctx, cfg, call) != {})
  {
    var scope := Scope(before, ctx.deleting, cfg, call.target);
    var visit := ToVisit(before, ctx.deleting, cfg, call.target);
    rows := StampRows(before, scope, id);
    StampingKeepsBreaking(before, rows, ctx, cfg, call, id);
    rows, broke := VisitRows(rows, visit, ctx, cfg, call);
  }

  // ---- choosing the operation ----

  function CommandFor(deleting: bool, actor: Actor): LifecycleCommand {
    if deleting then Delete
    else match actor
      case VerifiedLogin => CredentialHandoff
      case PasswordExpiry => Expire
      case OtherActor => Update
  }

  /** The failed operation a targeted run without a known operation takes up again. */
  function RetryCandidate(a: Account, rows: map<Target, Row>, call: SyncCall): Option<OpId> {
    if call.target.Some? && call.target.value in rows
       && rows[call.target.value].operationId.Some?
       && rows[call.target.value].operationId.value in a.ops
       && (a.ops[rows[call.target.value].operationId.value].status.Failed?
           || a.ops[rows[call.target.value].operationId.value].status.PartiallyFailed?)
    then rows[call.target.value].operationId else None
  }

  function Choose(a: Account, rows: map<Target, Row>, call: SyncCall): (r: (Account, SyncResult))
    requires call.newId !in a.ops
    ensures r.1.Completed? ==> r.1.id in r.0.ops && r.0.ops[r.1.id].status.Resumable()
  {
    if call.operationId.Some? && call.operationId.value in a.ops then
      var id := call.operationId.value;
      if a.ops[id].userId != Some(a.userId) then (a, Skipped)
      else if !a.ops[id].status.Resumable() then (a, Raised)
      else (a, Completed(id))
    else
      var candidate := RetryCandidate(a, rows, call);
      if candidate.Some? then (Resumed(a, candidate.value, call.target), Completed(candidate.value))
      else
        var (requested, outcome) := RequestSpec(a, CommandFor(Deleting(a, call), call.actor), call.target, call.newId);
        if outcome.Conflict? then (a, Skipped) else (requested, Completed(outcome.id))
  }

  method ChooseOperation(u: ManagedUser, rows: map<Target, Row>, call: SyncCall) returns (r: SyncResult)
    requires call.newId !in u.ops
    modifies u
    ensures (u.Snapshot(), r) == Choose(old(u.Snapshot()), rows, call)
  {
    if call.operationId.Some? && call.operationId.value in u.ops {
      var id := call.operationId.value;
      if u.ops[id].userId != Some(u.userId) {
        return Skipped;
      }
      // The run stamps its rows before it finds that the operation cannot resume, but
      // never saves them.
      return if u.ops[id].status.Resumable() then Completed(id) else Raised;
    }
    if call.target.Some? && call.target.value in rows && rows[call.target.value].operationId.Some? {
      var id := rows[call.target.value].operationId.value;
      if id in u.ops && (u.ops[id].status.Failed? || u.ops[id].status.PartiallyFailed?) {
        var ok := ResumeOperation(u, id, call.target);
        return Completed(id);
      }
    }
    var desired := if call.action.Some? then call.action.value else u.desired;
    var outcome := RequestOperation(u, CommandFor(desired.WantDelete?, call.actor), call.target, call.newId);
    r := if outcome.Conflict? then Skipped else Completed(outcome.id);
  }

  // ---- starting and concluding the operation ----

  function BegunOperation(op: Operation, total: nat, target: Option<Target>): Operation {
    if op.status.Queued? then op.(status := Running, total := total, completed := 0, failed := 0)
    else op.(status := Running,
             requestedTarget := if target.Some? then target else op.requestedTarget,
             total := if op.total == 0 then total else op.total)
  }

  /** A queued operation starts without touching the active pointer; any other resumes and
      becomes the active one. */
  function Begun(a: Account, id: OpId, total: nat, target: Option<Target>): Account
    requires id in a.ops
  {
    a.(ops := a.ops[id := BegunOperation(a.ops[id], total, target)],
       active := if a.ops[id].status.Queued? then a.active else Some(id))
  }

  method BeginOperation(u: ManagedUser, id: OpId, total: nat, target: Option<Target>)
    requires id in u.ops && u.ops[id].status.Resumable()
    modifies u
    ensures u.Snapshot() == Begun(old(u.Snapshot()), id, total, target)
  {
    if u.ops[id].status.Queued? {
      StartOperation(u, id, total);
    } else {
      var ok := ResumeOperation(u, id, target);
      if u.ops[id].total == 0 {
        u.ops := u.ops[id := u.ops[id].(total := total)];
      }
    }
    assert u.ops == Begun(old(u.Snapshot()), id, total, target).ops;
  }

  function Stamped(rows: map<Target, Row>, id: OpId): set<Target> {
    set t | t in rows && rows[t].operationId == Some(id)
  }

  function Failures(rows: map<Target, Row>, id: OpId): set<Target> {
    set t | t in Stamped(rows, id) && (rows[t].state.Failed? || rows[t].state.Unsupported?)
  }

  predicate TerminalRow(row: Row, deleting: bool) {
    SyncStateIsTerminal(Known(row.state), deleting, row.isAssigned, row.isRetired)
  }

  function TerminalRows(rows: map<Target, Row>, id: OpId, deleting: bool): set<Target> {
    set t | t in Stamped(rows, id) && TerminalRow(rows[t], deleting)
  }

  /** The rows whose agreement lets the pending password go. */
  function PasswordTargets(rows: map<Target, Row>, cfg: Config): set<Target> {
    set t | t in rows && rows[t].isAssigned && !rows[t].isRetired && t in cfg.connectors
  }

  predicate PasswordDelivered(rows: map<Target, Row>, cfg: Config) {
    PasswordTargets(rows, cfg) != {} && forall t | t in PasswordTargets(rows, cfg) :: rows[t].state.Ok?
  }

  /** How the counts of the stamped rows settle the operation. */
  function ConcludedStatus(rows: map<Target, Row>, id: OpId, deleting: bool, status: OperationStatus): OperationStatus {
    var failures := Failures(rows, id);
    var terminal := TerminalRows(rows, id, deleting);
    if failures != {} then
      if |terminal| > |failures| then PartiallyFailed else OperationStatus.Failed
    else if |terminal| == |Stamped(rows, id)| then Succeeded
    else status
  }

  predicate Completes(rows: map<Target, Row>, id: OpId, deleting: bool) {
    Failures(rows, id) == {} && |TerminalRows(rows, id, deleting)| == |Stamped(rows, id)|
  }

  /** Unless rows failed or are still open, the operation succeeds; a completed deletion
      is dated and a password every target has taken is forgotten. */
  function Concluded(a: Account, cfg: Config, id: OpId, deleting: bool, now: real): Account
    requires id in a.ops
  {
    var completes := Completes(a.rows, id, deleting);
    a.(ops := a.ops[id := a.ops[id].(
                status := ConcludedStatus(a.rows, id, deleting, a.ops[id].status),
                completed := |TerminalRows(a.rows, id, deleting)|,
                failed := |Failures(a.rows, id)|)],
       active := if a.active == Some(id) && (completes || Failures(a.rows, id) != {}) then None else a.active,
       deletedAt := if completes && deleting then Some(now) else a.deletedAt,
       pendingSecret := if completes && !deleting && PasswordDelivered(a.rows, cfg) then None else a.pendingSecret)
  }

  method ConcludeOperation(u: ManagedUser, cfg: Config, id: OpId, deleting: bool, now: real)
    requires id in u.ops
    modifies u
    ensures u.Snapshot() == Concluded(old(u.Snapshot()), cfg, id, deleting, now)
  {
    var stamped := Stamped(u.rows, id);
    var failures := set t | t in stamped && (u.rows[t].state.Failed? || u.rows[t].state.Unsupported?);
    var terminal := set t | t in stamped && TerminalRow(u.rows[t], deleting);
    assert failures == Failures(u.rows, id) && terminal == TerminalRows(u.rows, id, deleting);
    if failures != {} {
      FinishOperation(u, id, if |terminal| > |failures| then PartiallyFailed else OperationStatus.Failed,
                      |terminal|, |failures|);
    } else if |terminal| == |stamped| {
      if deleting {
        u.deletedAt := Some(now);
      } else if PasswordDelivered(u.rows, cfg) {
        u.pendingSecret := None;
      }
      FinishOperation(u, id, Succeeded, |terminal|, 0);
    } else {
      u.ops := u.ops[id := u.ops[id].(completed := |terminal|, failed := 0)];
    }
  }

  // ---- the run ----

  /** The rows are stamped, the operation begun, and the visits that take place made. */
  function VisitedAccount(a: Account, cfg: Config, call: SyncCall, rows: map<Target, Row>, id: OpId): Account
    requires id in a.ops
  {
    var ctx := Context(a, call);
    Begun(a, id, |Scope(rows, ctx.deleting, cfg, call.target)|, call.target)
      .(rows := RowsAfter(rows, ctx, cfg, call, id))
  }

  /** A run on an operation that is already chosen; where a visit raises, the operation is
      never concluded. */
  function RunSpec(a: Account, cfg: Config, call: SyncCall, rows: map<Target, Row>, id: OpId): Account
    requires id in a.ops
  {
    var ctx := Context(a, call);
    var visited := VisitedAccount(a, cfg, call, rows, id);
    if Breaking(rows, ctx, cfg, call) != {} then visited
    else Concluded(visited, cfg, id, ctx.deleting, call.now)
  }

  function SyncSpec(a: Account, cfg: Config, call: SyncCall): (Account, SyncResult)
    requires call.newId !in a.ops
  {
    if a.isRoot then (a, Skipped) else
    var rows := WithLegacyRows(a.rows, cfg);
    var (chosen, result) := Choose(a, rows, call);
    if !result.Completed? then (a, result)
    else
      (RunSpec(chosen, cfg, call, rows, result.id),
       if Breaking(rows, Context(chosen, call), cfg, call) != {} then Interrupted(result.id) else result)
  }

  method BeginAndVisit(u: ManagedUser, cfg: Config, call: SyncCall, rows: map<Target, Row>, id: OpId, ctx: RunContext)
    returns (broke: bool)
    requires id in u.ops && u.ops[id].status.Resumable() && Listed(rows.Keys, call.rank)
    modifies u
    ensures u.Snapshot()
         == Begun(old(u.Snapshot()), id, |Scope(rows, ctx.deleting, cfg, call.target)|, call.target)
              .(rows := RowsAfter(rows, ctx, cfg, call, id))
    ensures broke == (Breaking(rows, ctx, cfg, call) != {})
  {
    var scope := Scope(rows, ctx.deleting, cfg, call.target);
    BeginOperation(u, id, |scope|, call.target);
    var after;
    after, broke := RunRows(rows, ctx, cfg, call, id);
    u.rows := after;
  }

  method RunOperation(u: ManagedUser, cfg: Config, call: SyncCall, rows: map<Target, Row>, id: OpId)
    returns (broke: bool)
    requires id in u.ops && u.ops[id].status.Resumable() && Listed(rows.Keys, call.rank)
    modifies u
    ensures u.Snapshot() == RunSpec(old(u.Snapshot()), cfg, call, rows, id)
    ensures broke == (Breaking(rows, Context(old(u.Snapshot()), call), cfg, call) != {})
  {
    var desired := if call.action.Some? then call.action.value else u.desired;
    var ctx := RunContext(desired.WantDelete?, u.desired.WantDelete? || u.deletedAt.Some?, u.isDisabled,
                          u.decision, u.pendingSecret.Some?, call.now);
    assert ctx == Context(u.Snapshot(), call);
    broke := BeginAndVisit(u, cfg, call, rows, id, ctx);
    if !broke {
      ConcludeOperation(u, cfg, id, ctx.deleting, call.now);
    }
  }

  /** The whole run; on `Skipped` and `Raised` the user is exactly as before. */
  method SyncUser(u: ManagedUser, cfg: Config, call: SyncCall) returns (r: SyncResult)
    requires call.newId !in u.ops && Listed(WithLegacyRows(u.rows, cfg).Keys, call.rank)
    modifies u
    ensures (u.Snapshot(), r) == SyncSpec(old(u.Snapshot()), cfg, call)
  {
    if u.isRoot {
      return Skipped;
    }
    var rows := AddLegacyRows(u.rows, cfg);
    r := ChooseOperation(u, rows, call);
    if r.Completed? {
      var broke := RunOperation(u, cfg, call, rows, r.id);
      if broke {
        r := Interrupted(r.id);
      }
    }
  }
}
