/** What requests and runs leave in the table of operations, stated on the tables, the rows and
    the request alone (na_sso/operations.py, na_sso/sync.py). */
module Ledger {
  import opened Prelude
  import opened Lifecycle
  import opened Model
  import opened Operations
  import opened Sync
  import opened Calls

  // ---- requests ----

  /** The user points at an operation that has not ended. */
  predicate Occupied(a: Account) {
    && a.active != None && a.active.value in a.ops
    && (a.ops[a.active.value].status == Queued || a.ops[a.active.value].status == Running)
  }

  predicate Refuses(a: Account, command: LifecycleCommand) {
    match command
    case Delete => false
    case Purge => a.deletedAt == None
    case Restore => a.deletedAt == None || Occupied(a)
    case Retry => true
    case _ => Occupied(a)
  }

  /** A deletion joins the unfinished deletion ... */
  predicate Joins(a: Account, command: LifecycleCommand) {
    command == Delete && Occupied(a) && a.ops[a.active.value].command == Delete
  }

  /** ... and overrides any other unfinished operation. */
  predicate Overrides(a: Account, command: LifecycleCommand) {
    command == Delete && Occupied(a) && a.ops[a.active.value].command != Delete
  }

  /** A request in full: when it is refused, which operation it is granted, and what is then on
      record of the new, of the overridden and of every other operation. */
  lemma RequestRecords(a: Account, command: LifecycleCommand, target: Option<Target>, newId: OpId)
    requires newId !in a.ops
    ensures
      var (after, outcome) := RequestSpec(a, command, target, newId);
      && after == a.(ops := after.ops, active := after.active)
      && outcome == (if Refuses(a, command) then Conflict
                     else if Joins(a, command) then Granted(a.active.value) else Granted(newId))
      && (Refuses(a, command) ==> after.ops == a.ops && after.active == if Occupied(a) then a.active else None)
      && (Joins(a, command) ==> after == a)
      && (outcome == Granted(newId) ==>
            && after.active == Some(newId) && after.ops.Keys == a.ops.Keys + {newId}
            && after.ops[newId] == Operation(Some(a.userId), command, Queued, target,
                                             if Overrides(a, command) then a.active else None, 0, 0, 0)
            && forall id | id in a.ops ::
                 after.ops[id] == if Overrides(a, command) && a.active == Some(id)
                                  then a.ops[id].(status := Cancelled) else a.ops[id])
  {
  }

  // ---- the operation a run works on ----

  /** The rows a run starts from: the stored ones or, for a user without any and without a
      configuration file, a new pending one for every connector. */
  lemma RowsBeforeRun(a: Account, cfg: Config, t: Target)
    ensures
      var rows := WithLegacyRows(a.rows, cfg);
      var created := a.rows == map[] && !cfg.hasConfigFile;
      && (t in rows <==> if created then t in cfg.connectors else t in a.rows)
      && (t in rows ==>
            rows[t] == if created then Row(true, false, SyncStateValue.Pending, 0, None, None, []) else a.rows[t])
  {
  }

  predicate Named(a: Account, call: SyncCall) {
    call.operationId != None && call.operationId.value in a.ops
  }

  predicate MayResume(op: Operation) {
    || op.status == Queued || op.status == Running || op.status == OperationStatus.Failed
    || op.status == PartiallyFailed
  }

  /** A run for one target takes up the operation its row names, if that has failed. */
  predicate TakesUp(a: Account, rows: map<Target, Row>, call: SyncCall) {
    && !Named(a, call) && call.target != None && call.target.value in rows
    && var id := rows[call.target.value].operationId;
    && id != None && id.value in a.ops
    && (a.ops[id.value].status == OperationStatus.Failed || a.ops[id.value].status == PartiallyFailed)
  }

  function RequestedBy(a: Account, call: SyncCall): LifecycleCommand {
    if RunDeletes(a, call) then Delete
    else match call.actor
      case VerifiedLogin => CredentialHandoff
      case PasswordExpiry => Expire
      case OtherActor => Update
  }

  lemma ChoiceRecords(a: Account, rows: map<Target, Row>, call: SyncCall)
    requires call.newId !in a.ops
    ensures
      var (chosen, result) := Choose(a, rows, call);
      var command := RequestedBy(a, call);
      if Named(a, call) then
        var op := a.ops[call.operationId.value];
        && chosen == a
        && result == if op.userId != Some(a.userId) then Skipped
                     else if !MayResume(op) then Raised else Completed(call.operationId.value)
      else if TakesUp(a, rows, call) then
        var id := rows[call.target.value].operationId.value;
        && result == Completed(id)
        && chosen == a.(ops := a.ops[id := a.ops[id].(status := Running, requestedTarget := call.target)],
                        active := Some(id))
      else if Refuses(a, command) then
        chosen == a && result == Skipped
      else
        && chosen == RequestSpec(a, command, call.target, call.newId).0
        && result == Completed(if Joins(a, command) then a.active.value else call.newId)
  {
    if !Named(a, call) && !TakesUp(a, rows, call) {
      RequestedChoice(a, rows, call);
      RequestRecords(a, RequestedBy(a, call), call.target, call.newId);
    }
  }

  lemma RequestedChoice(a: Account, rows: map<Target, Row>, call: SyncCall)
    requires call.newId !in a.ops && !Named(a, call) && !TakesUp(a, rows, call)
    ensures
      var (requested, outcome) := RequestSpec(a, RequestedBy(a, call), call.target, call.newId);
      Choose(a, rows, call)
      == if outcome.Conflict? then (a, Skipped) else (requested, Completed(outcome.id))
  {
    assert RetryCandidate(a, rows, call) == None;
  }

  // ---- the record of a run ----

  /** The rows a run puts its operation on. */
  function InRun(a: Account, cfg: Config, call: SyncCall, rows: map<Target, Row>): set<Target> {
    set t | t in rows && (call.target == None || call.target == Some(t))
            && (RunDeletes(a, call) || Taken(a, cfg, call, rows[t], t))
  }

  function Carriers(rows: map<Target, Row>, id: OpId): set<Target> {
    set t | t in rows && rows[t].operationId == Some(id)
  }

  function Refusing(rows: map<Target, Row>, id: OpId): set<Target> {
    set t | t in Carriers(rows, id)
            && (rows[t].state == SyncStateValue.Failed || rows[t].state == SyncStateValue.Unsupported)
  }

  /** The row counts as finished: for a deletion, if it is retired, assigned and `ok`, or was
      never assigned; otherwise, unless it waits for a disable or, assigned, for anything. */
  predicate Done(row: Row, deleting: bool) {
    if deleting then row.isRetired || (row.state == Ok && row.isAssigned) || row.state == NotAssigned
                     || row.state == SyncStateValue.Retired
    else
      || row.isRetired
      || (row.state != SyncStateValue.Pending && row.state != PendingDisable && row.state != PendingChpwDisable
          && row.state != PendingExpiryDisable)
      || (!row.isAssigned && row.state != PendingDisable)
  }

  function DoneOnes(rows: map<Target, Row>, id: OpId, deleting: bool): set<Target> {
    set t | t in Carriers(rows, id) && Done(rows[t], deleting)
  }

  /** The record as the run begins: a queued operation starts over, any other goes on. */
  predicate BeginsAs(before: Operation, scope: nat, target: Option<Target>, after: Operation) {
    && after.userId == before.userId && after.command == before.command && after.supersedes == before.supersedes
    && after.requestedTarget == (if before.status == Queued || target == None then before.requestedTarget else target)
    && after.total == (if before.status == Queued || before.total == 0 then scope else before.total)
  }

  /** ... and how a run that is not interrupted settles it, by the rows that carry it. */
  predicate SettledBy(op: Operation, rows: map<Target, Row>, id: OpId, deleting: bool) {
    var completed, failed := |DoneOnes(rows, id, deleting)|, |Refusing(rows, id)|;
    && op.completed == completed && op.failed == failed
    && (op.status == OperationStatus.Failed <==> failed > 0 && completed <= failed)
    && (op.status == PartiallyFailed <==> failed > 0 && completed > failed)
    && (op.status == Succeeded <==> failed == 0 && completed == |Carriers(rows, id)|)
    && (op.status == Running <==> failed == 0 && completed != |Carriers(rows, id)|)
  }

  lemma DoneIffTerminal(row: Row, deleting: bool)
    ensures TerminalRow(row, deleting) <==> Done(row, deleting)
  {
  }

  lemma ScopeIsInRun(a: Account, cfg: Config, call: SyncCall, rows: map<Target, Row>)
    ensures Scope(rows, RunDeletes(a, call), cfg, call.target) == InRun(a, cfg, call, rows)
  {
    forall t
      ensures t in Scope(rows, RunDeletes(a, call), cfg, call.target) <==> t in InRun(a, cfg, call, rows)
    {
    }
  }

  lemma ConclusionRecords(a: Account, cfg: Config, id: OpId, deleting: bool, now: real)
    requires id in a.ops && a.ops[id].status == Running
    ensures
      var after := Concluded(a, cfg, id, deleting, now);
      var op := after.ops[id];
      && after == a.(ops := a.ops[id := op], active := after.active, deletedAt := after.deletedAt,
                     pendingSecret := after.pendingSecret)
      && SettledBy(op, a.rows, id, deleting)
      && op == a.ops[id].(status := op.status, completed := op.completed, failed := op.failed)
      && after.active == (if a.active == Some(id) && op.status != Running then None else a.active)
      && after.deletedAt == (if op.status == Succeeded && deleting then Some(now) else a.deletedAt)
      && after.pendingSecret
         == (if op.status == Succeeded && !deleting && AllTaken(a.rows, cfg) then None else a.pendingSecret)
  {
    assert Stamped(a.rows, id) == Carriers(a.rows, id);
    assert Failures(a.rows, id) == Refusing(a.rows, id);
    forall t | t in a.rows {
      DoneIffTerminal(a.rows[t], deleting);
    }
    assert TerminalRows(a.rows, id, deleting) == DoneOnes(a.rows, id, deleting);
    AllTakenIffDelivered(a.rows, cfg);
  }

  /** Some target is assigned and configured, and every such row is `ok`. */
  predicate AllTaken(rows: map<Target, Row>, cfg: Config) {
    && (exists t :: t in rows && rows[t].isAssigned && !rows[t].isRetired && t in cfg.connectors)
    && (forall t | t in rows && rows[t].isAssigned && !rows[t].isRetired && t in cfg.connectors :: rows[t].state == Ok)
  }

  lemma AllTakenIffDelivered(rows: map<Target, Row>, cfg: Config)
    ensures AllTaken(rows, cfg) <==> PasswordDelivered(rows, cfg)
  {
    assert forall t :: t in PasswordTargets(rows, cfg)
                  <==> t in rows && rows[t].isAssigned && !rows[t].isRetired && t in cfg.connectors;
    if PasswordTargets(rows, cfg) != {} {
      var t :| t in PasswordTargets(rows, cfg);
    }
  }

  /** What a run that was not interrupted does to the account beyond its rows and records. */
  predicate EndsAs(a: Account, cfg: Config, call: SyncCall, id: OpId, after: Account)
    requires id in a.ops && id in after.ops
  {
    var status := after.ops[id].status;
    && after.active == (if (a.ops[id].status != Queued || a.active == Some(id)) && status != Running then None
                        else if a.ops[id].status != Queued then Some(id) else a.active)
    && after.deletedAt == (if status == Succeeded && RunDeletes(a, call) then Some(call.now) else a.deletedAt)
    && after.pendingSecret == (if status == Succeeded && !RunDeletes(a, call) && AllTaken(after.rows, cfg)
                               then None else a.pendingSecret)
  }

  /** ... and what one that was interrupted leaves: its operation running, as it began. */
  predicate StopsAs(a: Account, id: OpId, after: Account)
    requires id in a.ops && id in after.ops
  {
    && after.ops[id].status == Running
    && after.ops[id].completed == (if a.ops[id].status == Queued then 0 else a.ops[id].completed)
    && after.ops[id].failed == (if a.ops[id].status == Queued then 0 else a.ops[id].failed)
    && after.active == (if a.ops[id].status != Queued then Some(id) else a.active)
    && after.deletedAt == a.deletedAt && after.pendingSecret == a.pendingSecret
  }

  predicate OthersStay(a: Account, id: OpId, after: Account) {
    && after.ops.Keys == a.ops.Keys
    && (forall other | other in a.ops && other != id :: after.ops[other] == a.ops[other])
    && after == a.(rows := after.rows, ops := after.ops, active := after.active, deletedAt := after.deletedAt,
                   pendingSecret := after.pendingSecret)
  }

  lemma BeginRecords(a: Account, id: OpId, total: nat, target: Option<Target>)
    requires id in a.ops && MayResume(a.ops[id])
    ensures
      var after := Begun(a, id, total, target);
      OthersStay(a, id, after) && BeginsAs(a.ops[id], total, target, after.ops[id]) && StopsAs(a, id, after)
  {
  }

  lemma EndRecords(a: Account, begun: Account, cfg: Config, call: SyncCall, id: OpId, scope: nat)
    requires id in a.ops && OthersStay(a, id, begun) && BeginsAs(a.ops[id], scope, call.target, begun.ops[id])
    requires StopsAs(a, id, begun)
    ensures
      var after := Concluded(begun, cfg, id, RunDeletes(a, call), call.now);
      && OthersStay(a, id, after) && BeginsAs(a.ops[id], scope, call.target, after.ops[id])
      && SettledBy(after.ops[id], after.rows, id, RunDeletes(a, call)) && EndsAs(a, cfg, call, id, after)
  {
    ConclusionRecords(begun, cfg, id, RunDeletes(a, call), call.now);
  }

  lemma RunRecords(a: Account, cfg: Config, call: SyncCall, rows: map<Target, Row>, id: OpId)
    requires id in a.ops && MayResume(a.ops[id])
    ensures
      var after := RunSpec(a, cfg, call, rows, id);
      && OthersStay(a, id, after)
      && BeginsAs(a.ops[id], |InRun(a, cfg, call, rows)|, call.target, after.ops[id])
      && (if Breaking(rows, Context(a, call), cfg, call) != {} then StopsAs(a, id, after)
          else SettledBy(after.ops[id], after.rows, id, RunDeletes(a, call)) && EndsAs(a, cfg, call, id, after))
  {
    ScopeIsInRun(a, cfg, call, rows);
    var scope := |InRun(a, cfg, call, rows)|;
    var begun := Begun(a, id, scope, call.target).(rows := RowsAfter(rows, Context(a, call), cfg, call, id));
    BeginRecords(a, id, scope, call.target);
    EndRecords(a, begun, cfg, call, id, scope);
    assert VisitedAccount(a, cfg, call, rows, id) == begun;
  }

  /** The account a run works on: the operation chosen, and requested or resumed if need be. */
  lemma RunWorksOn(a: Account, cfg: Config, call: SyncCall)
    requires call.newId !in a.ops && !a.isRoot
    ensures
      var rows := WithLegacyRows(a.rows, cfg);
      var (chosen, choice) := Choose(a, rows, call);
      var (after, result) := SyncSpec(a, cfg, call);
      && (result.Began() <==> choice.Completed?) && (!result.Began() ==> result == choice && after == a)
      && (result.Began() ==>
            && result.id == choice.id && choice.id in chosen.ops && MayResume(chosen.ops[choice.id])
            && chosen == a.(ops := chosen.ops, active := chosen.active)
            && after == RunSpec(chosen, cfg, call, rows, choice.id)
            && (result.Interrupted? <==> Breaking(rows, Context(chosen, call), cfg, call) != {}))
  {
    ChoiceRecords(a, WithLegacyRows(a.rows, cfg), call);
  }

  /** Which operation a run works on, if any: the one it is given, if that is the user's own
      and may resume; else the failed one its target's row names; else one it requests. A run
      that gets none changes nothing. */
  lemma RunTakesOperation(a: Account, cfg: Config, call: SyncCall)
    requires call.newId !in a.ops
    ensures
      var rows, command := WithLegacyRows(a.rows, cfg), RequestedBy(a, call);
      var (after, result) := SyncSpec(a, cfg, call);
      && (!result.Began() ==> after == a)
      && (if a.isRoot then result == Skipped
          else if Named(a, call) then
            var op := a.ops[call.operationId.value];
            && (result == Skipped <==> op.userId != Some(a.userId))
            && (result == Raised <==> op.userId == Some(a.userId) && !MayResume(op))
            && (result.Began() ==> result.id == call.operationId.value)
          else if TakesUp(a, rows, call) then
            result.Began() && Some(result.id) == rows[call.target.value].operationId
          else
            && (result == Skipped <==> Refuses(a, command)) && result != Raised
            && (result.Began() ==> result.id == if Joins(a, command) then a.active.value else call.newId))
  {
    if !a.isRoot {
      ChoiceRecords(a, WithLegacyRows(a.rows, cfg), call);
      RunWorksOn(a, cfg, call);
    }
  }

  /** A run is interrupted if and only if the answer of a row it takes is lost. */
  lemma RunInterruptedIff(a: Account, cfg: Config, call: SyncCall)
    requires call.newId !in a.ops && SyncSpec(a, cfg, call).1.Began()
    ensures SyncSpec(a, cfg, call).1.Interrupted? <==>
      exists t :: t in WithLegacyRows(a.rows, cfg) && Loses(a, cfg, call, WithLegacyRows(a.rows, cfg)[t], t)
  {
    var rows := WithLegacyRows(a.rows, cfg);
    RunWorksOn(a, cfg, call);
    forall t | t in rows {
      BreaksIffLoses(a, cfg, call, rows, t);
    }
    if Breaking(rows, Context(a, call), cfg, call) != {} {
      var t :| t in Breaking(rows, Context(a, call), cfg, call);
      assert t in rows;
    }
  }

  /** The record of the operation before the run: the stored one, or what a request stores. */
  function RecordBefore(a: Account, call: SyncCall, id: OpId): Operation {
    if id in a.ops then a.ops[id]
    else Operation(Some(a.userId), RequestedBy(a, call), Queued, call.target,
                   if Overrides(a, RequestedBy(a, call)) then a.active else None, 0, 0, 0)
  }

  /** What a run leaves of its operation, of the others and of the user, by the record before it
      and the rows after it: `mine` says that the operation is the active one once it began. */
  predicate Recorded(a: Account, cfg: Config, call: SyncCall, id: OpId, scope: nat, interrupted: bool, after: Account) {
    var before := RecordBefore(a, call, id);
    var mine := id !in a.ops || before.status != Queued || a.active == Some(id);
    && after.ops.Keys == a.ops.Keys + {id}
    && (forall other | other in a.ops && other != id ::
          after.ops[other] == if id !in a.ops && Overrides(a, RequestedBy(a, call)) && a.active == Some(other)
                              then a.ops[other].(status := Cancelled) else a.ops[other])
    && BeginsAs(before, scope, call.target, after.ops[id])
    && (if interrupted then
          && after.ops[id].status == Running
          && after.ops[id].completed == (if before.status == Queued then 0 else before.completed)
          && after.ops[id].failed == (if before.status == Queued then 0 else before.failed)
        else SettledBy(after.ops[id], after.rows, id, RunDeletes(a, call)))
    && after.active == (if !mine then a.active else if after.ops[id].status == Running then Some(id) else None)
    && after.deletedAt == (if !interrupted && after.ops[id].status == Succeeded && RunDeletes(a, call)
                           then Some(call.now) else a.deletedAt)
    && after.pendingSecret == (if !interrupted && after.ops[id].status == Succeeded && !RunDeletes(a, call)
                                  && AllTaken(after.rows, cfg) then None else a.pendingSecret)
    && after == a.(rows := after.rows, ops := after.ops, active := after.active, deletedAt := after.deletedAt,
                   pendingSecret := after.pendingSecret)
  }

  lemma GivenRecorded(a: Account, cfg: Config, call: SyncCall, id: OpId, scope: nat, interrupted: bool, after: Account)
    requires id in a.ops && OthersStay(a, id, after) && BeginsAs(a.ops[id], scope, call.target, after.ops[id])
    requires if interrupted then StopsAs(a, id, after)
             else SettledBy(after.ops[id], after.rows, id, RunDeletes(a, call)) && EndsAs(a, cfg, call, id, after)
    ensures Recorded(a, cfg, call, id, scope, interrupted, after)
  {
  }

  lemma TakenUpRecorded(a: Account, chosen: Account, cfg: Config, call: SyncCall, id: OpId, scope: nat,
                        interrupted: bool, after: Account)
    requires id in a.ops && (a.ops[id].status == OperationStatus.Failed || a.ops[id].status == PartiallyFailed)
    requires call.target != None
    requires chosen == a.(ops := a.ops[id := a.ops[id].(status := Running, requestedTarget := call.target)],
                          active := Some(id))
    requires Recorded(chosen, cfg, call, id, scope, interrupted, after)
    ensures Recorded(a, cfg, call, id, scope, interrupted, after)
  {
  }

  lemma RequestedRecorded(a: Account, chosen: Account, cfg: Config, call: SyncCall, scope: nat, interrupted: bool,
                          after: Account)
    requires call.newId !in a.ops && !Refuses(a, RequestedBy(a, call)) && !Joins(a, RequestedBy(a, call))
    requires chosen == RequestSpec(a, RequestedBy(a, call), call.target, call.newId).0
    requires call.newId in chosen.ops && Recorded(chosen, cfg, call, call.newId, scope, interrupted, after)
    ensures Recorded(a, cfg, call, call.newId, scope, interrupted, after)
  {
    RequestRecords(a, RequestedBy(a, call), call.target, call.newId);
  }

  lemma ChosenRecorded(a: Account, chosen: Account, cfg: Config, call: SyncCall, rows: map<Target, Row>, id: OpId,
                       scope: nat, interrupted: bool, after: Account)
    requires call.newId !in a.ops && Choose(a, rows, call) == (chosen, Completed(id)) && id in chosen.ops
    requires Recorded(chosen, cfg, call, id, scope, interrupted, after)
    ensures Recorded(a, cfg, call, id, scope, interrupted, after)
  {
    ChoiceRecords(a, rows, call);
    if Named(a, call) {
    } else if TakesUp(a, rows, call) {
      TakenUpRecorded(a, chosen, cfg, call, id, scope, interrupted, after);
    } else {
      RequestRecords(a, RequestedBy(a, call), call.target, call.newId);
      if !Joins(a, RequestedBy(a, call)) {
        RequestedRecorded(a, chosen, cfg, call, scope, interrupted, after);
      }
    }
  }

  lemma RunRecorded(a: Account, cfg: Config, call: SyncCall, rows: map<Target, Row>, id: OpId)
    requires id in a.ops && MayResume(a.ops[id])
    ensures Recorded(a, cfg, call, id, |InRun(a, cfg, call, rows)|, Breaking(rows, Context(a, call), cfg, call) != {},
                     RunSpec(a, cfg, call, rows, id))
  {
    RunRecords(a, cfg, call, rows, id);
    GivenRecorded(a, cfg, call, id, |InRun(a, cfg, call, rows)|, Breaking(rows, Context(a, call), cfg, call) != {},
                  RunSpec(a, cfg, call, rows, id));
  }

  /** A run in full, on the tables: what it records of its operation, of the others and of the
      user. */
  lemma RunRecordsAll(a: Account, cfg: Config, call: SyncCall)
    requires call.newId !in a.ops && SyncSpec(a, cfg, call).1.Began()
    ensures
      var (after, result) := SyncSpec(a, cfg, call);
      Recorded(a, cfg, call, result.id, |InRun(a, cfg, call, WithLegacyRows(a.rows, cfg))|, result.Interrupted?, after)
  {
    var rows := WithLegacyRows(a.rows, cfg);
    var chosen, choice := Choose(a, rows, call).0, Choose(a, rows, call).1;
    RunWorksOn(a, cfg, call);
    RunRecorded(chosen, cfg, call, rows, choice.id);
    SameScope(a, chosen, cfg, call, rows);
    ChosenRecorded(a, chosen, cfg, call, rows, choice.id, |InRun(a, cfg, call, rows)|,
                   SyncSpec(a, cfg, call).1.Interrupted?, SyncSpec(a, cfg, call).0);
  }

  lemma SameScope(a: Account, chosen: Account, cfg: Config, call: SyncCall, rows: map<Target, Row>)
    requires chosen == a.(ops := chosen.ops, active := chosen.active)
    ensures InRun(chosen, cfg, call, rows) == InRun(a, cfg, call, rows)
  {
    forall t
      ensures t in InRun(chosen, cfg, call, rows) <==> t in InRun(a, cfg, call, rows)
    {
    }
  }
}
