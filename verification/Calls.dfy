/** What a sync run asks of each target and what it stores, stated on the account, the row,
    the configuration and the answer alone (na_sso/sync.py, na_sso/connectors/base.py). */
module Calls {
  import opened Prelude
  import opened Lifecycle
  import opened Model
  import opened Sync
  import opened Backoff
  import opened Protocol

  // ---- the conditions, on the data before the run ----

  predicate RunDeletes(a: Account, call: SyncCall) {
    call.action == Some(WantDelete) || (call.action == None && a.desired == WantDelete)
  }

  /** The user is to be removed: by this run, by wish, or already has been. */
  predicate UserGone(a: Account, call: SyncCall) {
    RunDeletes(a, call) || a.desired == WantDelete || a.deletedAt != None
  }

  /** The rows whose target a run turns to. */
  predicate Taken(a: Account, cfg: Config, call: SyncCall, row: Row, t: Target) {
    && (call.target == None || call.target == Some(t)) && !row.isRetired && t in cfg.connectors
    && (RunDeletes(a, call)
        || (row.state != Chpw && (row.isAssigned || row.state == PendingDisable || row.state == SyncStateValue.Failed)))
  }

  predicate WantsDisable(a: Account, row: Row) {
    !row.isAssigned || row.state == PendingChpwDisable || a.isDisabled || a.decision == Expired
  }

  /** The operation a run turns to a taken row with. */
  predicate Intends(a: Account, call: SyncCall, row: Row, operation: RemoteOperation) {
    match operation
    case DeleteUser => UserGone(a, call)
    case DisableUser => !UserGone(a, call) && WantsDisable(a, row)
    case EnsureUser => !UserGone(a, call) && !WantsDisable(a, row)
  }

  predicate Offers(connector: Connector, operation: RemoteOperation) {
    match operation
    case EnsureUser => connector.ensureSupported
    case DisableUser => connector.disableSupported
    case DeleteUser => connector.deleteSupported
  }

  /** The row waits for a credential that is not there. */
  predicate LacksCredential(a: Account, call: SyncCall, row: Row) {
    !RunDeletes(a, call) && row.state == AwaitingCredentials && a.pendingSecret == None
  }

  predicate Asks(a: Account, cfg: Config, call: SyncCall, row: Row, t: Target, operation: RemoteOperation) {
    && Taken(a, cfg, call, row, t) && Intends(a, call, row, operation)
    && Offers(cfg.connectors[t], operation) && !LacksCredential(a, call, row)
  }

  predicate Declares(a: Account, cfg: Config, call: SyncCall, row: Row, t: Target, operation: RemoteOperation) {
    Taken(a, cfg, call, row, t) && Intends(a, call, row, operation) && !Offers(cfg.connectors[t], operation)
  }

  /** The answer is lost: the target fails once more after 1024 counted failures. */
  predicate Loses(a: Account, cfg: Config, call: SyncCall, row: Row, t: Target) {
    && (exists operation :: Asks(a, cfg, call, row, t, operation))
    && call.answer(t) == Errored && row.attemptCount >= 1024
  }

  /** No row listed before this one ends the run. */
  predicate ComesToIt(a: Account, cfg: Config, call: SyncCall, rows: map<Target, Row>, t: Target) {
    forall u | u in rows && Loses(a, cfg, call, rows[u], u) :: call.rank(t) <= call.rank(u)
  }

  // ---- what is asked ----

  /** What the run adds to the row's history. */
  function Added(a: Account, cfg: Config, call: SyncCall, row: Row, t: Target, operation: RemoteOperation): seq<Event>
  {
    if Declares(a, cfg, call, row, t, operation) then [DeclaredUnsupported(operation)]
    else if !Asks(a, cfg, call, row, t, operation) then []
    else if call.answer(t) == Errored && row.attemptCount >= 1024 then [Called(operation, Errored), OutcomeLost]
    else [Called(operation, call.answer(t))]
  }

  lemma BreaksIffLoses(a: Account, cfg: Config, call: SyncCall, rows: map<Target, Row>, t: Target)
    requires t in rows
    ensures t in Breaking(rows, Context(a, call), cfg, call) <==> Loses(a, cfg, call, rows[t], t)
  {
    var operation := LifecycleOperationFor(Context(a, call), rows[t]);
    assert Intends(a, call, rows[t], operation);
    assert t in ToVisit(rows, RunDeletes(a, call), cfg, call.target) <==> Taken(a, cfg, call, rows[t], t);
    if t in Breaking(rows, Context(a, call), cfg, call) {
      assert Asks(a, cfg, call, rows[t], t, operation);
    }
  }

  lemma ReachedIff(a: Account, cfg: Config, call: SyncCall, rows: map<Target, Row>, t: Target)
    requires t in rows
    ensures Reached(rows, t, Context(a, call), cfg, call)
       <==> Taken(a, cfg, call, rows[t], t) && ComesToIt(a, cfg, call, rows, t)
  {
    forall u | u in rows
      ensures u in Breaking(rows, Context(a, call), cfg, call) <==> Loses(a, cfg, call, rows[u], u)
    {
      BreaksIffLoses(a, cfg, call, rows, u);
    }
    assert t in ToVisit(rows, RunDeletes(a, call), cfg, call.target) <==> Taken(a, cfg, call, rows[t], t);
  }

  lemma VisitAdds(a: Account, cfg: Config, call: SyncCall, row: Row, t: Target, operation: RemoteOperation)
    requires Taken(a, cfg, call, row, t) && Intends(a, call, row, operation)
    ensures Visited(Context(a, call), cfg, cfg.connectors[t], row, call.answer(t)).trace
         == row.trace + Added(a, cfg, call, row, t, operation)
  {
  }

  lemma RowAdds(a: Account, cfg: Config, call: SyncCall, rows: map<Target, Row>, id: OpId, t: Target,
                operation: RemoteOperation)
    requires t in rows && Intends(a, call, rows[t], operation)
    ensures RowsAfter(rows, Context(a, call), cfg, call, id)[t].trace == rows[t].trace +
      if ComesToIt(a, cfg, call, rows, t) then Added(a, cfg, call, rows[t], t, operation) else []
  {
    ReachedIff(a, cfg, call, rows, t);
    var stamped := rows[t].(operationId := Some(id));
    assert Added(a, cfg, call, stamped, t, operation) == Added(a, cfg, call, rows[t], t, operation);
    if Reached(rows, t, Context(a, call), cfg, call) {
      VisitAdds(a, cfg, call, stamped, t, operation);
    }
  }

  /** The rows of a run that began. */
  lemma SyncRows(a: Account, cfg: Config, call: SyncCall)
    requires call.newId !in a.ops && SyncSpec(a, cfg, call).1.Began()
    ensures SyncSpec(a, cfg, call).0.rows
         == RowsAfter(WithLegacyRows(a.rows, cfg), Context(a, call), cfg, call, SyncSpec(a, cfg, call).1.id)
  {
    var rows := WithLegacyRows(a.rows, cfg);
    var (chosen, result) := Choose(a, rows, call);
    ChooseFrame(a, rows, call);
    RunFrame(chosen, cfg, call, rows, result.id);
  }

  /** Exactly what a run asks of a row's target: the operation it intends for the row, if the
      target offers it, the row is taken and comes to its turn, and no credential lacks. */
  lemma RunAdds(a: Account, cfg: Config, call: SyncCall, t: Target, operation: RemoteOperation)
    requires call.newId !in a.ops && SyncSpec(a, cfg, call).1.Began()
    requires t in WithLegacyRows(a.rows, cfg) && Intends(a, call, WithLegacyRows(a.rows, cfg)[t], operation)
    ensures t in SyncSpec(a, cfg, call).0.rows
    ensures
      var rows := WithLegacyRows(a.rows, cfg);
      SyncSpec(a, cfg, call).0.rows[t].trace == rows[t].trace +
        if ComesToIt(a, cfg, call, rows, t) then Added(a, cfg, call, rows[t], t, operation) else []
  {
    var rows := WithLegacyRows(a.rows, cfg);
    SyncRows(a, cfg, call);
    RowAdds(a, cfg, call, rows, SyncSpec(a, cfg, call).1.id, t, operation);
  }

  /** The row's target was asked for this operation. */
  ghost predicate WasAsked(before: Row, after: Row, operation: RemoteOperation) {
    before.trace <= after.trace && exists r :: Called(operation, r) in after.trace[|before.trace|..]
  }

  lemma AddedContains(a: Account, cfg: Config, call: SyncCall, row: Row, t: Target, intended: RemoteOperation,
                      operation: RemoteOperation)
    requires Intends(a, call, row, intended)
    ensures (exists r :: Called(operation, r) in Added(a, cfg, call, row, t, intended))
       <==> Asks(a, cfg, call, row, t, operation)
  {
    if Asks(a, cfg, call, row, t, operation) {
      assert Added(a, cfg, call, row, t, intended)[0] == Called(operation, call.answer(t));
    }
  }

  /** Each row has one intended operation. */
  function Intended(a: Account, call: SyncCall, row: Row): (operation: RemoteOperation)
    ensures Intends(a, call, row, operation)
  {
    if UserGone(a, call) then DeleteUser else if WantsDisable(a, row) then DisableUser else EnsureUser
  }

  lemma AskedByAddition(before: Row, after: Row, added: seq<Event>, operation: RemoteOperation)
    requires after.trace == before.trace + added
    ensures WasAsked(before, after, operation) <==> exists r :: Called(operation, r) in added
  {
    assert after.trace[|before.trace|..] == added;
  }

  /** A run asks a target to create or update, to disable or to delete the account if and
      only if these conditions on the data before it hold. */
  lemma RunAsksIff(a: Account, cfg: Config, call: SyncCall, t: Target, operation: RemoteOperation)
    requires call.newId !in a.ops && SyncSpec(a, cfg, call).1.Began() && t in WithLegacyRows(a.rows, cfg)
    ensures t in SyncSpec(a, cfg, call).0.rows
    ensures
      var rows := WithLegacyRows(a.rows, cfg);
      WasAsked(rows[t], SyncSpec(a, cfg, call).0.rows[t], operation)
      <==> Asks(a, cfg, call, rows[t], t, operation) && ComesToIt(a, cfg, call, rows, t)
  {
    var rows := WithLegacyRows(a.rows, cfg);
    var intended := Intended(a, call, rows[t]);
    RunAdds(a, cfg, call, t, intended);
    var added := if ComesToIt(a, cfg, call, rows, t) then Added(a, cfg, call, rows[t], t, intended) else [];
    AskedByAddition(rows[t], SyncSpec(a, cfg, call).0.rows[t], added, operation);
    AddedContains(a, cfg, call, rows[t], t, intended, operation);
  }

  /** A run that is skipped or refused asks nothing of any target. */
  lemma IdleRunAsksNothing(a: Account, cfg: Config, call: SyncCall)
    requires call.newId !in a.ops && !SyncSpec(a, cfg, call).1.Began()
    ensures SyncSpec(a, cfg, call).0 == a
  {
  }

  // ---- what is stored ----

  /** The state after an accepted call, by what the row and the user then are. */
  predicate SettlesAs(a: Account, call: SyncCall, row: Row, state: SyncStateValue) {
    && (state == Ok <==> RunDeletes(a, call) || (row.isAssigned && a.decision == NoDecision))
    && (state == Unassigned <==> !RunDeletes(a, call) && !row.isAssigned)
    && (state == Chpw <==> !RunDeletes(a, call) && row.isAssigned && (a.decision == Initial || a.decision == Reset))
    && (state == ExpiredDisabled <==> !RunDeletes(a, call) && row.isAssigned && a.decision == Expired)
  }

  /** What is stored of the answer to a call. */
  predicate Stores(a: Account, cfg: Config, call: SyncCall, t: Target, before: Row, after: Row) {
    match call.answer(t)
    case Accepted => SettlesAs(a, call, before, after.state) && after.attemptCount == 0 && after.nextRetryAt == None
    case Rejected =>
      && after.state == SyncStateValue.Unsupported && after.attemptCount == before.attemptCount + 1
      && after.nextRetryAt == None
    case Errored =>
      if before.attemptCount < 1024 then
        && after.state == SyncStateValue.Failed && after.attemptCount == before.attemptCount + 1
        && after.nextRetryAt == Some(call.now + Delay(cfg.retryBase, cfg.retryMax, before.attemptCount + 1))
      else
        && after.state == SyncStateValue.Pending && after.attemptCount == before.attemptCount
        && after.nextRetryAt == None
  }

  /** What a run leaves in a row: the stored answer where the target was asked, `unsupported`
      where it does not offer the operation, and everything as it was otherwise. */
  predicate Leaves(a: Account, cfg: Config, call: SyncCall, t: Target, before: Row, after: Row, comes: bool,
                   operation: RemoteOperation)
  {
    if comes && Declares(a, cfg, call, before, t, operation) then
      after == before.(state := SyncStateValue.Unsupported, nextRetryAt := None, operationId := after.operationId,
                       trace := after.trace)
    else if comes && Asks(a, cfg, call, before, t, operation) then
      && Stores(a, cfg, call, t, before, after)
      && after.isAssigned == before.isAssigned && after.isRetired == before.isRetired
    else
      after == before.(operationId := after.operationId)
  }

  lemma VisitLeaves(a: Account, cfg: Config, call: SyncCall, row: Row, t: Target, operation: RemoteOperation)
    requires Taken(a, cfg, call, row, t) && Intends(a, call, row, operation)
    ensures Leaves(a, cfg, call, t, row, Visited(Context(a, call), cfg, cfg.connectors[t], row, call.answer(t)), true,
                   operation)
  {
  }

  lemma RowLeaves(a: Account, cfg: Config, call: SyncCall, rows: map<Target, Row>, id: OpId, t: Target,
                  operation: RemoteOperation)
    requires t in rows && Intends(a, call, rows[t], operation)
    ensures Leaves(a, cfg, call, t, rows[t], RowsAfter(rows, Context(a, call), cfg, call, id)[t],
                   ComesToIt(a, cfg, call, rows, t), operation)
  {
    ReachedIff(a, cfg, call, rows, t);
    if Reached(rows, t, Context(a, call), cfg, call) {
      VisitLeaves(a, cfg, call, rows[t].(operationId := Some(id)), t, operation);
    }
  }

  lemma RunStores(a: Account, cfg: Config, call: SyncCall, t: Target, operation: RemoteOperation)
    requires call.newId !in a.ops && SyncSpec(a, cfg, call).1.Began()
    requires t in WithLegacyRows(a.rows, cfg) && Intends(a, call, WithLegacyRows(a.rows, cfg)[t], operation)
    ensures t in SyncSpec(a, cfg, call).0.rows
    ensures
      var rows := WithLegacyRows(a.rows, cfg);
      Leaves(a, cfg, call, t, rows[t], SyncSpec(a, cfg, call).0.rows[t], ComesToIt(a, cfg, call, rows, t), operation)
  {
    var rows := WithLegacyRows(a.rows, cfg);
    SyncRows(a, cfg, call);
    RowLeaves(a, cfg, call, rows, SyncSpec(a, cfg, call).1.id, t, operation);
  }

  /** A row carries the run's operation afterwards if and only if it was in scope or carried
      it before; under a deletion every row of the requested targets is in scope. */
  lemma RunStampsIff(a: Account, cfg: Config, call: SyncCall, t: Target)
    requires call.newId !in a.ops && SyncSpec(a, cfg, call).1.Began() && t in WithLegacyRows(a.rows, cfg)
    ensures t in SyncSpec(a, cfg, call).0.rows
    ensures
      var row := WithLegacyRows(a.rows, cfg)[t];
      var stamped := (call.target == None || call.target == Some(t))
                     && (RunDeletes(a, call) || Taken(a, cfg, call, row, t));
      SyncSpec(a, cfg, call).0.rows[t].operationId
      == if stamped then Some(SyncSpec(a, cfg, call).1.id) else row.operationId
  {
    var rows := WithLegacyRows(a.rows, cfg);
    SyncRows(a, cfg, call);
    RowStampedIff(a, cfg, call, rows, SyncSpec(a, cfg, call).1.id, t);
  }

  lemma RowStampedIff(a: Account, cfg: Config, call: SyncCall, rows: map<Target, Row>, id: OpId, t: Target)
    requires t in rows
    ensures
      var stamped := (call.target == None || call.target == Some(t))
                     && (RunDeletes(a, call) || Taken(a, cfg, call, rows[t], t));
      RowsAfter(rows, Context(a, call), cfg, call, id)[t].operationId
      == if stamped then Some(id) else rows[t].operationId
  {
    assert t in Scope(rows, RunDeletes(a, call), cfg, call.target)
      <==> InScope(rows[t], t, RunDeletes(a, call), cfg, call.target);
  }

  // ---- expired and disabled users ----

  /** The ensure calls in a row's history. */
  function EnsureCalls(trace: seq<Event>): nat {
    if trace == [] then 0
    else EnsureCalls(Front(trace)) + match Last(trace) case Called(EnsureUser, _) => 1 case _ => 0
  }

  predicate Barred(a: Account) {
    a.isDisabled || a.decision == Expired
  }

  lemma {:induction false} EnsureCallsAppend(trace: seq<Event>, more: seq<Event>)
    requires |more| <= 2 && forall e | e in more :: !(e.Called? && e.operation.EnsureUser?)
    ensures EnsureCalls(trace + more) == EnsureCalls(trace)
  {
    if |more| == 1 {
      assert Front(trace + more) == trace && Last(trace + more) == more[0];
    } else if |more| == 2 {
      assert Front(trace + more) == trace + [more[0]] && Last(trace + more) == more[1];
      assert Front(trace + [more[0]]) == trace;
    } else {
      assert trace + more == trace;
    }
  }

  lemma BarredRunAsksNoEnsure(a: Account, cfg: Config, call: SyncCall, t: Target)
    requires call.newId !in a.ops && Barred(a) && t in SyncSpec(a, cfg, call).0.rows
    ensures EnsureCalls(SyncSpec(a, cfg, call).0.rows[t].trace)
         == if t in a.rows then EnsureCalls(a.rows[t].trace) else 0
  {
    if SyncSpec(a, cfg, call).1.Began() {
      var rows := WithLegacyRows(a.rows, cfg);
      RunKeepsTargets(a, cfg, call);
      var operation := Intended(a, call, rows[t]);
      RunAdds(a, cfg, call, t, operation);
      BarredAdds(a, cfg, call, rows, t, operation);
    } else {
      IdleRunAsksNothing(a, cfg, call);
    }
  }

  lemma BarredAdds(a: Account, cfg: Config, call: SyncCall, rows: map<Target, Row>, t: Target,
                   operation: RemoteOperation)
    requires Barred(a) && t in rows && Intends(a, call, rows[t], operation)
    ensures
      var added := if ComesToIt(a, cfg, call, rows, t) then Added(a, cfg, call, rows[t], t, operation) else [];
      EnsureCalls(rows[t].trace + added) == EnsureCalls(rows[t].trace)
  {
    EnsureCallsAppend(rows[t].trace, Added(a, cfg, call, rows[t], t, operation));
    assert rows[t].trace + [] == rows[t].trace;
  }

  lemma RunKeepsTargets(a: Account, cfg: Config, call: SyncCall)
    requires call.newId !in a.ops && SyncSpec(a, cfg, call).1.Began()
    ensures SyncSpec(a, cfg, call).0.rows.Keys == WithLegacyRows(a.rows, cfg).Keys
  {
    SyncRows(a, cfg, call);
  }

  lemma BarredStepAsksNoEnsure(a: Account, cfg: Config, step: Step, t: Target)
    requires Legal(a, cfg, step) && Barred(a) && t in Apply(a, cfg, step).rows
    ensures EnsureCalls(Apply(a, cfg, step).rows[t].trace) == if t in a.rows then EnsureCalls(a.rows[t].trace) else 0
  {
    match step
    case Synchronise(call) => BarredRunAsksNoEnsure(a, cfg, call, t);
    case Select(req) => if t in a.rows { EnsureCallsAppend(a.rows[t].trace, [LostAssignment]); }
    case _ =>
  }

  /** At every step of the run the user is disabled or the password expired. */
  predicate AlwaysBarred(a: Account, run: seq<Moment>)
    decreases |run|
  {
    run == [] || (Legal(a, run[0].cfg, run[0].step) && Barred(a)
                  && AlwaysBarred(Apply(a, run[0].cfg, run[0].step), run[1..]))
  }

  lemma StepKeepsTargets(a: Account, cfg: Config, step: Step)
    requires Legal(a, cfg, step)
    ensures a.rows.Keys <= Apply(a, cfg, step).rows.Keys
  {
    match step
    case Synchronise(call) => if SyncSpec(a, cfg, call).1.Began() { RunKeepsTargets(a, cfg, call); }
    case _ =>
  }

  /** Over every run, as long as the user is disabled or the password expired, no target is
      asked to create or update the account. */
  lemma {:induction false} BarredRunsAskNoEnsure(a: Account, run: seq<Moment>, t: Target)
    requires AlwaysBarred(a, run) && Execute(a, run).Some? && t in Execute(a, run).value.rows
    ensures EnsureCalls(Execute(a, run).value.rows[t].trace)
         == if t in a.rows then EnsureCalls(a.rows[t].trace) else 0
    decreases |run|
  {
    if run != [] {
      var next := Apply(a, run[0].cfg, run[0].step);
      StepKeepsTargets(a, run[0].cfg, run[0].step);
      BarredRunsAskNoEnsure(next, run[1..], t);
      if t in next.rows {
        BarredStepAsksNoEnsure(a, run[0].cfg, run[0].step, t);
      }
    }
  }
}
