/** How an account gets stuck behind a running operation that none of its rows carries
    (na_sso/sync.py, na_sso/operations.py). */
module Stranded {
  import opened Prelude
  import opened Lifecycle
  import opened Model
  import opened Operations
  import opened Pending
  import opened Sync
  import opened Protocol
  import opened Runs
  import opened OpenOperations

  /** The user points at a running operation and no row carries it. A retry names the
      operation of its row, so none can take this one up. */
  ghost predicate IsStranded(a: Account) {
    && a.active.Some? && a.active.value in a.ops && a.ops[a.active.value].status.Running?
    && Stamped(a.rows, a.active.value) == {}
  }

  /** A run for a given, still queued operation leaves another, running one active: starting
      an operation does not make it the active one, only resuming does. */
  predicate Overtakes(a: Account, call: SyncCall) {
    && !a.isRoot && call.operationId.Some? && call.operationId.value in a.ops
    && a.ops[call.operationId.value].userId == Some(a.userId)
    && a.ops[call.operationId.value].status.Queued?
    && a.active.Some? && a.active != call.operationId
    && a.active.value in a.ops && a.ops[a.active.value].status.Running?
  }

  /** The run takes every row the overtaken operation had. */
  predicate TakesAllRows(a: Account, cfg: Config, call: SyncCall)
    requires a.active.Some?
  {
    var rows := WithLegacyRows(a.rows, cfg);
    Stamped(rows, a.active.value) <= Scope(rows, Deleting(a, call), cfg, call.target)
  }

  /** The run is skipped or raises: an operation that is foreign or settled, or a request
      that is refused. */
  predicate TurnedAway(a: Account, cfg: Config, call: SyncCall) {
    var rows := WithLegacyRows(a.rows, cfg);
    || a.isRoot
    || (call.operationId.Some? && call.operationId.value in a.ops
        && (a.ops[call.operationId.value].userId != Some(a.userId)
            || !a.ops[call.operationId.value].status.Resumable()))
    || (Requests(a, rows, call) && !Creates(a, RunCommand(a, call))
        && !(Decision(a, RunCommand(a, call)) == Reuse && ActiveId(a).Some?))
  }

  predicate StrandingRun(a: Account, cfg: Config, call: SyncCall) {
    Overtakes(a, call) && TakesAllRows(a, cfg, call)
  }

  lemma StampsAfterRun(rows: map<Target, Row>, ctx: RunContext, cfg: Config, call: SyncCall, id: OpId, other: OpId)
    requires other != id
    ensures Stamped(RowsAfter(rows, ctx, cfg, call, id), other)
         == Stamped(rows, other) - Scope(rows, ctx.deleting, cfg, call.target)
  {
  }

  /** A row that carries the operation and has not reached a final state. */
  ghost predicate HasOpenRow(rows: map<Target, Row>, id: OpId, deleting: bool) {
    exists t :: t in Stamped(rows, id) && !TerminalRow(rows[t], deleting)
  }

  lemma CarriesIff(rows: map<Target, Row>, t: Target, ctx: RunContext, cfg: Config, call: SyncCall, id: OpId)
    requires t in rows
    ensures t in Stamped(RowsAfter(rows, ctx, cfg, call, id), id) <==> Counted(rows, t, ctx, cfg, call, id)
  {
    assert t in Scope(rows, ctx.deleting, cfg, call.target) <==> InScope(rows[t], t, ctx.deleting, cfg, call.target);
  }

  /** An operation that its own run leaves running is carried by the row left open, or by the
      one that broke the run. */
  lemma OpenRunIsCarried(rows: map<Target, Row>, ctx: RunContext, cfg: Config, call: SyncCall, id: OpId)
    requires WillStayRunning(rows, ctx, cfg, call, id)
    ensures Stamped(RowsAfter(rows, ctx, cfg, call, id), id) != {}
  {
    var t :| t in rows && Counted(rows, t, ctx, cfg, call, id);
    CarriesIff(rows, t, ctx, cfg, call, id);
  }

  /** Only the operation that stays active matters. */
  lemma PointerDecides(a: Account, after: Account, rows: map<Target, Row>, scope: set<Target>, id: OpId)
    requires id in a.ops && id in after.ops && after.ops == a.ops[id := after.ops[id]]
    requires
      var pointer := if a.ops[id].status.Queued? then a.active else Some(id);
      after.active == if pointer == Some(id) && id !in Unfinished(after.ops) then None else pointer
    requires after.ops[id].status.Running? ==> Stamped(after.rows, id) != {}
    requires a.active.Some? && a.active.value != id ==>
      Stamped(after.rows, a.active.value) == Stamped(rows, a.active.value) - scope
    ensures IsStranded(after) <==>
      && a.ops[id].status.Queued? && a.active.Some? && a.active.value != id
      && a.active.value in a.ops && a.ops[a.active.value].status.Running?
      && Stamped(rows, a.active.value) <= scope
  {
    if a.active.Some? && a.active.value != id && Stamped(after.rows, a.active.value) == {} {
      forall t | t in Stamped(rows, a.active.value)
        ensures t in scope
      {
        assert t !in Stamped(rows, a.active.value) - scope;
      }
    }
  }

  /** After a run the account is stranded exactly by an operation the run overtook. */
  lemma RunStrandsIff(a: Account, cfg: Config, call: SyncCall, rows: map<Target, Row>, id: OpId)
    requires id in a.ops && a.ops[id].status.Resumable()
    ensures IsStranded(RunSpec(a, cfg, call, rows, id)) <==>
      && a.ops[id].status.Queued? && a.active.Some? && a.active.value != id
      && a.active.value in a.ops && a.ops[a.active.value].status.Running?
      && Stamped(rows, a.active.value) <= Scope(rows, Deleting(a, call), cfg, call.target)
  {
    var ctx := Context(a, call);
    var after := RunSpec(a, cfg, call, rows, id);
    RunFrame(a, cfg, call, rows, id);
    RunMovesPointer(a, cfg, call, rows, id);
    RunEndsAsForecast(a, cfg, call, rows, id);
    if after.ops[id].status.Running? {
      OpenRunIsCarried(rows, ctx, cfg, call, id);
    }
    if a.active.Some? && a.active.value != id {
      StampsAfterRun(rows, ctx, cfg, call, id, a.active.value);
    }
    PointerDecides(a, after, rows, Scope(rows, ctx.deleting, cfg, call.target), id);
  }

  /** Exactly when an account is stranded after a run: a run that is turned away leaves it as
      it was, and one that completes strands it if and only if it overtakes the running
      operation and takes all its rows. */
  lemma SyncStrandsIff(a: Account, cfg: Config, call: SyncCall)
    requires ActiveOk(a) && call.newId !in a.ops
    ensures IsStranded(SyncSpec(a, cfg, call).0)
       <==> if TurnedAway(a, cfg, call) then IsStranded(a) else StrandingRun(a, cfg, call)
  {
    if !a.isRoot {
      var rows := WithLegacyRows(a.rows, cfg);
      var (chosen, result) := Choose(a, rows, call);
      if Revived(a, rows, call).Some? {
        RevivalForecast(a, rows, call);
      } else if Requests(a, rows, call) {
        RequestForecast(a, rows, call);
      } else {
        ContinuationForecast(a, rows, call);
      }
      if result.Completed? {
        RunStrandsIff(chosen, cfg, call, rows, result.id);
      }
    }
  }

  /** The open rows that a run leaves to another operation. */
  ghost predicate LeavesOpenRow(rows: map<Target, Row>, id: OpId, deleting: bool, scope: set<Target>) {
    exists t :: t in Stamped(rows, id) && t !in scope && !TerminalRow(rows[t], deleting)
  }

  lemma OtherOpenRows(rows: map<Target, Row>, ctx: RunContext, cfg: Config, call: SyncCall, id: OpId, other: OpId)
    requires other != id
    ensures HasOpenRow(RowsAfter(rows, ctx, cfg, call, id), other, ctx.deleting)
       <==> LeavesOpenRow(rows, other, ctx.deleting, Scope(rows, ctx.deleting, cfg, call.target))
  {
    var after := RowsAfter(rows, ctx, cfg, call, id);
    StampsAfterRun(rows, ctx, cfg, call, id, other);
    assert forall t | t in Stamped(after, other) :: after[t] == rows[t];
    if LeavesOpenRow(rows, other, ctx.deleting, Scope(rows, ctx.deleting, cfg, call.target)) {
      var t :| t in Stamped(rows, other) && t !in Scope(rows, ctx.deleting, cfg, call.target)
               && !TerminalRow(rows[t], ctx.deleting);
      assert t in Stamped(after, other);
    }
  }

  /** The open rows a broken run leaves to its own operation: under a deletion the breaking
      one at least; otherwise the breaking one if it is assigned, and every row that was open
      and not reached. */
  predicate BreakLeavesOpenRow(rows: map<Target, Row>, ctx: RunContext, cfg: Config, call: SyncCall, id: OpId) {
    ctx.deleting || exists t | t in rows :: RowOpenAfterBreak(rows, t, ctx, cfg, call, id)
  }

  predicate RowOpenAfterBreak(rows: map<Target, Row>, t: Target, ctx: RunContext, cfg: Config, call: SyncCall, id: OpId)
    requires t in rows
  {
    && Counted(rows, t, ctx, cfg, call, id)
    && (if Reached(rows, t, ctx, cfg, call)
        then rows[t].isAssigned && Breaks(ctx, cfg.connectors[t], rows[t], call.answer(t))
        else !TerminalRow(rows[t], ctx.deleting))
  }

  lemma OpenAfterBreak(rows: map<Target, Row>, t: Target, ctx: RunContext, cfg: Config, call: SyncCall, id: OpId)
    requires t in rows && (ctx.deleting ==> t in Breaking(rows, ctx, cfg, call) && Reached(rows, t, ctx, cfg, call))
    ensures
      var after := RowsAfter(rows, ctx, cfg, call, id);
      && (t in Stamped(after, id) <==> Counted(rows, t, ctx, cfg, call, id))
      && (t in Stamped(after, id) && !TerminalRow(after[t], ctx.deleting)
          <==> ctx.deleting || RowOpenAfterBreak(rows, t, ctx, cfg, call, id))
  {
    assert t in Scope(rows, ctx.deleting, cfg, call.target) <==> InScope(rows[t], t, ctx.deleting, cfg, call.target);
  }

  lemma BrokenRunOpenRows(rows: map<Target, Row>, ctx: RunContext, cfg: Config, call: SyncCall, id: OpId)
    requires WillBreak(rows, ctx, cfg, call)
    ensures HasOpenRow(RowsAfter(rows, ctx, cfg, call, id), id, ctx.deleting)
       <==> BreakLeavesOpenRow(rows, ctx, cfg, call, id)
  {
    var after := RowsAfter(rows, ctx, cfg, call, id);
    if ctx.deleting {
      BreakForecast(rows, ctx, cfg, call);
      var first := FirstOf(Breaking(rows, ctx, cfg, call), call.rank);
      OpenAfterBreak(rows, first, ctx, cfg, call, id);
      assert first in Stamped(after, id) && !TerminalRow(after[first], ctx.deleting);
    } else {
      forall t | t in rows
        ensures t in Stamped(after, id) && !TerminalRow(after[t], false)
           <==> RowOpenAfterBreak(rows, t, ctx, cfg, call, id)
      {
        OpenAfterBreak(rows, t, ctx, cfg, call, id);
      }
    }
  }

  lemma LeftOpenRunOpenRows(rows: map<Target, Row>, ctx: RunContext, cfg: Config, call: SyncCall, id: OpId)
    requires WillLeaveOpen(rows, ctx, cfg, call, id) && !WillBreak(rows, ctx, cfg, call)
    ensures HasOpenRow(RowsAfter(rows, ctx, cfg, call, id), id, ctx.deleting)
  {
    BreakForecast(rows, ctx, cfg, call);
    var t :| t in rows && WillStayOpen(rows, t, ctx, cfg, call, id);
    RowForecast(rows, t, ctx, cfg, call, id);
    assert t in Stamped(RowsAfter(rows, ctx, cfg, call, id), id);
  }

  lemma RunKeepsOpenRowIff(a: Account, cfg: Config, call: SyncCall, rows: map<Target, Row>, id: OpId)
    requires id in a.ops && a.ops[id].status.Resumable()
    requires
      var after := RunSpec(a, cfg, call, rows, id);
      after.active.Some? && after.active.value in after.ops && after.ops[after.active.value].status.Running?
    ensures
      var after := RunSpec(a, cfg, call, rows, id);
      var ctx := Context(a, call);
      HasOpenRow(after.rows, after.active.value, ctx.deleting) <==>
        if after.active.value == id
        then (WillBreak(rows, ctx, cfg, call) ==> BreakLeavesOpenRow(rows, ctx, cfg, call, id))
        else LeavesOpenRow(rows, after.active.value, ctx.deleting, Scope(rows, ctx.deleting, cfg, call.target))
    ensures RunSpec(a, cfg, call, rows, id).active.value != id ==>
      a.ops[id].status.Queued? && RunSpec(a, cfg, call, rows, id).active == a.active
      && a.active.value in a.ops && a.ops[a.active.value].status.Running?
  {
    var ctx := Context(a, call);
    var after := RunSpec(a, cfg, call, rows, id);
    RunFrame(a, cfg, call, rows, id);
    RunMovesPointer(a, cfg, call, rows, id);
    RunEndsAsForecast(a, cfg, call, rows, id);
    if after.active.value != id {
      OtherOpenRows(rows, ctx, cfg, call, id, after.active.value);
    } else if WillBreak(rows, ctx, cfg, call) {
      BrokenRunOpenRows(rows, ctx, cfg, call, id);
    } else {
      LeftOpenRunOpenRows(rows, ctx, cfg, call, id);
    }
  }

  /** Exactly when a running operation that the user points at after a run still has an open
      row. If the run overtook it: if and only if one of its open rows was outside the run's
      scope. If it is the run's own: always, unless the run broke and left none, which takes
      an unassigned row whose offboarding is masked. */
  lemma OpenRowSurvivesIff(a: Account, cfg: Config, call: SyncCall)
    requires ActiveOk(a) && call.newId !in a.ops && !TurnedAway(a, cfg, call)
    requires
      var after := SyncSpec(a, cfg, call).0;
      after.active.Some? && after.active.value in after.ops && after.ops[after.active.value].status.Running?
    ensures SyncSpec(a, cfg, call).1.Began()
    ensures
      var rows := WithLegacyRows(a.rows, cfg);
      var (after, result) := SyncSpec(a, cfg, call);
      var ctx := Context(a, call);
      HasOpenRow(after.rows, after.active.value, ctx.deleting) <==>
        if Overtakes(a, call)
        then LeavesOpenRow(rows, a.active.value, ctx.deleting, Scope(rows, ctx.deleting, cfg, call.target))
        else WillBreak(rows, ctx, cfg, call) ==> BreakLeavesOpenRow(rows, ctx, cfg, call, result.id)
  {
    var rows := WithLegacyRows(a.rows, cfg);
    var (chosen, result) := Choose(a, rows, call);
    if Revived(a, rows, call).Some? {
      RevivalForecast(a, rows, call);
    } else if Requests(a, rows, call) {
      RequestForecast(a, rows, call);
    } else {
      ContinuationForecast(a, rows, call);
    }
    RunKeepsOpenRowIff(chosen, cfg, call, rows, result.id);
    if Overtakes(a, call) {
      RunMovesPointer(chosen, cfg, call, rows, result.id);
    }
  }

  /** A request frees a stranded account if and only if it creates an operation. */
  lemma RequestStrandsIff(a: Account, command: LifecycleCommand, target: Option<Target>, newId: OpId)
    requires ActiveOk(a) && newId !in a.ops
    ensures IsStranded(RequestSpec(a, command, target, newId).0) <==> IsStranded(a) && !Creates(a, command)
  {
    RequestFrame(a, command, target, newId);
  }

  predicate CarriersKept(before: map<Target, Row>, after: map<Target, Row>) {
    && before.Keys <= after.Keys
    && (forall t | t in before :: after[t].operationId == before[t].operationId)
    && (forall t | t in after && t !in before :: after[t].operationId.None?)
  }

  lemma SelectKeepsCarriers(a: Account, cfg: Config, req: PendingRequest)
    requires SetPendingSpec(a, cfg, req).Success?
    ensures
      var after := SetPendingSpec(a, cfg, req).value;
      after.ops == a.ops && after.active == a.active && CarriersKept(a.rows, after.rows)
  {
    var rows := PendingRows(a.rows, Selection(a, cfg, req), cfg.connectors, req);
    assert rows.Keys == a.rows.Keys + Selection(a, cfg, req);
    assert CarriersKept(a.rows, rows);
  }

  /** Neither selecting, editing, staging nor retiring changes which operation a row carries. */
  lemma OtherStepsKeepCarriers(a: Account, cfg: Config, step: Step)
    requires Legal(a, cfg, step) && !step.Request? && !step.Synchronise?
    ensures
      var after := Apply(a, cfg, step);
      after.ops == a.ops && after.active == a.active && CarriersKept(a.rows, after.rows)
  {
    match step
    case Select(req) => if SetPendingSpec(a, cfg, req).Success? { SelectKeepsCarriers(a, cfg, req); }
    case _ =>
  }

  ghost predicate StrandsAfter(a: Account, cfg: Config, step: Step) {
    match step
    case Request(command, _, _) => IsStranded(a) && !Creates(a, command)
    case Synchronise(call) => if TurnedAway(a, cfg, call) then IsStranded(a) else StrandingRun(a, cfg, call)
    case _ => IsStranded(a)
  }

  lemma StepStrandsIff(a: Account, cfg: Config, step: Step)
    requires Inv(a) && Legal(a, cfg, step)
    ensures IsStranded(Apply(a, cfg, step)) <==> StrandsAfter(a, cfg, step)
  {
    match step
    case Request(command, target, newId) => RequestStrandsIff(a, command, target, newId);
    case Synchronise(call) => SyncStrandsIff(a, cfg, call);
    case _ =>
      OtherStepsKeepCarriers(a, cfg, step);
      if a.active.Some? {
        SameCarriersSameStamps(a.rows, Apply(a, cfg, step).rows, a.active.value);
      }
  }

  lemma SameCarriersSameStamps(before: map<Target, Row>, after: map<Target, Row>, id: OpId)
    requires CarriersKept(before, after)
    ensures Stamped(after, id) == Stamped(before, id)
  {
  }

  /** Over every run, an account that is stranded in the end and was not at first was
      stranded by one of the runs in between, and by nothing else. */
  lemma {:induction false} OnlyOvertakingStrands(a: Account, run: seq<Moment>) returns (k: nat)
    requires Inv(a) && !IsStranded(a) && Execute(a, run).Some? && IsStranded(Execute(a, run).value)
    ensures k < |run| && run[k].step.Synchronise? && Execute(a, run[..k]).Some?
    ensures StrandingRun(Execute(a, run[..k]).value, run[k].cfg, run[k].step.call)
    decreases |run|
  {
    var next := Apply(a, run[0].cfg, run[0].step);
    StepKeepsInv(a, run[0].cfg, run[0].step);
    StepStrandsIff(a, run[0].cfg, run[0].step);
    if IsStranded(next) {
      assert run[..0] == [];
      return 0;
    }
    var j := OnlyOvertakingStrands(next, run[1..]);
    assert run[..j + 1][0] == run[0] && run[..j + 1][1..] == run[1..][..j];
    return j + 1;
  }

  /** A stranded account refuses every request but a deletion and, once deleted, a purge. */
  lemma StrandedAccountRefusesRequests(a: Account, command: LifecycleCommand, target: Option<Target>, newId: OpId)
    requires ActiveOk(a) && IsStranded(a) && newId !in a.ops
    ensures RequestSpec(a, command, target, newId).1.Conflict?
       <==> !command.Delete? && !(command.Purge? && a.deletedAt.Some?)
  {
  }

  /** A retry runs for the operation its row carries, and so never for the one a stranded
      account waits for: that operation stays as it is. */
  lemma RetriesMissStrandedOperation(a: Account, cfg: Config, call: SyncCall, t: Target)
    requires Inv(a) && IsStranded(a) && call.newId !in a.ops
    requires t in a.rows && a.rows[t].operationId.Some? && call.operationId == a.rows[t].operationId
    ensures
      var after := SyncSpec(a, cfg, call).0;
      a.active.value in after.ops && after.ops[a.active.value] == a.ops[a.active.value]
  {
    assert LinkOk(a.rows[t], a.userId, a.ops);
    var id := call.operationId.value;
    assert id != a.active.value by {
      assert t !in Stamped(a.rows, a.active.value);
    }
    if !a.isRoot && a.ops[id].status.Resumable() {
      RunFrame(a, cfg, call, WithLegacyRows(a.rows, cfg), id);
    }
  }
}
