/** How many operations of a user are unfinished at a time, whether the user points at them,
    and what a purge leaves of them (na_sso/operations.py, na_sso/lifecycle.py, na_sso/sync.py,
    na_sso/users.py). */
module OpenOperations {
  import opened Prelude
  import opened Lifecycle
  import opened Model
  import opened Operations
  import opened Sync
  import opened Protocol
  import opened Runs

  function Unfinished(ops: map<OpId, Operation>): set<OpId> {
    set id | id in ops && !ops[id].status.Terminal()
  }

  ghost predicate AtMostOneUnfinished(a: Account) {
    forall i, j | i in Unfinished(a.ops) && j in Unfinished(a.ops) :: i == j
  }

  /** Every unfinished operation is the one the user points at. */
  ghost predicate PointerAgrees(a: Account) {
    forall id | id in Unfinished(a.ops) :: a.active == Some(id)
  }

  // ---- requests ----

  /** The operation a request finishes as superseded. */
  function Cancels(a: Account, command: LifecycleCommand): set<OpId> {
    if Overridden(a, command).Some? then {Overridden(a, command).value} else {}
  }

  /** What a request leaves unfinished: what was, minus what it cancels, plus what it
      creates. */
  lemma UnfinishedAfterRequest(a: Account, command: LifecycleCommand, target: Option<Target>, newId: OpId)
    requires newId !in a.ops
    ensures Unfinished(RequestSpec(a, command, target, newId).0.ops)
         == Unfinished(a.ops) - Cancels(a, command) + if Creates(a, command) then {newId} else {}
  {
  }

  /** A request makes two operations unfinished if and only if it creates one while another,
      which it does not supersede, is unfinished: the request looks at the active operation
      only. */
  lemma RequestKeepsAtMostOneIff(a: Account, command: LifecycleCommand, target: Option<Target>, newId: OpId)
    requires AtMostOneUnfinished(a) && newId !in a.ops
    ensures AtMostOneUnfinished(RequestSpec(a, command, target, newId).0)
       <==> !(Creates(a, command) && Unfinished(a.ops) - Cancels(a, command) != {})
  {
    UnfinishedAfterRequest(a, command, target, newId);
    var after := Unfinished(RequestSpec(a, command, target, newId).0.ops);
    if Creates(a, command) && Unfinished(a.ops) - Cancels(a, command) != {} {
      var other :| other in Unfinished(a.ops) - Cancels(a, command);
      assert other in after && newId in after && other != newId;
    }
  }

  /** While every unfinished operation is the active one, a request keeps it so unless it is a
      purge beside unfinished work, the one command that starts without looking at it. */
  lemma RequestKeepsPointerIff(a: Account, command: LifecycleCommand, target: Option<Target>, newId: OpId)
    requires PointerAgrees(a) && ActiveOk(a) && newId !in a.ops
    ensures PointerAgrees(RequestSpec(a, command, target, newId).0)
       <==> !(command.Purge? && a.deletedAt.Some? && a.active.Some?)
  {
    UnfinishedAfterRequest(a, command, target, newId);
    if command.Purge? && a.deletedAt.Some? && a.active.Some? {
      assert a.active.value in Unfinished(RequestSpec(a, command, target, newId).0.ops);
    }
  }

  // ---- runs ----

  /** The failed operation a run takes up again: the one it is given or, without a known one,
      the one its target's row names. */
  function Revived(a: Account, rows: map<Target, Row>, call: SyncCall): (id: Option<OpId>)
    ensures id.Some? ==> id.value in a.ops && HasFailed(a.ops[id.value])
  {
    if call.operationId.Some? && call.operationId.value in a.ops then
      var op := a.ops[call.operationId.value];
      if op.userId == Some(a.userId) && HasFailed(op) then call.operationId else None
    else RetryCandidate(a, rows, call)
  }

  /** A run that is given no operation and finds none to revive requests one. */
  predicate Requests(a: Account, rows: map<Target, Row>, call: SyncCall) {
    (call.operationId.None? || call.operationId.value !in a.ops) && RetryCandidate(a, rows, call).None?
  }

  function RunCommand(a: Account, call: SyncCall): LifecycleCommand {
    CommandFor(Deleting(a, call), call.actor)
  }

  /** The operation that is not unfinished before the run and is worked on by it: revived or
      created. */
  function BroughtToLife(a: Account, rows: map<Target, Row>, call: SyncCall): Option<OpId> {
    if Revived(a, rows, call).Some? then Revived(a, rows, call)
    else if Requests(a, rows, call) && Creates(a, RunCommand(a, call)) then Some(call.newId)
    else None
  }

  /** The unfinished operations that a run bringing another one to life leaves alone. */
  function Bystanders(a: Account, rows: map<Target, Row>, call: SyncCall): set<OpId> {
    Unfinished(a.ops) - if Requests(a, rows, call) then Cancels(a, RunCommand(a, call)) else {}
  }

  /** A run crowds an account when it brings an operation to life beside an unfinished one
      and leaves it running: a visit breaks, or none of the rows it is counted by fails and
      one of them stays open. */
  predicate Crowds(a: Account, cfg: Config, call: SyncCall) {
    var rows := WithLegacyRows(a.rows, cfg);
    var id := BroughtToLife(a, rows, call);
    && !a.isRoot && id.Some? && Bystanders(a, rows, call) != {}
    && WillStayRunning(rows, Context(a, call), cfg, call, id.value)
  }

  /** A run that revives an operation works on it; what is unfinished stays so. */
  lemma RevivalForecast(a: Account, rows: map<Target, Row>, call: SyncCall)
    requires call.newId !in a.ops && Revived(a, rows, call).Some?
    ensures
      var (chosen, result) := Choose(a, rows, call);
      var id := Revived(a, rows, call).value;
      && result == Completed(id) && id in chosen.ops && chosen.ops[id].status.Resumable()
      && !chosen.ops[id].status.Queued?
      && Unfinished(chosen.ops) - {id} == Unfinished(a.ops) && id !in Unfinished(a.ops)
      && Context(chosen, call) == Context(a, call)
  {
  }

  /** A run that requests an operation works on a new one or on the unfinished one it may
      reuse, which is then the active one either way. */
  lemma RequestForecast(a: Account, rows: map<Target, Row>, call: SyncCall)
    requires ActiveOk(a) && call.newId !in a.ops && Requests(a, rows, call)
    ensures
      var (chosen, result) := Choose(a, rows, call);
      var creates := Creates(a, RunCommand(a, call));
      && (creates ==>
            && result == Completed(call.newId) && chosen.active == Some(call.newId)
            && call.newId in chosen.ops && chosen.ops[call.newId].status.Queued?
            && Unfinished(chosen.ops) - {call.newId} == Unfinished(a.ops) - Cancels(a, RunCommand(a, call)))
      && (!creates && result.Completed? ==> chosen == a && a.active == Some(result.id))
      && (!result.Completed? ==> chosen == a)
      && Context(chosen, call) == Context(a, call)
  {
    UnfinishedAfterRequest(a, RunCommand(a, call), call.target, call.newId);
  }

  /** What is left is a run for a given unfinished operation, or one that is turned away. */
  lemma ContinuationForecast(a: Account, rows: map<Target, Row>, call: SyncCall)
    requires call.newId !in a.ops && Revived(a, rows, call).None? && !Requests(a, rows, call)
    ensures
      var (chosen, result) := Choose(a, rows, call);
      && chosen == a && call.operationId.Some?
      && (result.Completed? ==> call.operationId == Some(result.id) && result.id in Unfinished(a.ops))
  {
  }

  /** The run itself finishes its operation or leaves it running, and touches no other. */
  lemma UnfinishedAfterRun(a: Account, cfg: Config, call: SyncCall, rows: map<Target, Row>, id: OpId)
    requires id in a.ops && a.ops[id].status.Resumable()
    ensures
      var after := RunSpec(a, cfg, call, rows, id);
      && Unfinished(after.ops) - {id} == Unfinished(a.ops) - {id}
      && (id in Unfinished(after.ops) <==> WillStayRunning(rows, Context(a, call), cfg, call, id))
  {
    RunFrame(a, cfg, call, rows, id);
    RunEndsAsForecast(a, cfg, call, rows, id);
    RunEndsOrStaysRunning(a, cfg, call, rows, id);
    UnfinishedUpdate(a.ops, id, RunSpec(a, cfg, call, rows, id).ops[id]);
  }

  lemma UnfinishedUpdate(ops: map<OpId, Operation>, id: OpId, op: Operation)
    ensures Unfinished(ops[id := op]) - {id} == Unfinished(ops) - {id}
    ensures id in Unfinished(ops[id := op]) <==> !op.status.Terminal()
  {
  }

  /** A completed run leaves unfinished what it does not touch and, if it stays open, its
      own operation. */
  lemma UnfinishedAfterSync(a: Account, cfg: Config, call: SyncCall)
    requires ActiveOk(a) && call.newId !in a.ops && !a.isRoot
    ensures
      var rows := WithLegacyRows(a.rows, cfg);
      var (after, result) := SyncSpec(a, cfg, call);
      var life := BroughtToLife(a, rows, call);
      && (life.Some? ==>
            && life.value !in Unfinished(a.ops)
            && Unfinished(after.ops) - {life.value} == Bystanders(a, rows, call)
            && (life.value in Unfinished(after.ops)
                <==> WillStayRunning(rows, Context(a, call), cfg, call, life.value)))
      && (life.None? ==> Unfinished(after.ops) <= Unfinished(a.ops))
  {
    var rows := WithLegacyRows(a.rows, cfg);
    var (chosen, result) := Choose(a, rows, call);
    ChoiceForecast(a, rows, call);
    if result.Completed? {
      var after := RunSpec(chosen, cfg, call, rows, result.id);
      UnfinishedAfterRun(chosen, cfg, call, rows, result.id);
      UnfinishedByLife(Unfinished(a.ops), Unfinished(chosen.ops), Unfinished(after.ops),
                       BroughtToLife(a, rows, call), result.id);
    }
  }

  lemma UnfinishedByLife(before: set<OpId>, chosen: set<OpId>, after: set<OpId>, life: Option<OpId>, id: OpId)
    requires after - {id} == chosen - {id}
    requires if life.Some? then life.value == id else chosen == before && id in before
    ensures life.Some? ==> after - {id} == chosen - {id}
    ensures life.None? ==> after <= before
  {
    if life.None? {
      forall j | j in after
        ensures j in before
      {
        assert j == id || j in after - {id};
      }
    }
  }

  lemma ChoiceForecast(a: Account, rows: map<Target, Row>, call: SyncCall)
    requires ActiveOk(a) && call.newId !in a.ops
    ensures
      var (chosen, result) := Choose(a, rows, call);
      var life := BroughtToLife(a, rows, call);
      && Context(chosen, call) == Context(a, call)
      && (!result.Completed? ==> life.None?)
      && (life.Some? ==> result == Completed(life.value) && life.value !in Unfinished(a.ops)
                         && Unfinished(chosen.ops) - {life.value} == Bystanders(a, rows, call))
      && (life.None? ==> chosen == a && (result.Completed? ==> result.id in Unfinished(a.ops)))
  {
    if Revived(a, rows, call).Some? {
      RevivalForecast(a, rows, call);
    } else if Requests(a, rows, call) {
      RequestForecast(a, rows, call);
    } else {
      ContinuationForecast(a, rows, call);
    }
  }

  /** A run makes two operations unfinished if and only if it crowds the account. */
  lemma SyncKeepsAtMostOneIff(a: Account, cfg: Config, call: SyncCall)
    requires AtMostOneUnfinished(a) && ActiveOk(a) && call.newId !in a.ops
    ensures AtMostOneUnfinished(SyncSpec(a, cfg, call).0) <==> !Crowds(a, cfg, call)
  {
    if !a.isRoot {
      UnfinishedAfterSync(a, cfg, call);
      var rows := WithLegacyRows(a.rows, cfg);
      var after := Unfinished(SyncSpec(a, cfg, call).0.ops);
      var life := BroughtToLife(a, rows, call);
      if Crowds(a, cfg, call) {
        var other :| other in Bystanders(a, rows, call);
        assert other in after - {life.value} && life.value in after;
      } else if life.Some? && Bystanders(a, rows, call) != {} {
        assert after == after - {life.value};
      } else if life.Some? {
        assert after - {life.value} == {};
        assert forall j | j in after :: j !in after - {life.value} ==> j == life.value;
      }
    }
  }

  /** While every unfinished operation is the active one, a run keeps it so if and only if it
      does not revive a failed operation beside an unfinished one: the revived one becomes
      the active one, or leaves none when it finishes. */
  lemma SyncKeepsPointerIff(a: Account, cfg: Config, call: SyncCall)
    requires PointerAgrees(a) && ActiveOk(a) && call.newId !in a.ops && !a.isRoot
    ensures PointerAgrees(SyncSpec(a, cfg, call).0)
       <==> !(Revived(a, WithLegacyRows(a.rows, cfg), call).Some? && a.active.Some?)
  {
    var rows := WithLegacyRows(a.rows, cfg);
    var (chosen, result) := Choose(a, rows, call);
    if Revived(a, rows, call).Some? {
      RevivalForecast(a, rows, call);
    } else {
      PointerFollows(a, rows, call);
    }
    if result.Completed? {
      var after := RunSpec(chosen, cfg, call, rows, result.id);
      UnfinishedAfterRun(chosen, cfg, call, rows, result.id);
      RunMovesPointer(chosen, cfg, call, rows, result.id);
      assert forall id | id in Unfinished(after.ops) && id != result.id :: id in Unfinished(chosen.ops) - {result.id};
      if Revived(a, rows, call).Some? && a.active.Some? {
        assert a.active.value in Unfinished(after.ops) - {result.id};
      }
    }
  }

  /** A run that revives nothing works on the operation the user then points at, the only
      unfinished one. */
  lemma PointerFollows(a: Account, rows: map<Target, Row>, call: SyncCall)
    requires PointerAgrees(a) && ActiveOk(a) && call.newId !in a.ops && Revived(a, rows, call).None?
    ensures
      var (chosen, result) := Choose(a, rows, call);
      && (result.Completed? ==> chosen.active == Some(result.id) && Unfinished(chosen.ops) <= {result.id})
      && (!result.Completed? ==> chosen == a)
  {
    if Requests(a, rows, call) {
      RequestForecast(a, rows, call);
      RequestKeepsPointerIff(a, RunCommand(a, call), call.target, call.newId);
    } else {
      ContinuationForecast(a, rows, call);
    }
  }

  lemma ConcludeMovesPointer(a: Account, cfg: Config, id: OpId, deleting: bool, now: real)
    requires id in a.ops && a.ops[id].status.Running?
    ensures
      var after := Concluded(a, cfg, id, deleting, now);
      && (after.ops[id].status.Terminal() <==> !after.ops[id].status.Running?)
      && after.active == if a.active == Some(id) && after.ops[id].status.Terminal() then None else a.active
  {
  }

  lemma RunEndsOrStaysRunning(a: Account, cfg: Config, call: SyncCall, rows: map<Target, Row>, id: OpId)
    requires id in a.ops
    ensures
      var after := RunSpec(a, cfg, call, rows, id);
      var pointer := if a.ops[id].status.Queued? then a.active else Some(id);
      && (after.ops[id].status.Terminal() <==> !after.ops[id].status.Running?)
      && after.active == if pointer == Some(id) && after.ops[id].status.Terminal() then None else pointer
  {
    VisitedPointer(a, cfg, call, rows, id);
    ConcludeMovesPointer(VisitedAccount(a, cfg, call, rows, id), cfg, id, Context(a, call).deleting, call.now);
  }

  lemma VisitedPointer(a: Account, cfg: Config, call: SyncCall, rows: map<Target, Row>, id: OpId)
    requires id in a.ops
    ensures
      var visited := VisitedAccount(a, cfg, call, rows, id);
      && visited.active == (if a.ops[id].status.Queued? then a.active else Some(id))
      && id in visited.ops && visited.ops[id].status.Running?
  {
  }

  lemma RunMovesPointer(a: Account, cfg: Config, call: SyncCall, rows: map<Target, Row>, id: OpId)
    requires id in a.ops && a.ops[id].status.Resumable()
    ensures
      var after := RunSpec(a, cfg, call, rows, id);
      var pointer := if a.ops[id].status.Queued? then a.active else Some(id);
      after.active == if pointer == Some(id) && id !in Unfinished(after.ops) then None else pointer
  {
    RunEndsOrStaysRunning(a, cfg, call, rows, id);
  }

  // ---- every step, every run ----

  /** The steps that make two operations unfinished. */
  predicate CrowdingStep(a: Account, cfg: Config, step: Step) {
    match step
    case Request(command, _, _) => Creates(a, command) && Unfinished(a.ops) - Cancels(a, command) != {}
    case Synchronise(call) => Crowds(a, cfg, call)
    case _ => false
  }

  lemma StepKeepsAtMostOneIff(a: Account, cfg: Config, step: Step)
    requires Inv(a) && AtMostOneUnfinished(a) && Legal(a, cfg, step)
    ensures AtMostOneUnfinished(Apply(a, cfg, step)) <==> !CrowdingStep(a, cfg, step)
  {
    match step
    case Request(command, target, newId) => RequestKeepsAtMostOneIff(a, command, target, newId);
    case Synchronise(call) => SyncKeepsAtMostOneIff(a, cfg, call);
    case _ =>
  }

  /** The number of steps before the first crowding one. */
  function Uncrowded(a: Account, run: seq<Moment>): nat
    requires Execute(a, run).Some?
    decreases |run|
  {
    if run == [] || CrowdingStep(a, run[0].cfg, run[0].step) then 0
    else 1 + Uncrowded(Apply(a, run[0].cfg, run[0].step), run[1..])
  }

  /** The state after a prefix, seen from the state after the first step. */
  lemma {:induction false} PrefixShift(a: Account, run: seq<Moment>, k: nat)
    requires run != [] && Legal(a, run[0].cfg, run[0].step) && 1 <= k <= |run|
    ensures Execute(a, run[..k]) == Execute(Apply(a, run[0].cfg, run[0].step), run[1..][..k - 1])
  {
    assert run[..k][0] == run[0] && run[..k][1..] == run[1..][..k - 1];
  }

  /** A first step that crowds: two operations are unfinished after it. */
  lemma {:induction false} CrowdingComesFirst(a: Account, run: seq<Moment>, k: nat)
    requires Inv(a) && AtMostOneUnfinished(a) && Execute(a, run).Some? && run != [] && k <= |run|
    requires CrowdingStep(a, run[0].cfg, run[0].step)
    ensures Execute(a, run[..k]).Some?
    ensures k == 0 ==> AtMostOneUnfinished(Execute(a, run[..k]).value)
    ensures k == 1 ==> !AtMostOneUnfinished(Execute(a, run[..k]).value)
  {
    PrefixExecutes(a, run, k);
    StepKeepsAtMostOneIff(a, run[0].cfg, run[0].step);
    if k == 1 {
      PrefixShift(a, run, 1);
      assert run[1..][..0] == [];
    } else if k == 0 {
      assert run[..0] == [];
    }
  }

  /** Over every run, at most one operation is unfinished after each step until the first
      crowding one, and two are unfinished right after that one. */
  lemma {:induction false} FirstCrowdingStepDecides(a: Account, run: seq<Moment>, k: nat)
    requires Inv(a) && AtMostOneUnfinished(a) && Execute(a, run).Some? && k <= |run|
    ensures Uncrowded(a, run) <= |run| && Execute(a, run[..k]).Some?
    ensures k <= Uncrowded(a, run) ==> AtMostOneUnfinished(Execute(a, run[..k]).value)
    ensures k == Uncrowded(a, run) + 1 ==> !AtMostOneUnfinished(Execute(a, run[..k]).value)
    decreases |run|
  {
    if run == [] {
    } else if CrowdingStep(a, run[0].cfg, run[0].step) {
      CrowdingComesFirst(a, run, k);
    } else {
      StepKeepsInv(a, run[0].cfg, run[0].step);
      StepKeepsAtMostOneIff(a, run[0].cfg, run[0].step);
      FirstCrowdingStepDecides(Apply(a, run[0].cfg, run[0].step), run[1..], if k > 0 then k - 1 else 0);
      if k > 0 {
        PrefixShift(a, run, k);
      } else {
        assert run[..0] == [];
      }
    }
  }

  lemma {:induction false} PrefixExecutes(a: Account, run: seq<Moment>, k: nat)
    requires Execute(a, run).Some? && k <= |run|
    ensures Execute(a, run[..k]).Some?
    decreases |run|
  {
    if k > 0 {
      assert run[..k][0] == run[0] && run[..k][1..] == run[1..][..k - 1];
      PrefixExecutes(Apply(a, run[0].cfg, run[0].step), run[1..], k - 1);
    }
  }

  /** A run of steps none of which revives a failed operation beside an unfinished one. */
  predicate OrderlyRun(a: Account, run: seq<Moment>)
    decreases |run|
  {
    run == [] ||
    (&& Legal(a, run[0].cfg, run[0].step)
     && (run[0].step.Synchronise? ==>
           !(Revived(a, WithLegacyRows(a.rows, run[0].cfg), run[0].step.call).Some? && a.active.Some?))
     && OrderlyRun(Apply(a, run[0].cfg, run[0].step), run[1..]))
  }

  lemma StepKeepsPointer(a: Account, cfg: Config, step: Step)
    requires Inv(a) && PointerAgrees(a) && Legal(a, cfg, step)
    requires step.Synchronise? ==> !(Revived(a, WithLegacyRows(a.rows, cfg), step.call).Some? && a.active.Some?)
    ensures PointerAgrees(Apply(a, cfg, step))
  {
    match step
    case Request(command, target, newId) => RequestKeepsPointerIff(a, command, target, newId);
    case Synchronise(call) => if !a.isRoot { SyncKeepsPointerIff(a, cfg, call); }
    case _ =>
  }

  /** Over every orderly run the unfinished operation, if there is one, is the active one. */
  lemma {:induction false} OrderlyRunsKeepPointer(a: Account, run: seq<Moment>)
    requires Inv(a) && PointerAgrees(a) && OrderlyRun(a, run)
    ensures Execute(a, run).Some? && PointerAgrees(Execute(a, run).value) && AtMostOneUnfinished(Execute(a, run).value)
    decreases |run|
  {
    if run != [] {
      StepKeepsInv(a, run[0].cfg, run[0].step);
      StepKeepsPointer(a, run[0].cfg, run[0].step);
      OrderlyRunsKeepPointer(Apply(a, run[0].cfg, run[0].step), run[1..]);
    }
  }

  // ---- purge ----

  /** What a purge keeps of a deleted user: the operation table, with the purge finished in
      it. The user and the rows are gone. */
  function PurgeSpec(a: Account, newId: OpId): Option<map<OpId, Operation>>
    requires newId !in a.ops
  {
    if !a.desired.WantDelete? || a.deletedAt.None? then None
    else Some(Finished(RequestSpec(a, Purge, None, newId).0, newId, Succeeded, 0, 0).ops)
  }

  method PurgeUser(u: ManagedUser, newId: OpId) returns (history: Option<map<OpId, Operation>>)
    requires newId !in u.ops
    modifies u
    ensures history == PurgeSpec(old(u.Snapshot()), newId)
    ensures history.Some? <==> old(u.desired) == WantDelete && old(u.deletedAt) != None
    ensures history.None? ==> u.Snapshot() == old(u.Snapshot())
  {
    if !u.desired.WantDelete? || u.deletedAt.None? {
      return None;
    }
    var outcome := RequestOperation(u, Purge, None, newId);
    FinishOperation(u, outcome.id, Succeeded, 0, 0);
    return Some(u.ops);
  }

  /** A purge leaves behind, unfinished and without a user, exactly the operations that were
      unfinished before; every earlier record is kept as it was, and the purge itself has
      succeeded. */
  lemma PurgeOrphans(a: Account, newId: OpId)
    requires Inv(a) && newId !in a.ops && PurgeSpec(a, newId).Some?
    ensures
      var history := PurgeSpec(a, newId).value;
      && Unfinished(history) == Unfinished(a.ops)
      && (forall id | id in a.ops :: id in history && history[id] == a.ops[id])
      && history.Keys == a.ops.Keys + {newId}
      && history[newId].command.Purge? && history[newId].status.Succeeded?
      && SupersessionOk(history)
  {
    var requested := RequestSpec(a, Purge, None, newId).0;
    var history := PurgeSpec(a, newId).value;
    assert history == a.ops[newId := history[newId]];
    CreateKeepsSupersession(a.ops, newId, history[newId]);
  }
}
