/** Correlated lifecycle operations: request, create, resume, start and finish
    (na_sso/operations.py). */
module Operations {
  import opened Prelude
  import opened Lifecycle
  import opened Model

  predicate HasFailed(op: Operation) {
    op.status.Failed? || op.status.PartiallyFailed?
  }

  datatype RequestOutcome = Conflict | Granted(id: OpId)

  /** The user's unfinished operation; a dangling or finished pointer is dropped. */
  function ActiveId(a: Account): Option<OpId> {
    if a.active.Some? && a.active.value in a.ops && !a.ops[a.active.value].status.Terminal()
    then a.active else None
  }

  function Finished(a: Account, id: OpId, status: OperationStatus, completed: nat, failed: nat): Account
    requires id in a.ops
  {
    a.(ops := a.ops[id := a.ops[id].(status := status, completed := completed, failed := failed)],
       active := if a.active == Some(id) then None else a.active)
  }

  function NewOperation(userId: int, command: LifecycleCommand, target: Option<Target>,
                        supersedes: Option<OpId>): Operation
  {
    Operation(Some(userId), command, Queued, target, supersedes, 0, 0, 0)
  }

  function Created(a: Account, command: LifecycleCommand, target: Option<Target>,
                   supersedes: Option<OpId>, newId: OpId): Account
  {
    a.(ops := a.ops[newId := NewOperation(a.userId, command, target, supersedes)], active := Some(newId))
  }

  function Resumed(a: Account, id: OpId, target: Option<Target>): Account
    requires id in a.ops
  {
    var op := a.ops[id];
    a.(ops := a.ops[id := op.(status := Running,
                              requestedTarget := if target.Some? then target else op.requestedTarget)],
       active := Some(id))
  }

  function Started(a: Account, id: OpId, total: nat): Account
    requires id in a.ops
  {
    a.(ops := a.ops[id := a.ops[id].(status := Running, total := total, completed := 0, failed := 0)])
  }

  function Decision(a: Account, command: LifecycleCommand): TransitionMode {
    var id := ActiveId(a);
    var current := if id.None? then None
                   else Some(ActiveOperation(a.ops[id.value].command, a.ops[id.value].status));
    DecideTransition(command, current, a.deletedAt.Some?)
  }

  /** The operation a request overrides: the unfinished one, when a deletion comes in. */
  function Overridden(a: Account, command: LifecycleCommand): (id: Option<OpId>)
    ensures id.Some? ==> id.value in a.ops
  {
    if Decision(a, command) == Supersede then ActiveId(a) else None
  }

  function WithCancelled(ops: map<OpId, Operation>, id: Option<OpId>): map<OpId, Operation>
    requires id.Some? ==> id.value in ops
  {
    if id.Some? then ops[id.value := ops[id.value].(status := Cancelled)] else ops
  }

  /** Starting and superseding create an operation; reusing needs one to reuse. */
  predicate Creates(a: Account, command: LifecycleCommand) {
    var mode := Decision(a, command);
    mode == Start || mode == Supersede
  }

  function OutcomeOf(a: Account, command: LifecycleCommand, newId: OpId): RequestOutcome {
    if Creates(a, command) then Granted(newId)
    else if Decision(a, command) == Reuse && ActiveId(a).Some? then Granted(ActiveId(a).value)
    else Conflict
  }

  function RequestedOps(a: Account, command: LifecycleCommand, target: Option<Target>, newId: OpId)
    : map<OpId, Operation>
  {
    if Creates(a, command)
    then WithCancelled(a.ops, Overridden(a, command))
           [newId := NewOperation(a.userId, command, target, Overridden(a, command))]
    else a.ops
  }

  function RequestSpec(a: Account, command: LifecycleCommand, target: Option<Target>, newId: OpId)
    : (Account, RequestOutcome)
    requires newId !in a.ops
  {
    var outcome := OutcomeOf(a, command, newId);
    (a.(ops := RequestedOps(a, command, target, newId),
        active := if outcome.Granted? then Some(outcome.id) else ActiveId(a)),
     outcome)
  }

  method GetActiveOperation(u: ManagedUser) returns (id: Option<OpId>)
    modifies u
    ensures id == ActiveId(old(u.Snapshot()))
    ensures u.Snapshot() == old(u.Snapshot()).(active := id)
  {
    if u.active.None? {
      return None;
    }
    if u.active.value !in u.ops || u.ops[u.active.value].status.Terminal() {
      u.active := None;
      return None;
    }
    return u.active;
  }

  method CreateOperation(u: ManagedUser, command: LifecycleCommand, target: Option<Target>,
                         supersedes: Option<OpId>, newId: OpId)
    requires newId !in u.ops
    modifies u
    ensures u.Snapshot() == Created(old(u.Snapshot()), command, target, supersedes, newId)
  {
    u.ops := u.ops[newId := Operation(Some(u.userId), command, Queued, target, supersedes, 0, 0, 0)];
    u.active := Some(newId);
  }

  /** The status must be terminal; finishing clears the active pointer only if it names
      this operation. */
  method FinishOperation(u: ManagedUser, id: OpId, status: OperationStatus, completed: nat, failed: nat)
    requires id in u.ops && status.Terminal()
    modifies u
    ensures u.Snapshot() == Finished(old(u.Snapshot()), id, status, completed, failed)
  {
    u.ops := u.ops[id := u.ops[id].(status := status)];
    u.ops := u.ops[id := u.ops[id].(completed := completed, failed := failed)];
    if u.active == Some(id) {
      u.active := None;
    }
    assert u.ops == old(u.ops)[id := old(u.ops)[id].(status := status, completed := completed, failed := failed)];
  }

  /** Fails, changing nothing, unless the operation is queued, running or failed. */
  method ResumeOperation(u: ManagedUser, id: OpId, target: Option<Target>) returns (ok: bool)
    requires id in u.ops
    modifies u
    ensures ok == old(u.ops)[id].status.Resumable()
    ensures u.Snapshot() == if ok then Resumed(old(u.Snapshot()), id, target) else old(u.Snapshot())
  {
    if !u.ops[id].status.Resumable() {
      return false;
    }
    u.ops := u.ops[id := u.ops[id].(status := Running)];
    if target.Some? {
      u.ops := u.ops[id := u.ops[id].(requestedTarget := target)];
    }
    u.active := Some(id);
    assert u.ops == Resumed(old(u.Snapshot()), id, target).ops;
    return true;
  }

  method StartOperation(u: ManagedUser, id: OpId, total: nat)
    requires id in u.ops
    modifies u
    ensures u.Snapshot() == Started(old(u.Snapshot()), id, total)
  {
    u.ops := u.ops[id := u.ops[id].(status := Running)];
    u.ops := u.ops[id := u.ops[id].(total := total)];
    u.ops := u.ops[id := u.ops[id].(completed := 0, failed := 0)];
    assert u.ops == Started(old(u.Snapshot()), id, total).ops;
  }

  /** The accepted part of a request: cancel what is overridden, then create. */
  method InstallOperation(u: ManagedUser, command: LifecycleCommand, target: Option<Target>,
                          supersedes: Option<OpId>, newId: OpId)
    requires newId !in u.ops
    requires supersedes.Some? ==> supersedes.value in u.ops
    modifies u
    ensures u.Snapshot() == old(u.Snapshot()).(
      ops := WithCancelled(old(u.ops), supersedes)[newId := NewOperation(u.userId, command, target, supersedes)],
      active := Some(newId))
  {
    if supersedes.Some? {
      var previous := u.ops[supersedes.value];
      FinishOperation(u, supersedes.value, Cancelled, previous.completed, previous.failed);
    }
    CreateOperation(u, command, target, supersedes, newId);
  }

  method DecideRequest(u: ManagedUser, command: LifecycleCommand) returns (mode: TransitionMode, activeId: Option<OpId>)
    modifies u
    ensures mode == Decision(old(u.Snapshot()), command) && activeId == ActiveId(old(u.Snapshot()))
    ensures u.Snapshot() == old(u.Snapshot()).(active := activeId)
  {
    activeId := GetActiveOperation(u);
    var current := if activeId.None? then None
                   else Some(ActiveOperation(u.ops[activeId.value].command, u.ops[activeId.value].status));
    mode := DecideTransition(command, current, u.deletedAt.Some?);
  }

  method RequestOperation(u: ManagedUser, command: LifecycleCommand, target: Option<Target>, newId: OpId)
    returns (r: RequestOutcome)
    requires newId !in u.ops
    modifies u
    ensures (u.Snapshot(), r) == RequestSpec(old(u.Snapshot()), command, target, newId)
  {
    var mode, activeId := DecideRequest(u, command);
    if mode == Reject || (mode == Reuse && activeId.None?) {
      return Conflict;
    }
    if mode == Reuse {
      return Granted(activeId.value);
    }
    InstallOperation(u, command, target, if mode == Supersede then activeId else None, newId);
    return Granted(newId);
  }

  /** The rule "retry repairs the existing operation" cannot be reached through a request:
      a failed operation is finished, so it is never the active one, and every RETRY
      request is refused. Retries go through `resume_operation` instead. */
  lemma RetryRequestsNeverAccepted(a: Account, target: Option<Target>, newId: OpId)
    requires newId !in a.ops
    ensures RequestSpec(a, Retry, target, newId).1 == Conflict
  {
  }
}
