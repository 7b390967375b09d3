/** Which retries a scan starts and which rows it leaves alone, stated on the rows' own
    schedules (na_sso/sync.py). */
module Scans {
  import opened Prelude
  import opened Lifecycle
  import opened Model
  import opened Sync
  import opened Workers
  import opened Backoff
  import opened Protocol
  import opened Runs
  import opened Calls

  /** The row failed and the time of its retry has come. */
  predicate ComesDue(row: Row, now: real) {
    && !row.isRetired && row.state == SyncStateValue.Failed
    && row.nextRetryAt != None && row.nextRetryAt.value <= now
  }

  predicate Targets(batch: seq<DueRetry>, t: Target) {
    exists i | 0 <= i < |batch| :: batch[i].target == t
  }

  /** A batch read at `now` has one entry, under the operation of its row, for exactly the
      rows whose retry has come due. */
  lemma BatchHoldsDueRows(rows: map<Target, Row>, now: real, batch: seq<DueRetry>, t: Target)
    requires IsDueBatch(rows, now, batch)
    ensures Targets(batch, t) <==> t in rows && ComesDue(rows[t], now)
    ensures t in rows && ComesDue(rows[t], now) ==>
      exists i | 0 <= i < |batch| :: batch[i] == DueRetry(t, rows[t].operationId)
    ensures forall i, j | 0 <= i < j < |batch| :: batch[i].target != batch[j].target
  {
    if t in rows && ComesDue(rows[t], now) {
      assert DueRetry(t, rows[t].operationId) in batch;
    }
    if Targets(batch, t) {
      var i :| 0 <= i < |batch| && batch[i].target == t;
      assert batch[i] in batch;
    }
  }

  /** What every entry of a batch read from these rows brings along. */
  ghost predicate Given(a: Account, batch: seq<DueRetry>) {
    forall d | d in batch :: d.target in a.rows && d.operationId.Some? && d.operationId.value in a.ops
  }

  /** A scan touches no row but those of its batch. */
  lemma {:induction false} ScanLeavesOthers(a: Account, cfg: Config, batch: seq<DueRetry>, newId: OpId, now: real,
                                            answer: Target -> CallResult, rank: Target -> nat, t: Target)
    requires newId !in a.ops && Given(a, batch) && t in a.rows && !Targets(batch, t)
    ensures
      var after := RetryBatch(a, cfg, batch, newId, now, answer, rank).0;
      t in after.rows && after.rows[t] == a.rows[t]
    decreases |batch|
  {
    if batch != [] {
      var call := RetryCall(batch[0], newId, now, answer, rank);
      assert batch[0] in batch && batch[0].target != t;
      GivenRunKeepsKeys(a, cfg, call);
      TargetedRunFrame(a, cfg, call);
      forall d | d in batch[1..]
        ensures d in batch
      {
      }
      forall i | 0 <= i < |batch[1..]|
        ensures batch[1..][i].target != t
      {
        assert batch[1..][i] == batch[i + 1];
      }
      ScanLeavesOthers(SyncSpec(a, cfg, call).0, cfg, batch[1..], newId, now, answer, rank, t);
    }
  }

  /** The entry names a failed row and the operation that row carries. */
  ghost predicate ReadFrom(a: Account, d: DueRetry) {
    d.target in a.rows && a.rows[d.target].state.Failed? && d.operationId == a.rows[d.target].operationId
  }

  /** A scan that comes to its end has met no superseded operation. */
  lemma {:induction false} FinishedMeansRetryable(a: Account, cfg: Config, batch: seq<DueRetry>, newId: OpId, now: real,
                                                  answer: Target -> CallResult, rank: Target -> nat)
    requires Inv(a) && !a.isRoot && newId !in a.ops
    requires forall i, j | 0 <= i < j < |batch| :: batch[i].target != batch[j].target
    requires forall d | d in batch :: ReadFrom(a, d)
    requires RetryBatch(a, cfg, batch, newId, now, answer, rank).1
    ensures forall d | d in batch :: Retryable(a, d)
    decreases |batch|
  {
    if batch != [] {
      var next := FirstFinished(a, cfg, batch, newId, now, answer, rank);
      FinishedMeansRetryable(next, cfg, batch[1..], newId, now, answer, rank);
      assert forall d | d in batch :: d == batch[0] || d in batch[1..];
    }
  }

  /** The first entry of such a scan may resume, the rest is a scan of its own that comes to its
      end, and what may resume then might have before. */
  lemma {:induction false} FirstFinished(a: Account, cfg: Config, batch: seq<DueRetry>, newId: OpId, now: real,
                                         answer: Target -> CallResult, rank: Target -> nat)
    returns (next: Account)
    requires Inv(a) && !a.isRoot && newId !in a.ops && batch != []
    requires forall i, j | 0 <= i < j < |batch| :: batch[i].target != batch[j].target
    requires forall d | d in batch :: ReadFrom(a, d)
    requires RetryBatch(a, cfg, batch, newId, now, answer, rank).1
    ensures Inv(next) && !next.isRoot && newId !in next.ops && Retryable(a, batch[0])
    ensures forall d | d in batch[1..] :: ReadFrom(next, d) && (Retryable(next, d) ==> Retryable(a, d))
    ensures RetryBatch(next, cfg, batch[1..], newId, now, answer, rank).1
  {
    var call := RetryCall(batch[0], newId, now, answer, rank);
    assert batch[0] in batch && batch[0..] == batch;
    DueRetryRuns(a, cfg, batch[0], call);
    RetryBatchUnfolds(a, cfg, batch, 0, newId, now, answer, rank);
    next := SyncSpec(a, cfg, call).0;
    forall d | d in batch[1..]
      ensures ReadFrom(next, d) && (Retryable(next, d) ==> Retryable(a, d))
    {
      var j :| 1 <= j < |batch| && batch[j] == d;
      assert batch[0].target != batch[j].target && d in batch;
      OtherEntry(a, cfg, call, d);
    }
    TargetedRunFrame(a, cfg, call);
  }

  lemma OtherEntry(a: Account, cfg: Config, call: SyncCall, d: DueRetry)
    requires Inv(a) && call.newId !in a.ops && call.target.Some? && call.target.value != d.target && ReadFrom(a, d)
    ensures
      var next := SyncSpec(a, cfg, call).0;
      ReadFrom(next, d) && (Retryable(next, d) ==> Retryable(a, d))
  {
    TargetedRunFrame(a, cfg, call);
    RetriesAreScheduledExactly(a, d.target);
    if a.ops[d.operationId.value].status.Cancelled? {
      SyncKeepsAbsorbed(a, cfg, call, d.operationId.value);
    }
  }

  /** A scan comes to its end if and only if none of its operations is superseded and none of
      its visits breaks. */
  lemma ScanFinishesIff(a: Account, cfg: Config, batch: seq<DueRetry>, newId: OpId, now: real,
                        answer: Target -> CallResult, rank: Target -> nat)
    requires Inv(a) && !a.isRoot && newId !in a.ops && IsDueBatch(a.rows, now, batch)
    ensures RetryBatch(a, cfg, batch, newId, now, answer, rank).1 <==>
      forall d | d in batch :: Retryable(a, d) && !RetryBreaks(a, cfg, RetryCall(d, newId, now, answer, rank))
  {
    if RetryBatch(a, cfg, batch, newId, now, answer, rank).1 {
      FinishedMeansRetryable(a, cfg, batch, newId, now, answer, rank);
    }
    if forall d | d in batch :: Retryable(a, d) {
      RetryBatchCompletesIff(a, cfg, batch, newId, now, answer, rank);
    }
  }

  /** Entry i is next: what is left of the scan is worth as much as the whole. */
  ghost predicate ScanContinues(whole: (Account, bool), a: Account, cfg: Config, batch: seq<DueRetry>, i: nat,
                                finished: bool, newId: OpId, now: real, answer: Target -> CallResult,
                                rank: Target -> nat)
    requires i <= |batch|
  {
    var rest := RetryBatch(a, cfg, batch[i..], newId, now, answer, rank);
    whole == (rest.0, finished && rest.1)
  }

  /** The account can be scanned: its rows are listed, and each entry names one of them and an
      operation of its table. */
  ghost predicate Scannable(a: Account, batch: seq<DueRetry>, newId: OpId, rank: Target -> nat) {
    Inv(a) && newId !in a.ops && Listed(a.rows.Keys, rank) && Given(a, batch)
  }

  /** Runs the entries in turn; an exception ends the scan. */
  method RunRetries(u: ManagedUser, cfg: Config, batch: seq<DueRetry>, newId: OpId, now: real,
                    answer: Target -> CallResult, rank: Target -> nat)
    returns (finished: bool)
    requires Scannable(u.Snapshot(), batch, newId, rank)
    modifies u
    ensures (u.Snapshot(), finished) == RetryBatch(old(u.Snapshot()), cfg, batch, newId, now, answer, rank)
    ensures Inv(u.Snapshot())
  {
    finished := true;
    ghost var a := u.Snapshot();
    ghost var whole := RetryBatch(a, cfg, batch, newId, now, answer, rank);
    var i := 0;
    assert batch[0..] == batch;
    while i < |batch|
      invariant 0 <= i <= |batch| && a == u.Snapshot() && Scannable(a, batch, newId, rank)
      invariant ScanContinues(whole, a, cfg, batch, i, finished, newId, now, answer, rank)
    {
      var r := RetryOne(u, cfg, batch, i, newId, now, answer, rank);
      a := u.Snapshot();
      if r.Raised? || r.Interrupted? {
        return false;
      }
      finished := finished && r.Completed? && Some(r.id) == batch[i].operationId;
      i := i + 1;
    }
    assert batch[|batch|..] == [];
  }

  method RetryOne(u: ManagedUser, cfg: Config, batch: seq<DueRetry>, i: nat, newId: OpId, now: real,
                  answer: Target -> CallResult, rank: Target -> nat)
    returns (r: SyncResult)
    requires i < |batch| && Scannable(u.Snapshot(), batch, newId, rank)
    modifies u
    ensures Scannable(u.Snapshot(), batch, newId, rank)
    ensures
      var rest := RetryBatch(u.Snapshot(), cfg, batch[i + 1..], newId, now, answer, rank);
      RetryBatch(old(u.Snapshot()), cfg, batch[i..], newId, now, answer, rank)
      == if r.Raised? || r.Interrupted? then (u.Snapshot(), false)
         else (rest.0, rest.1 && r.Completed? && Some(r.id) == batch[i].operationId)
  {
    assert batch[i] in batch;
    ScannableAfter(u.Snapshot(), cfg, batch, i, newId, now, answer, rank);
    RetryBatchUnfolds(u.Snapshot(), cfg, batch, i, newId, now, answer, rank);
    r := SyncUser(u, cfg, RetryCall(batch[i], newId, now, answer, rank));
  }

  lemma ScannableAfter(a: Account, cfg: Config, batch: seq<DueRetry>, i: nat, newId: OpId, now: real,
                       answer: Target -> CallResult, rank: Target -> nat)
    requires i < |batch| && Scannable(a, batch, newId, rank)
    ensures Scannable(SyncSpec(a, cfg, RetryCall(batch[i], newId, now, answer, rank)).0, batch, newId, rank)
    ensures WithLegacyRows(a.rows, cfg) == a.rows
  {
    assert batch[i] in batch;
    GivenRunKeepsKeys(a, cfg, RetryCall(batch[i], newId, now, answer, rank));
    SyncKeepsInv(a, cfg, RetryCall(batch[i], newId, now, answer, rank));
  }

  lemma BatchIsGiven(a: Account, now: real, batch: seq<DueRetry>)
    requires Inv(a) && IsDueBatch(a.rows, now, batch)
    ensures forall d | d in batch :: d.target in a.rows && d.operationId.Some? && d.operationId.value in a.ops
  {
    forall d | d in batch
      ensures d.operationId.Some? && d.operationId.value in a.ops
    {
      RetriesAreScheduledExactly(a, d.target);
    }
  }

  /** One worker scan over this user's rows; `finished` says whether it came to its end. The
      batch is exactly the rows whose retry has come due, and no other row is touched. */
  method RetryDue(u: ManagedUser, cfg: Config, newId: OpId, now: real, answer: Target -> CallResult,
                  rank: Target -> nat)
    returns (batch: seq<DueRetry>, finished: bool)
    requires Inv(u.Snapshot()) && !u.isRoot && newId !in u.ops && Listed(u.rows.Keys, rank)
    modifies u
    ensures IsDueBatch(old(u.rows), now, batch) && Inv(u.Snapshot())
    ensures (u.Snapshot(), finished) == RetryBatch(old(u.Snapshot()), cfg, batch, newId, now, answer, rank)
    ensures finished <==>
      forall d | d in batch :: Retryable(old(u.Snapshot()), d)
                               && !RetryBreaks(old(u.Snapshot()), cfg, RetryCall(d, newId, now, answer, rank))
    ensures forall t :: Targets(batch, t) <==> t in old(u.rows) && ComesDue(old(u.rows)[t], now)
    ensures forall t | t in old(u.rows) && !ComesDue(old(u.rows)[t], now) ::
      t in u.rows && u.rows[t] == old(u.rows)[t]
  {
    batch := CollectDue(u.rows, now);
    ghost var a := u.Snapshot();
    BatchIsGiven(a, now, batch);
    ScanFinishesIff(a, cfg, batch, newId, now, answer, rank);
    DueRowsOnly(a, cfg, batch, newId, now, answer, rank);
    finished := RunRetries(u, cfg, batch, newId, now, answer, rank);
  }

  lemma {:induction false} DueRowsOnly(a: Account, cfg: Config, batch: seq<DueRetry>, newId: OpId, now: real,
                                       answer: Target -> CallResult, rank: Target -> nat)
    requires newId !in a.ops && Given(a, batch) && IsDueBatch(a.rows, now, batch)
    ensures forall t :: Targets(batch, t) <==> t in a.rows && ComesDue(a.rows[t], now)
    ensures
      var after := RetryBatch(a, cfg, batch, newId, now, answer, rank).0;
      forall t | t in a.rows && !ComesDue(a.rows[t], now) :: t in after.rows && after.rows[t] == a.rows[t]
  {
    forall t
      ensures Targets(batch, t) <==> t in a.rows && ComesDue(a.rows[t], now)
    {
      BatchHoldsDueRows(a.rows, now, batch, t);
    }
    forall t | t in a.rows && !ComesDue(a.rows[t], now)
      ensures
        var after := RetryBatch(a, cfg, batch, newId, now, answer, rank).0;
        t in after.rows && after.rows[t] == a.rows[t]
    {
      ScanLeavesOthers(a, cfg, batch, newId, now, answer, rank, t);
    }
  }

  /** One visit of a failed row does not depend on what other retries may have changed of
      the user. */
  lemma SameVisit(a: Account, next: Account, cfg: Config, call: SyncCall)
    requires call.target.Some? && call.action.None?
    requires call.target.value in a.rows && call.target.value in cfg.connectors
    requires a.rows[call.target.value].state.Failed?
    requires next.desired == a.desired && next.isDisabled == a.isDisabled && next.decision == a.decision
    requires !a.desired.WantDelete? ==> next.deletedAt == a.deletedAt
    ensures
      var t := call.target.value;
      Visited(Context(next, call), cfg, cfg.connectors[t], a.rows[t], call.answer(t))
      == Visited(Context(a, call), cfg, cfg.connectors[t], a.rows[t], call.answer(t))
  {
    assert LifecycleOperationFor(Context(next, call), a.rows[call.target.value])
        == LifecycleOperationFor(Context(a, call), a.rows[call.target.value]);
  }

  /** An entry's own retry leaves its row the same whether it comes first or after another. */
  lemma LaterRetrySame(a: Account, cfg: Config, first: DueRetry, d: DueRetry, call: SyncCall, later: SyncCall)
    requires Inv(a) && !a.isRoot && call.newId !in a.ops && Retryable(a, first) && Retryable(a, d)
    requires first.target != d.target
    requires call == RetryCall(first, call.newId, call.now, call.answer, call.rank)
    requires later == RetryCall(d, call.newId, call.now, call.answer, call.rank)
    ensures
      var next := SyncSpec(a, cfg, call).0;
      && later.newId !in next.ops && d.target in SyncSpec(next, cfg, later).0.rows
      && d.target in SyncSpec(a, cfg, later).0.rows
      && SyncSpec(next, cfg, later).0.rows[d.target] == SyncSpec(a, cfg, later).0.rows[d.target]
  {
    var next := SyncSpec(a, cfg, call).0;
    RetryKeepsOthers(a, cfg, first, d, call, later);
    RetryKeepsContext(a, cfg, first, call);
    SyncKeepsInv(a, cfg, call);
    DueRetryRuns(a, cfg, d, later);
    DueRetryRuns(next, cfg, d, later);
    RetriedRow(a, cfg, d, later);
    RetriedRow(next, cfg, d, later);
    if d.target in cfg.connectors {
      SameVisit(a, next, cfg, later);
    }
  }

  /** A scan that comes to its end has run every entry's retry exactly once: its row is what
      that one retry leaves, whatever the other entries did. */
  lemma {:induction false} FinishedScanRunsEach(a: Account, cfg: Config, batch: seq<DueRetry>, newId: OpId, now: real,
                                                answer: Target -> CallResult, rank: Target -> nat, k: nat)
    requires Inv(a) && !a.isRoot && newId !in a.ops && k < |batch|
    requires forall i, j | 0 <= i < j < |batch| :: batch[i].target != batch[j].target
    requires forall d | d in batch :: ReadFrom(a, d)
    requires RetryBatch(a, cfg, batch, newId, now, answer, rank).1
    ensures
      var after := RetryBatch(a, cfg, batch, newId, now, answer, rank).0;
      var once := SyncSpec(a, cfg, RetryCall(batch[k], newId, now, answer, rank)).0;
      var t := batch[k].target;
      t in after.rows && t in once.rows && after.rows[t] == once.rows[t]
    decreases |batch|
  {
    FinishedMeansRetryable(a, cfg, batch, newId, now, answer, rank);
    var next := FinishedTail(a, cfg, batch, newId, now, answer, rank);
    if k > 0 {
      assert batch[1..][k - 1] == batch[k] && batch[0] in batch && batch[k] in batch;
      FinishedScanRunsEach(next, cfg, batch[1..], newId, now, answer, rank, k - 1);
      LaterRetrySame(a, cfg, batch[0], batch[k], RetryCall(batch[0], newId, now, answer, rank),
                     RetryCall(batch[k], newId, now, answer, rank));
    } else {
      RestLeavesFirst(a, cfg, batch, newId, now, answer, rank);
    }
  }

  /** A scan that comes to its end is its first retry and the rest of the scan. */
  lemma FinishedTail(a: Account, cfg: Config, batch: seq<DueRetry>, newId: OpId, now: real,
                     answer: Target -> CallResult, rank: Target -> nat)
    returns (next: Account)
    requires Inv(a) && !a.isRoot && newId !in a.ops && batch != []
    requires forall i, j | 0 <= i < j < |batch| :: batch[i].target != batch[j].target
    requires forall d | d in batch :: Retryable(a, d)
    requires RetryBatch(a, cfg, batch, newId, now, answer, rank).1
    ensures next == SyncSpec(a, cfg, RetryCall(batch[0], newId, now, answer, rank)).0
    ensures Inv(next) && !next.isRoot && newId !in next.ops && forall d | d in batch[1..] :: Retryable(next, d)
    ensures RetryBatch(next, cfg, batch[1..], newId, now, answer, rank).1
    ensures RetryBatch(a, cfg, batch, newId, now, answer, rank).0
         == RetryBatch(next, cfg, batch[1..], newId, now, answer, rank).0
  {
    assert batch[0..] == batch;
    next := SyncSpec(a, cfg, RetryCall(batch[0], newId, now, answer, rank)).0;
    RetryKeepsBatch(a, cfg, batch, newId, now, answer, rank);
    RetryBatchUnfolds(a, cfg, batch, 0, newId, now, answer, rank);
  }

  lemma {:induction false} RestLeavesFirst(a: Account, cfg: Config, batch: seq<DueRetry>, newId: OpId, now: real,
                                           answer: Target -> CallResult, rank: Target -> nat)
    requires Inv(a) && !a.isRoot && newId !in a.ops && batch != []
    requires forall i, j | 0 <= i < j < |batch| :: batch[i].target != batch[j].target
    requires forall d | d in batch :: Retryable(a, d)
    ensures
      var next := SyncSpec(a, cfg, RetryCall(batch[0], newId, now, answer, rank)).0;
      var t := batch[0].target;
      && newId !in next.ops && t in next.rows
      && var after := RetryBatch(next, cfg, batch[1..], newId, now, answer, rank).0;
      t in after.rows && after.rows[t] == next.rows[t]
  {
    var call := RetryCall(batch[0], newId, now, answer, rank);
    assert batch[0] in batch;
    RetryKeepsBatch(a, cfg, batch, newId, now, answer, rank);
    GivenRunKeepsKeys(a, cfg, call);
    ScanLeavesOthers(SyncSpec(a, cfg, call).0, cfg, batch[1..], newId, now, answer, rank, batch[0].target);
  }

  /** What a scan at `now` does to one row: nothing before the row's retry comes due; once it
      has, a scan that comes to its end asks the target exactly what one retry asks. */
  lemma {:induction false} ScanAsksIff(a: Account, cfg: Config, batch: seq<DueRetry>, newId: OpId, now: real,
                                       answer: Target -> CallResult, rank: Target -> nat, t: Target,
                                       operation: RemoteOperation)
    requires Inv(a) && !a.isRoot && newId !in a.ops && t in a.rows
    requires IsDueBatch(a.rows, now, batch)
    ensures t in RetryBatch(a, cfg, batch, newId, now, answer, rank).0.rows
    ensures !ComesDue(a.rows[t], now) ==>
      RetryBatch(a, cfg, batch, newId, now, answer, rank).0.rows[t] == a.rows[t]
    ensures ComesDue(a.rows[t], now) && RetryBatch(a, cfg, batch, newId, now, answer, rank).1 ==>
      var call := SyncCall(None, Some(t), OtherActor, a.rows[t].operationId, newId, now, answer, rank);
      (WasAsked(a.rows[t], RetryBatch(a, cfg, batch, newId, now, answer, rank).0.rows[t], operation)
       <==> Asks(a, cfg, call, a.rows[t], t, operation))
  {
    BatchHoldsDueRows(a.rows, now, batch, t);
    ScanKeepsRow(a, cfg, batch, newId, now, answer, rank, t);
    if !ComesDue(a.rows[t], now) {
      ScanLeavesOthers(a, cfg, batch, newId, now, answer, rank, t);
    } else if RetryBatch(a, cfg, batch, newId, now, answer, rank).1 {
      var k :| 0 <= k < |batch| && batch[k] == DueRetry(t, a.rows[t].operationId);
      FinishedMeansRetryable(a, cfg, batch, newId, now, answer, rank);
      FinishedScanRunsEach(a, cfg, batch, newId, now, answer, rank, k);
      assert batch[k] in batch;
      OneRetryAsks(a, cfg, batch[k], RetryCall(batch[k], newId, now, answer, rank), operation);
    }
  }

  lemma OneRetryAsks(a: Account, cfg: Config, due: DueRetry, call: SyncCall, operation: RemoteOperation)
    requires Inv(a) && !a.isRoot && call.newId !in a.ops && Retryable(a, due)
    requires call == RetryCall(due, call.newId, call.now, call.answer, call.rank)
    ensures due.target in SyncSpec(a, cfg, call).0.rows
    ensures WasAsked(a.rows[due.target], SyncSpec(a, cfg, call).0.rows[due.target], operation)
       <==> Asks(a, cfg, call, a.rows[due.target], due.target, operation)
  {
    DueRetryRuns(a, cfg, due, call);
    assert WithLegacyRows(a.rows, cfg) == a.rows;
    RunAsksIff(a, cfg, call, due.target, operation);
    assert ComesToIt(a, cfg, call, a.rows, due.target);
  }

  /** ... and stores what it answers. */
  lemma {:induction false} ScanStores(a: Account, cfg: Config, batch: seq<DueRetry>, newId: OpId, now: real,
                                      answer: Target -> CallResult, rank: Target -> nat, t: Target,
                                      operation: RemoteOperation)
    requires Inv(a) && !a.isRoot && newId !in a.ops && t in a.rows && ComesDue(a.rows[t], now)
    requires IsDueBatch(a.rows, now, batch)
    requires RetryBatch(a, cfg, batch, newId, now, answer, rank).1
    requires Intends(a, SyncCall(None, Some(t), OtherActor, a.rows[t].operationId, newId, now, answer, rank), a.rows[t],
                     operation)
    ensures t in RetryBatch(a, cfg, batch, newId, now, answer, rank).0.rows
    ensures
      var call := SyncCall(None, Some(t), OtherActor, a.rows[t].operationId, newId, now, answer, rank);
      Leaves(a, cfg, call, t, a.rows[t], RetryBatch(a, cfg, batch, newId, now, answer, rank).0.rows[t], true, operation)
  {
    BatchHoldsDueRows(a.rows, now, batch, t);
    var k :| 0 <= k < |batch| && batch[k] == DueRetry(t, a.rows[t].operationId);
    FinishedMeansRetryable(a, cfg, batch, newId, now, answer, rank);
    FinishedScanRunsEach(a, cfg, batch, newId, now, answer, rank, k);
    assert batch[k] in batch;
    OneRetryStores(a, cfg, batch[k], RetryCall(batch[k], newId, now, answer, rank), operation);
  }

  lemma OneRetryStores(a: Account, cfg: Config, due: DueRetry, call: SyncCall, operation: RemoteOperation)
    requires Inv(a) && !a.isRoot && call.newId !in a.ops && Retryable(a, due)
    requires call == RetryCall(due, call.newId, call.now, call.answer, call.rank)
    requires due.target in a.rows && Intends(a, call, a.rows[due.target], operation)
    ensures due.target in SyncSpec(a, cfg, call).0.rows
    ensures Leaves(a, cfg, call, due.target, a.rows[due.target], SyncSpec(a, cfg, call).0.rows[due.target], true,
                   operation)
  {
    DueRetryRuns(a, cfg, due, call);
    assert WithLegacyRows(a.rows, cfg) == a.rows;
    RunStores(a, cfg, call, due.target, operation);
    assert ComesToIt(a, cfg, call, a.rows, due.target);
  }

  lemma {:induction false} ScanKeepsRow(a: Account, cfg: Config, batch: seq<DueRetry>, newId: OpId, now: real,
                                        answer: Target -> CallResult, rank: Target -> nat, t: Target)
    requires newId !in a.ops && t in a.rows
    ensures t in RetryBatch(a, cfg, batch, newId, now, answer, rank).0.rows
    decreases |batch|
  {
    if batch != [] {
      var call := RetryCall(batch[0], newId, now, answer, rank);
      StepKeepsTargets(a, cfg, Synchronise(call));
      var next := SyncSpec(a, cfg, call).0;
      if newId !in next.ops {
        ScanKeepsRow(next, cfg, batch[1..], newId, now, answer, rank, t);
      }
    }
  }

  /** Backoff and scan together: after the k-th consecutive failure of a row at time s, scans
      before s + Delay(k) leave the row alone, and a scan at or after it has it in its batch. */
  lemma {:induction false} StreakScannedIff(rows: map<Target, Row>, t: Target, visits: seq<RunContext>, cfg: Config,
                                            connector: Connector, row: Row, now: real, batch: seq<DueRetry>)
    requires connector.ensureSupported && connector.disableSupported && connector.deleteSupported
    requires !row.state.AwaitingCredentials? && row.attemptCount == 0 && !row.isRetired
    requires 1 <= |visits| <= LAST_ATTEMPT && t in rows && rows[t] == AfterFailures(visits, cfg, connector, row)
    requires IsDueBatch(rows, now, batch)
    ensures Targets(batch, t) <==> now >= Last(visits).now + Delay(cfg.retryBase, cfg.retryMax, |visits|)
  {
    FailureStreakBacksOff(visits, cfg, connector, row);
    FailuresRetireNothing(visits, cfg, connector, row);
    BatchHoldsDueRows(rows, now, batch, t);
  }

  lemma {:induction false} FailuresRetireNothing(visits: seq<RunContext>, cfg: Config, connector: Connector, row: Row)
    ensures AfterFailures(visits, cfg, connector, row).isRetired == row.isRetired
    decreases |visits|
  {
    if visits != [] {
      FailuresRetireNothing(Front(visits), cfg, connector, row);
    }
  }
}
