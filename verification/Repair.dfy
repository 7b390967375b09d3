/** Reconciliation runs: counting the findings of a preview, approving it, and accounting
    for its repair (na_sso/reconcile.py). */
module Repair {
  import opened Prelude
  import opened Backoff
  import opened Reconciliation

  type Pair = (int, string)

  /** What one inspection of an assigned account brought back. */
  datatype Inspection = Inspection(userId: int, username: string, targetId: string, report: Report)

  datatype RepairStatus = NotRequested | Running | BlockedCredentials | ConflictFound | Repaired | RepairFailed

  datatype Finding = Finding(
    userId: int, targetId: string, field: Field, state: DriftState,
    desired: Value, actual: Value, repair: RepairStatus)
  {
    function Pair(): Pair { (userId, targetId) }
  }

  datatype RunStatus =
    | Discovering | Previewed | RetryingDiscovery | Approved | RunningRepair
    | Completed | PartiallyFailed | Failed

  datatype Run = Run(
    scheduled: bool, status: RunStatus, attemptCount: nat, nextAttemptAt: Option<real>,
    total: nat, drifted: nat, unknown: nat, destructive: nat)

  datatype ParentStatus = ParentQueued | ParentRunning | ParentSucceeded | ParentPartiallyFailed | ParentFailed

  datatype Parent = Parent(status: ParentStatus, total: nat, completed: nat, failed: nat)

  // ---- counting a preview ----

  predicate WellFormed(report: Report) {
    |report.fields| == 6 && forall i | 0 <= i < 6 :: report.fields[i].field == ALL_FIELDS[i]
  }

  /** The identity comparison is drift although absence is what is wanted. */
  predicate Destructive(report: Report)
    requires WellFormed(report)
  {
    report.fields[0].state.Drift? && report.fields[0].desired == Text(ABSENT)
  }

  datatype Tally = Tally(drifted: nat, unknown: nat, destructive: nat)

  predicate AllWellFormed(inspections: seq<Inspection>) {
    forall i | 0 <= i < |inspections| :: WellFormed(inspections[i].report)
  }

  function CountDrifted(inspections: seq<Inspection>): nat {
    if inspections == [] then 0
    else CountDrifted(Front(inspections)) + if Last(inspections).report.Status().Drifted? then 1 else 0
  }

  function CountUnknown(inspections: seq<Inspection>): nat {
    if inspections == [] then 0
    else CountUnknown(Front(inspections)) + if Last(inspections).report.Status().Unreadable? then 1 else 0
  }

  function CountDestructive(inspections: seq<Inspection>): nat
    requires AllWellFormed(inspections)
  {
    if inspections == [] then 0
    else CountDestructive(Front(inspections)) + if Destructive(Last(inspections).report) then 1 else 0
  }

  function FindingsOf(inspection: Inspection): seq<Finding> {
    var fields := inspection.report.fields;
    seq(|fields|, i requires 0 <= i < |fields| =>
      Finding(inspection.userId, inspection.targetId, fields[i].field, fields[i].state,
              fields[i].desired, fields[i].actual, NotRequested))
  }

  function AllFindings(inspections: seq<Inspection>): seq<Finding> {
    if inspections == [] then [] else AllFindings(Front(inspections)) + FindingsOf(Last(inspections))
  }

  method TallyInspections(inspections: seq<Inspection>) returns (tally: Tally, findings: seq<Finding>)
    requires AllWellFormed(inspections)
    ensures tally == Tally(CountDrifted(inspections), CountUnknown(inspections), CountDestructive(inspections))
    ensures findings == AllFindings(inspections)
  {
    var drifted, unknown, destructive := 0, 0, 0;
    findings := [];
    for i := 0 to |inspections|
      invariant drifted == CountDrifted(inspections[..i]) && unknown == CountUnknown(inspections[..i])
      invariant destructive == CountDestructive(inspections[..i])
      invariant findings == AllFindings(inspections[..i])
    {
      assert Front(inspections[..i + 1]) == inspections[..i];
      var report := inspections[i].report;
      if report.Status().Drifted? {
        drifted := drifted + 1;
      } else if report.Status().Unreadable? {
        unknown := unknown + 1;
      }
      var identity := report.fields[0];
      if identity.state.Drift? && identity.desired == Text(ABSENT) {
        destructive := destructive + 1;
      }
      findings := findings + FindingsOf(inspections[i]);
    }
    assert inspections[..|inspections|] == inspections;
    tally := Tally(drifted, unknown, destructive);
  }

  /** Deletions are among the drifted targets, and no target is both drifted and unread. */
  lemma {:induction false} TallyConserves(inspections: seq<Inspection>)
    requires AllWellFormed(inspections)
    ensures CountDestructive(inspections) <= CountDrifted(inspections)
    ensures CountDrifted(inspections) + CountUnknown(inspections) <= |inspections|
  {
    if inspections != [] {
      TallyConserves(Front(inspections));
      var report := Last(inspections).report;
      if Destructive(report) {
        assert report.fields[0] in report.fields;
      }
    }
  }

  datatype Kind = Drifting | Unread | Removing

  /** A report drifts where some field does; it is unread where none drifts and some field
      could not be read; it asks for a removal where absence is wanted and the identity drifts. */
  predicate IsA(report: Report, kind: Kind) {
    match kind
    case Drifting => exists i | 0 <= i < |report.fields| :: report.fields[i].state == Drift
    case Unread =>
      && (forall i | 0 <= i < |report.fields| :: report.fields[i].state != Drift)
      && (exists i | 0 <= i < |report.fields| :: report.fields[i].state == Unknown)
    case Removing =>
      report.fields != [] && report.fields[0].state == Drift && report.fields[0].desired == Text("absent")
  }

  function Those(inspections: seq<Inspection>, kind: Kind): set<nat> {
    set i: nat | i < |inspections| && IsA(inspections[i].report, kind)
  }

  lemma {:induction false} OneMore(inspections: seq<Inspection>, kind: Kind)
    requires inspections != []
    ensures |Those(inspections, kind)|
         == |Those(Front(inspections), kind)| + if IsA(Last(inspections).report, kind) then 1 else 0
  {
    var n := |inspections| - 1;
    var all, before := Those(inspections, kind), Those(Front(inspections), kind);
    forall i: nat
      ensures i in all <==> i in before || (i == n && IsA(inspections[n].report, kind))
    {
      if i < n {
        assert Front(inspections)[i] == inspections[i];
      }
    }
    assert all == if IsA(inspections[n].report, kind) then before + {n} else before;
  }

  lemma StatusIsRaw(report: Report)
    ensures report.Status().Drifted? <==> IsA(report, Drifting)
    ensures report.Status().Unreadable? <==> IsA(report, Unread)
  {
    forall c | c in report.fields
      ensures exists i | 0 <= i < |report.fields| :: report.fields[i] == c
    {
    }
  }

  /** The three counts are the numbers of inspections whose report drifts, is unread, or asks
      for a removal. */
  lemma {:induction false} CountsAreExact(inspections: seq<Inspection>)
    requires AllWellFormed(inspections)
    ensures CountDrifted(inspections) == |Those(inspections, Drifting)|
    ensures CountUnknown(inspections) == |Those(inspections, Unread)|
    ensures CountDestructive(inspections) == |Those(inspections, Removing)|
  {
    if inspections != [] {
      CountsAreExact(Front(inspections));
      OneMore(inspections, Drifting);
      OneMore(inspections, Unread);
      OneMore(inspections, Removing);
      StatusIsRaw(Last(inspections).report);
    }
  }

  /** The findings are the fields of the reports, six for each, in order, with the values the
      report shows and no repair asked for. */
  lemma {:induction false} FindingsAreFields(inspections: seq<Inspection>, i: nat, k: nat)
    requires AllWellFormed(inspections) && i < |inspections| && k < 6
    ensures |AllFindings(inspections)| == 6 * |inspections|
    ensures
      var field := inspections[i].report.fields[k];
      AllFindings(inspections)[6 * i + k]
      == Finding(inspections[i].userId, inspections[i].targetId, field.field, field.state, field.desired,
                 field.actual, NotRequested)
  {
    if i < |inspections| - 1 {
      FindingsAreFields(Front(inspections), i, k);
    } else if |inspections| > 1 {
      FindingsAreFields(Front(inspections), 0, 0);
    }
  }

  /** A target is counted as destructive exactly when its account is unwanted and present,
      or when a wanted user called "absent" is found under another name. */
  lemma DestructiveIff(targetId: string, targetName: string, s: Subject, c: Capabilities, o: Observation,
                       required: set<string>)
    ensures WellFormed(CompareSpec(targetId, targetName, s, c, o, required))
    ensures Destructive(CompareSpec(targetId, targetName, s, c, o, required)) <==>
      if s.wanted then s.username == ABSENT && o.present == Some(true) && o.username.Some? && o.username.value != ABSENT
      else o.present == Some(true)
  {
  }

  // ---- the preview step and its approval ----

  /** A finished discovery: only a scheduled one with unread targets is retried, and only
      up to the configured number of attempts. */
  function Discovered(run: Run, inspections: seq<Inspection>, maxAttempts: nat, base: real, max: real, now: real): Run
    requires AllWellFormed(inspections) && run.attemptCount >= 1
  {
    var counted := run.(total := |inspections|, drifted := CountDrifted(inspections),
                        unknown := CountUnknown(inspections), destructive := CountDestructive(inspections));
    if run.scheduled && counted.unknown > 0 then
      if run.attemptCount >= maxAttempts then counted.(status := Failed, nextAttemptAt := None)
      else counted.(status := RetryingDiscovery, nextAttemptAt := Some(now + Delay(base, max, run.attemptCount)))
    else counted.(status := Previewed, nextAttemptAt := None)
  }

  /** A run takes its first step before it looks at any target; one over too many users fails
      with the counts it had and no findings. */
  function RefreshSpec(before: Run, tooMany: bool, inspections: seq<Inspection>, maxAttempts: nat, base: real,
                       max: real, now: real): (Run, seq<Finding>)
    requires AllWellFormed(inspections)
  {
    var begun := before.(status := Discovering, attemptCount := before.attemptCount + 1);
    if tooMany then (begun.(status := Failed, nextAttemptAt := None), [])
    else (Discovered(begun, inspections, maxAttempts, base, max, now), AllFindings(inspections))
  }

  method RefreshReconciliation(before: Run, users: nat, maxUsers: nat, inspections: seq<Inspection>,
                               maxAttempts: nat, base: real, max: real, now: real)
    returns (run: Run, findings: seq<Finding>)
    requires AllWellFormed(inspections)
    ensures (run, findings) == RefreshSpec(before, users > maxUsers, inspections, maxAttempts, base, max, now)
  {
    run := before.(status := Discovering);
    run := run.(attemptCount := run.attemptCount + 1);
    findings := [];
    if users > maxUsers {
      run := run.(status := Failed, nextAttemptAt := None);
      return;
    }
    var tally;
    tally, findings := TallyInspections(inspections);
    run := run.(total := |inspections|, drifted := tally.drifted);
    run := run.(unknown := tally.unknown, destructive := tally.destructive);
    if run.scheduled && tally.unknown > 0 {
      if run.attemptCount >= maxAttempts {
        run := run.(status := Failed, nextAttemptAt := None);
      } else {
        run := run.(status := RetryingDiscovery, nextAttemptAt := Some(now + Delay(base, max, run.attemptCount)));
      }
    } else {
      run := run.(status := Previewed, nextAttemptAt := None);
    }
  }

  lemma UnreadIff(inspections: seq<Inspection>)
    requires AllWellFormed(inspections)
    ensures CountUnknown(inspections) > 0 <==> Those(inspections, Unread) != {}
  {
    CountsAreExact(inspections);
  }

  /** How a discovery ends: it fails over too many users or, when scheduled, if targets stay
      unread at its last attempt; a scheduled one with unread targets is retried before that,
      at the capped backoff of its attempt; every other one is previewed. */
  lemma {:induction false} DiscoveryEnds(before: Run, tooMany: bool, inspections: seq<Inspection>, maxAttempts: nat,
                                         base: real, max: real, now: real)
    requires AllWellFormed(inspections)
    ensures
      var run := RefreshSpec(before, tooMany, inspections, maxAttempts, base, max, now).0;
      var unread := before.scheduled && Those(inspections, Unread) != {};
      && run.attemptCount == before.attemptCount + 1 && run.scheduled == before.scheduled
      && (run.status == Failed <==> tooMany || (unread && before.attemptCount + 1 >= maxAttempts))
      && (run.status == RetryingDiscovery <==> !tooMany && unread && before.attemptCount + 1 < maxAttempts)
      && (run.status == Previewed <==> !tooMany && !unread)
      && run.nextAttemptAt == (if run.status == RetryingDiscovery
                               then Some(now + Delay(base, max, before.attemptCount + 1)) else None)
  {
    UnreadIff(inspections);
  }

  /** What a discovery counts; one over too many users keeps the counts it had. */
  lemma {:induction false} DiscoveryCounts(before: Run, tooMany: bool, inspections: seq<Inspection>, maxAttempts: nat,
                                           base: real, max: real, now: real)
    requires AllWellFormed(inspections)
    ensures
      var (run, findings) := RefreshSpec(before, tooMany, inspections, maxAttempts, base, max, now);
      && findings == (if tooMany then [] else AllFindings(inspections))
      && run.total == (if tooMany then before.total else |inspections|)
      && run.drifted == (if tooMany then before.drifted else |Those(inspections, Drifting)|)
      && run.unknown == (if tooMany then before.unknown else |Those(inspections, Unread)|)
      && run.destructive == (if tooMany then before.destructive else |Those(inspections, Removing)|)
  {
    CountsAreExact(inspections);
  }

  datatype ApprovalError = InvalidToken | AlreadyHandled | NothingToRepair | NeedsDestructiveConfirmation

  function ApproveSpec(run: Run, tokenMatches: bool, confirmed: bool): Result<(Run, Parent), ApprovalError> {
    if !tokenMatches then Failure(InvalidToken)
    else if run.status != Previewed then Failure(AlreadyHandled)
    else if run.drifted == 0 then Failure(NothingToRepair)
    else if run.destructive > 0 && !confirmed then Failure(NeedsDestructiveConfirmation)
    else Success((run.(status := Approved), Parent(ParentQueued, run.drifted, 0, 0)))
  }

  /** A preview is approved if and only if the token is right, it has drift, and removals
      among it are confirmed; the parent operation then counts the drifted targets. */
  lemma ApprovedIff(run: Run, tokenMatches: bool, confirmed: bool)
    ensures
      var approval := ApproveSpec(run, tokenMatches, confirmed);
      && (approval.Success? <==>
            tokenMatches && run.status == Previewed && run.drifted > 0 && (run.destructive == 0 || confirmed))
      && (approval.Success? ==>
            && approval.value.0 == run.(status := Approved)
            && approval.value.1.status == ParentQueued && approval.value.1.total == run.drifted
            && approval.value.1.completed == 0 && approval.value.1.failed == 0)
      && (approval == Failure(InvalidToken) <==> !tokenMatches)
      && (approval == Failure(AlreadyHandled) <==> tokenMatches && run.status != Previewed)
      && (approval == Failure(NeedsDestructiveConfirmation) <==>
            tokenMatches && run.status == Previewed && run.drifted > 0 && run.destructive > 0 && !confirmed)
  {
  }

  // ---- repair groups ----

  function DriftPairs(findings: seq<Finding>): set<Pair> {
    set i | 0 <= i < |findings| && findings[i].state.Drift? :: findings[i].Pair()
  }

  predicate NoDuplicates<T(==)>(s: seq<T>) {
    forall i, j | 0 <= i < j < |s| :: s[i] != s[j]
  }

  /** One group per drifted account and target, in the order its first finding comes up. */
  method RepairGroups(findings: seq<Finding>) returns (groups: seq<Pair>)
    ensures NoDuplicates(groups)
    ensures forall p :: p in groups <==> p in DriftPairs(findings)
  {
    groups := [];
    for i := 0 to |findings|
      invariant NoDuplicates(groups)
      invariant forall p :: p in groups <==>
        exists k | 0 <= k < i :: findings[k].state.Drift? && findings[k].Pair() == p
    {
      if findings[i].state.Drift? && findings[i].Pair() !in groups {
        groups := groups + [findings[i].Pair()];
      }
    }
  }

  function Accounts(inspections: seq<Inspection>): seq<Pair> {
    seq(|inspections|, i requires 0 <= i < |inspections| => (inspections[i].userId, inspections[i].targetId))
  }

  lemma DriftPairsAppend(findings: seq<Finding>, more: seq<Finding>)
    ensures DriftPairs(findings + more) == DriftPairs(findings) + DriftPairs(more)
  {
    var all := findings + more;
    forall p | p in DriftPairs(findings) + DriftPairs(more)
      ensures p in DriftPairs(all)
    {
      if p in DriftPairs(findings) {
        var i :| 0 <= i < |findings| && findings[i].state.Drift? && findings[i].Pair() == p;
        assert all[i] == findings[i];
      } else {
        var i :| 0 <= i < |more| && more[i].state.Drift? && more[i].Pair() == p;
        assert all[|findings| + i] == more[i];
      }
    }
  }

  lemma DriftPairsOfOne(inspection: Inspection)
    ensures DriftPairs(FindingsOf(inspection))
         == if inspection.report.Status().Drifted? then {(inspection.userId, inspection.targetId)} else {}
  {
    var findings := FindingsOf(inspection);
    var fields := inspection.report.fields;
    forall i | 0 <= i < |findings|
      ensures findings[i].Pair() == (inspection.userId, inspection.targetId)
      ensures findings[i].state == fields[i].state && fields[i] in fields
    {
    }
    if inspection.report.Status().Drifted? {
      var c :| c in fields && c.state.Drift?;
      var i :| 0 <= i < |fields| && fields[i] == c;
      assert findings[i].Pair() in DriftPairs(findings);
    }
  }

  /** There are as many repair groups as drifted targets. */
  lemma {:induction false} GroupsMatchDrifted(inspections: seq<Inspection>)
    requires NoDuplicates(Accounts(inspections))
    ensures |DriftPairs(AllFindings(inspections))| == CountDrifted(inspections)
    ensures forall p | p in DriftPairs(AllFindings(inspections)) :: p in Accounts(inspections)
  {
    if inspections != [] {
      var before := Front(inspections);
      var last := Last(inspections);
      var pair := (last.userId, last.targetId);
      assert Accounts(inspections) == Accounts(before) + [pair];
      assert forall i | 0 <= i < |before| :: Accounts(before)[i] == Accounts(inspections)[i];
      GroupsMatchDrifted(before);
      DriftPairsAppend(AllFindings(before), FindingsOf(last));
      DriftPairsOfOne(last);
      assert pair !in Accounts(before) by {
        forall i | 0 <= i < |before|
          ensures Accounts(before)[i] != pair
        {
          assert Accounts(inspections)[i] != Accounts(inspections)[|before|];
        }
      }
    }
  }

  // ---- executing the repair ----

  /** What the repair of one group meets: does the user and the connector still exist, is a
      password staged, is the operation granted, is its sync interrupted by an exception, and
      does it end in success? */
  datatype Circumstances = Circumstances(
    userExists: bool, connectorExists: bool, hasSecret: bool, granted: bool, interrupted: bool,
    succeeded: bool)

  /** A missing remote identity cannot be created without a staged password. */
  predicate MissingIdentity(findings: seq<Finding>, pair: Pair) {
    exists f :: f in findings && f.Pair() == pair && f.state.Drift? && f.field.Identity? && f.actual == Text(ABSENT)
  }

  function Outcome(c: Circumstances, missingIdentity: bool): RepairStatus {
    if !c.userExists || !c.connectorExists then RepairFailed
    else if missingIdentity && !c.hasSecret then BlockedCredentials
    else if !c.granted then ConflictFound
    else if c.succeeded then Repaired
    else RepairFailed
  }

  function GroupOutcome(findings: seq<Finding>, pair: Pair, meets: Pair -> Circumstances): RepairStatus {
    Outcome(meets(pair), MissingIdentity(findings, pair))
  }

  function Marked(findings: seq<Finding>, pair: Pair, status: RepairStatus): seq<Finding> {
    seq(|findings|, i requires 0 <= i < |findings| =>
      if findings[i].Pair() == pair && findings[i].state.Drift? then findings[i].(repair := status) else findings[i])
  }

  function RepairedGroups(findings: seq<Finding>, groups: seq<Pair>, meets: Pair -> Circumstances): set<Pair> {
    set p | p in groups && GroupOutcome(findings, p, meets) == Repaired
  }

  method MarkGroup(before: seq<Finding>, pair: Pair, status: RepairStatus) returns (findings: seq<Finding>)
    ensures findings == Marked(before, pair, status)
  {
    findings := before;
    for i := 0 to |findings|
      invariant |findings| == |before|
      invariant forall k | 0 <= k < |before| ::
        findings[k] == (if k < i then Marked(before, pair, status)[k] else before[k])
    {
      if findings[i].Pair() == pair && findings[i].state.Drift? {
        findings := findings[i := findings[i].(repair := status)];
      }
    }
  }

  /** The findings once every group has been worked on. */
  function Settled(findings: seq<Finding>, groups: seq<Pair>, meets: Pair -> Circumstances): seq<Finding> {
    seq(|findings|, i requires 0 <= i < |findings| =>
      if findings[i].state.Drift? && findings[i].Pair() in groups
      then findings[i].(repair := GroupOutcome(findings, findings[i].Pair(), meets)) else findings[i])
  }

  predicate Executable(run: Run) {
    run.status == Approved || run.status == RunningRepair
  }

  /** One group per drifted account and target. */
  ghost predicate GroupsOf(groups: seq<Pair>, findings: seq<Finding>) {
    NoDuplicates(groups) && forall p :: p in groups <==> p in DriftPairs(findings)
  }

  /** How a repair over these groups ends: every drift finding has its group's outcome, each
      group is counted once, and the two counters decide the status of the run and of its
      parent operation. */
  ghost predicate RepairEnds(before: Run, parentBefore: Parent, findingsBefore: seq<Finding>, groups: seq<Pair>,
                             meets: Pair -> Circumstances, run: Run, parent: Parent, findings: seq<Finding>)
  {
    var repaired := RepairedGroups(findingsBefore, groups, meets);
    && findings == Settled(findingsBefore, groups, meets)
    && parent.completed == |repaired| && parent.failed == |groups| - |repaired|
    && parent.total == parentBefore.total
    && (parent.status == ParentSucceeded <==> run.status == Completed)
    && (parent.status == ParentPartiallyFailed <==> run.status == PartiallyFailed)
    && (run.status == Completed <==> |repaired| == |groups|)
    && (run.status == Failed <==> |repaired| == 0 && |groups| > 0)
    && (run.status == PartiallyFailed <==> 0 < |repaired| < |groups|)
    && run == before.(status := run.status)
  }

  /** The group whose sync raises: no handler takes the exception. */
  predicate BreaksOff(findings: seq<Finding>, pair: Pair, meets: Pair -> Circumstances) {
    var c := meets(pair);
    && c.userExists && c.connectorExists && (!MissingIdentity(findings, pair) || c.hasSecret)
    && c.granted && c.interrupted
  }

  /** A repair that breaks off at group k: the groups before it have their outcome, that one
      is running, and so are the run and its parent, whose counters were never set. */
  ghost predicate RepairBreaksOff(before: Run, parentBefore: Parent, findingsBefore: seq<Finding>, groups: seq<Pair>,
                                  k: nat, meets: Pair -> Circumstances, run: Run, parent: Parent,
                                  findings: seq<Finding>)
    requires k < |groups|
  {
    && BreaksOff(findingsBefore, groups[k], meets)
    && (forall j | 0 <= j < k :: !BreaksOff(findingsBefore, groups[j], meets))
    && findings == Marked(Settled(findingsBefore, groups[..k], meets), groups[k], Running)
    && run == before.(status := RunningRepair) && parent == parentBefore.(status := ParentRunning)
  }

  method ExecuteRepair(before: Run, parentBefore: Parent, findingsBefore: seq<Finding>, meets: Pair -> Circumstances)
    returns (run: Run, parent: Parent, findings: seq<Finding>, groups: seq<Pair>)
    ensures GroupsOf(groups, findingsBefore)
    ensures !Executable(before) ==> run == before && parent == parentBefore && findings == findingsBefore
    ensures Executable(before) && (forall k | 0 <= k < |groups| :: !BreaksOff(findingsBefore, groups[k], meets)) ==>
      RepairEnds(before, parentBefore, findingsBefore, groups, meets, run, parent, findings)
    ensures Executable(before) && (exists k | 0 <= k < |groups| :: BreaksOff(findingsBefore, groups[k], meets)) ==>
      exists k: nat | k < |groups| ::
        RepairBreaksOff(before, parentBefore, findingsBefore, groups, k, meets, run, parent, findings)
  {
    var todo := RepairGroups(findingsBefore);
    groups := todo;
    run, parent, findings := before, parentBefore, findingsBefore;
    if !Executable(run) {
      return;
    }
    run := run.(status := RunningRepair);
    parent := parent.(status := ParentRunning);
    var succeeded, failed := 0, 0;
    for i := 0 to |todo|
      invariant |findings| == |findingsBefore|
      invariant succeeded + failed == i
      invariant succeeded == |RepairedGroups(findingsBefore, todo[..i], meets)|
      invariant findings == Settled(findingsBefore, todo[..i], meets)
      invariant forall j | 0 <= j < i :: !BreaksOff(findingsBefore, todo[j], meets)
    {
      var pair := todo[i];
      SettleStep(findingsBefore, todo, i, meets);
      MissingUnaffected(findingsBefore, todo[..i], meets, pair);
      var c := meets(pair);
      var missing := MissingInFindings(findings, pair);
      var status;
      if !c.userExists || !c.connectorExists {
        status := RepairFailed;
        failed := failed + 1;
      } else if missing && !c.hasSecret {
        status := BlockedCredentials;
        failed := failed + 1;
      } else if !c.granted {
        status := ConflictFound;
        failed := failed + 1;
      } else {
        findings := MarkGroup(findings, pair, Running);
        if c.interrupted {
          assert RepairBreaksOff(before, parentBefore, findingsBefore, groups, i, meets, run, parent, findings);
          return;
        }
        status := if c.succeeded then Repaired else RepairFailed;
        if c.succeeded {
          succeeded := succeeded + 1;
        } else {
          failed := failed + 1;
        }
      }
      findings := MarkGroup(findings, pair, status);
    }
    assert todo[..|todo|] == todo;
    RepairedBound(findingsBefore, todo, meets);
    parent := parent.(
      status := if failed == 0 then ParentSucceeded else if succeeded > 0 then ParentPartiallyFailed else ParentFailed,
      completed := succeeded, failed := failed);
    run := run.(status := if failed == 0 then Completed else if succeeded > 0 then PartiallyFailed else Failed);
  }

  method MissingInFindings(findings: seq<Finding>, pair: Pair) returns (missing: bool)
    ensures missing == MissingIdentity(findings, pair)
  {
    missing := false;
    for i := 0 to |findings|
      invariant missing == exists k | 0 <= k < i ::
        findings[k].Pair() == pair && findings[k].state.Drift? && findings[k].field.Identity?
        && findings[k].actual == Text(ABSENT)
    {
      var f := findings[i];
      if f.Pair() == pair && f.state.Drift? && f.field.Identity? && f.actual == Text(ABSENT) {
        missing := true;
      }
    }
  }

  lemma RepairedBound(findings: seq<Finding>, groups: seq<Pair>, meets: Pair -> Circumstances)
    ensures |RepairedGroups(findings, groups, meets)| <= |groups|
    decreases |groups|
  {
    if groups != [] {
      var front := Front(groups);
      RepairedBound(findings, front, meets);
      assert groups == front + [Last(groups)];
      assert RepairedGroups(findings, groups, meets) <= RepairedGroups(findings, front, meets) + {Last(groups)};
      SubsetSize(RepairedGroups(findings, groups, meets), RepairedGroups(findings, front, meets) + {Last(groups)});
    }
  }

  /** Working on groups changes only repair states, so what counts as missing stays put. */
  lemma MissingUnaffected(findings: seq<Finding>, groups: seq<Pair>, meets: Pair -> Circumstances, pair: Pair)
    ensures MissingIdentity(Settled(findings, groups, meets), pair) == MissingIdentity(findings, pair)
  {
    var settled := Settled(findings, groups, meets);
    if f :| f in findings && f.Pair() == pair && f.state.Drift? && f.field.Identity? && f.actual == Text(ABSENT) {
      var i :| 0 <= i < |findings| && findings[i] == f;
      assert settled[i] in settled;
    }
  }

  /** One more group: its own findings take its outcome, all others stay. */
  lemma SettleStep(findings: seq<Finding>, groups: seq<Pair>, i: nat, meets: Pair -> Circumstances)
    requires i < |groups| && NoDuplicates(groups)
    ensures
      var done := Settled(findings, groups[..i], meets);
      var status := GroupOutcome(findings, groups[i], meets);
      && Marked(done, groups[i], status) == Settled(findings, groups[..i + 1], meets)
      && Marked(Marked(done, groups[i], Running), groups[i], status) == Settled(findings, groups[..i + 1], meets)
    ensures |RepairedGroups(findings, groups[..i + 1], meets)|
         == |RepairedGroups(findings, groups[..i], meets)|
            + if GroupOutcome(findings, groups[i], meets) == Repaired then 1 else 0
  {
    var earlier := groups[..i];
    assert groups[..i + 1] == earlier + [groups[i]];
    assert groups[i] !in earlier;
    var more := if GroupOutcome(findings, groups[i], meets) == Repaired then {groups[i]} else {};
    assert RepairedGroups(findings, groups[..i + 1], meets) == RepairedGroups(findings, earlier, meets) + more;
  }

  /** A repair that ends touches nothing of a finding but its repair state, and that only where
      the field drifts: it then holds the outcome of its account and target. */
  lemma RepairedFindings(before: Run, parentBefore: Parent, findingsBefore: seq<Finding>, groups: seq<Pair>,
                         meets: Pair -> Circumstances, run: Run, parent: Parent, findings: seq<Finding>, i: nat)
    requires GroupsOf(groups, findingsBefore) && i < |findingsBefore|
    requires RepairEnds(before, parentBefore, findingsBefore, groups, meets, run, parent, findings)
    ensures |findings| == |findingsBefore|
    ensures
      var f := findingsBefore[i];
      findings[i] == if f.state == Drift
                     then f.(repair := GroupOutcome(findingsBefore, (f.userId, f.targetId), meets)) else f
  {
    if findingsBefore[i].state == Drift {
      assert findingsBefore[i].Pair() in DriftPairs(findingsBefore);
    }
  }

  /** Repair accounting conserves targets, from preview over approval to the end of the
      repair: the repaired and the failed targets add up to the total of the parent
      operation, which is the number of targets the preview found drifted, and of its
      groups; the run completes if and only if all of them are repaired. */
  lemma {:induction false} RepairConserves(before: Run, inspections: seq<Inspection>, maxAttempts: nat, base: real,
                                           max: real, now: real, tokenMatches: bool, confirmed: bool,
                                           meets: Pair -> Circumstances, groups: seq<Pair>, run: Run, parent: Parent,
                                           findings: seq<Finding>)
    requires AllWellFormed(inspections) && NoDuplicates(Accounts(inspections))
    requires
      var (previewed, found) := RefreshSpec(before, false, inspections, maxAttempts, base, max, now);
      var approval := ApproveSpec(previewed, tokenMatches, confirmed);
      && approval.Success? && GroupsOf(groups, found)
      && RepairEnds(approval.value.0, approval.value.1, found, groups, meets, run, parent, findings)
    ensures parent.completed + parent.failed == parent.total == run.drifted == CountDrifted(inspections) == |groups|
    ensures parent.total > 0
    ensures run.status == Completed <==> parent.completed == parent.total
    ensures run.status == Failed <==> parent.completed == 0
    ensures run.status == PartiallyFailed <==> 0 < parent.completed < parent.total
  {
    var found := AllFindings(inspections);
    GroupsMatchDrifted(inspections);
    SizeOfDistinct(groups);
    assert (set p | p in groups) == DriftPairs(found);
    RepairedBound(found, groups, meets);
  }

  lemma {:induction false} SizeOfDistinct<T>(s: seq<T>)
    requires NoDuplicates(s)
    ensures |set x | x in s| == |s|
  {
    if s != [] {
      var front := Front(s);
      SizeOfDistinct(front);
      assert s == front + [Last(s)];
      assert Last(s) !in front;
      assert (set x | x in s) == (set x | x in front) + {Last(s)};
    }
  }

  // ---- what a repair makes of a compared identity ----

  /** What was inspected: a user's identity on a target, compared with what is desired. */
  function Compared(userId: int, targetId: string, targetName: string, s: Subject, c: Capabilities, o: Observation,
                    required: set<string>): Inspection
  {
    Inspection(userId, s.username, targetId, CompareSpec(targetId, targetName, s, c, o, required))
  }

  /** The account is wanted but not there, or is there under the name "absent"; a user who is
      called that is never missing. */
  predicate IsMissing(s: Subject, o: Observation) {
    s.wanted && s.username != "absent"
    && (o.present == Some(false) || (o.present == Some(true) && o.username == Some("absent")))
  }

  lemma MissingIff(userId: int, targetId: string, targetName: string, s: Subject, c: Capabilities, o: Observation,
                   required: set<string>)
    ensures MissingIdentity(FindingsOf(Compared(userId, targetId, targetName, s, c, o, required)), (userId, targetId))
       <==> IsMissing(s, o)
  {
    var report := CompareSpec(targetId, targetName, s, c, o, required);
    var findings := FindingsOf(Compared(userId, targetId, targetName, s, c, o, required));
    ReportsHoldSixFields(targetId, targetName, s, c, o, required);
    assert findings[0] in findings;
    assert findings[0] == Finding(userId, targetId, Identity, report.fields[0].state, report.fields[0].desired,
                                  report.fields[0].actual, NotRequested);
  }

  /** Findings of other accounts and targets do not count. */
  lemma {:induction false} MissingAmong(inspections: seq<Inspection>, pair: Pair)
    requires forall i | 0 <= i < |inspections| :: (inspections[i].userId, inspections[i].targetId) != pair
    ensures !MissingIdentity(AllFindings(inspections), pair)
  {
    if inspections != [] {
      MissingAmong(Front(inspections), pair);
    }
  }

  lemma MissingSplit(findings: seq<Finding>, more: seq<Finding>, pair: Pair)
    ensures MissingIdentity(findings + more, pair) <==> MissingIdentity(findings, pair) || MissingIdentity(more, pair)
  {
    forall f | f in findings || f in more
      ensures f in findings + more
    {
    }
  }

  lemma {:induction false} MissingOfOne(inspections: seq<Inspection>, k: nat)
    requires NoDuplicates(Accounts(inspections)) && k < |inspections|
    ensures
      var pair := (inspections[k].userId, inspections[k].targetId);
      MissingIdentity(AllFindings(inspections), pair) <==> MissingIdentity(FindingsOf(inspections[k]), pair)
  {
    var n, front := |inspections| - 1, Front(inspections);
    var pair := (inspections[k].userId, inspections[k].targetId);
    MissingSplit(AllFindings(front), FindingsOf(inspections[n]), pair);
    forall i | 0 <= i < n
      ensures Accounts(front)[i] == Accounts(inspections)[i] == (inspections[i].userId, inspections[i].targetId)
    {
    }
    if k < n {
      MissingOfOne(front, k);
      assert Accounts(inspections)[k] != Accounts(inspections)[n];
    } else {
      forall i | 0 <= i < n
        ensures (front[i].userId, front[i].targetId) != pair
      {
        assert Accounts(inspections)[i] != Accounts(inspections)[n];
      }
      MissingAmong(front, pair);
    }
  }

  /** In a preview that inspects every account and target once, exactly the wanted accounts
      that are not there are missing. */
  lemma {:induction false} MissingInPreviewIff(inspections: seq<Inspection>, k: nat, userId: int, targetId: string,
                                               targetName: string, s: Subject, c: Capabilities, o: Observation,
                                               required: set<string>)
    requires NoDuplicates(Accounts(inspections)) && k < |inspections|
    requires inspections[k] == Compared(userId, targetId, targetName, s, c, o, required)
    ensures MissingIdentity(AllFindings(inspections), (userId, targetId)) <==> IsMissing(s, o)
  {
    MissingOfOne(inspections, k);
    MissingIff(userId, targetId, targetName, s, c, o, required);
  }

  /** How the repair of a drifted account ends: it fails where user or connector are gone,
      waits for credentials where the account is missing and no password is staged, meets a
      conflict where no operation is granted, and otherwise follows its sync run. */
  lemma {:induction false} RepairOutcomes(inspections: seq<Inspection>, k: nat, userId: int, targetId: string,
                                          targetName: string, s: Subject, c: Capabilities, o: Observation,
                                          required: set<string>, meets: Pair -> Circumstances)
    requires NoDuplicates(Accounts(inspections)) && k < |inspections|
    requires inspections[k] == Compared(userId, targetId, targetName, s, c, o, required)
    ensures
      var outcome := GroupOutcome(AllFindings(inspections), (userId, targetId), meets);
      var met := meets((userId, targetId));
      var there, locked := met.userExists && met.connectorExists, IsMissing(s, o) && !met.hasSecret;
      && (outcome == BlockedCredentials <==> there && locked)
      && (outcome == ConflictFound <==> there && !locked && !met.granted)
      && (outcome == Repaired <==> there && !locked && met.granted && met.succeeded)
      && (outcome == RepairFailed <==> !there || (!locked && met.granted && !met.succeeded))
      && (BreaksOff(AllFindings(inspections), (userId, targetId), meets)
          <==> there && !locked && met.granted && met.interrupted)
  {
    MissingInPreviewIff(inspections, k, userId, targetId, targetName, s, c, o, required);
  }
}
