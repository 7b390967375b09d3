/** Rows and resolved assignments agree, and applying a profile only adds access
    (na_sso/assignments.py, na_sso/users.py). */
module ProfileApplication {
  import opened Prelude
  import opened Lifecycle
  import opened Model
  import opened Operations
  import opened Assignments
  import opened Pending

  // ---- agreement of rows and intents ----

  /** After a selection is set, the assigned rows are exactly the selection, none of them
      retired. */
  lemma RowsFollowSelection(a: Account, cfg: Config, req: PendingRequest)
    requires SetPendingSpec(a, cfg, req).Success?
    ensures
      var after := SetPendingSpec(a, cfg, req).value;
      && AssignedTargets(after.rows) == Selection(a, cfg, req)
      && CurrentTargets(after.rows) == Selection(a, cfg, req)
  {
  }

  /** A manual selection under a profile: rows and intents both become the selection. */
  lemma RecordedSelectionAgrees(a: Account, cfg: Config, req: PendingRequest)
    requires SetPendingSpec(a, cfg, req).Success? && a.profile.Some? && req.updateExceptions
    ensures
      var after := SetPendingSpec(a, cfg, req).value;
      AssignedTargets(after.rows) == Selection(a, cfg, req) == ResolveSpec(after, cfg.connectors).Keys
  {
    RowsFollowSelection(a, cfg, req);
    RecordedSelectionResolvesToItself(a.profile.value, a.exceptions, Selection(a, cfg, req), cfg.connectors);
  }

  /** The callers that pass the resolved intents and record nothing: again both agree,
      with or without a profile. */
  lemma ResolvedSelectionAgrees(a: Account, cfg: Config, req: PendingRequest)
    requires SetPendingSpec(a, cfg, req).Success? && !req.updateExceptions
    requires req.targetIds == Some(ResolveSpec(a, cfg.connectors).Keys)
    ensures
      var after := SetPendingSpec(a, cfg, req).value;
      AssignedTargets(after.rows) == Selection(a, cfg, req) == ResolveSpec(after, cfg.connectors).Keys
  {
  }

  /** Without a profile nothing is recorded, and a manual selection agrees with the intents
      if and only if no standing exception contradicts it. */
  lemma UnrecordedSelectionAgreesIff(a: Account, cfg: Config, req: PendingRequest)
    requires SetPendingSpec(a, cfg, req).Success? && a.profile.None? && req.updateExceptions
    ensures
      var after := SetPendingSpec(a, cfg, req).value;
      var selected := Selection(a, cfg, req);
      ResolveSpec(after, cfg.connectors).Keys == selected <==>
        forall t | t in a.exceptions ::
          && (a.exceptions[t].mode.Exclude? ==> t !in selected)
          && (a.exceptions[t].mode.Include? && t in cfg.connectors ==> t in selected)
  {
    RowsFollowSelection(a, cfg, req);
    var after := SetPendingSpec(a, cfg, req).value;
    var selected := Selection(a, cfg, req);
    var base := BaseIntents(after, cfg.connectors);
    assert base.Keys == selected;
    forall t
      ensures t in ResolveSpec(after, cfg.connectors).Keys <==> IsIntended(t, base, a.exceptions, cfg.connectors)
    {
    }
    if ResolveSpec(after, cfg.connectors).Keys == selected {
      forall t | t in a.exceptions
        ensures a.exceptions[t].mode.Exclude? ==> t !in selected
        ensures a.exceptions[t].mode.Include? && t in cfg.connectors ==> t in selected
      {
        assert t in selected <==> IsIntended(t, base, a.exceptions, cfg.connectors);
      }
    }
  }

  // ---- confirming a profile application ----

  datatype ConfirmOutcome = Applied(id: OpId) | Conflicted | Unassignable(error: PendingError)

  /** Access that the profile does not give becomes an explicit `include`; membership edits
      already on record are kept. */
  function PreservedExceptions(exceptions: map<Target, AssignmentException>, extra: set<Target>)
    : map<Target, AssignmentException>
  {
    map t | t in exceptions.Keys + extra ::
      if t in extra then AssignmentException(Include, Additions(exceptions, t), Removals(exceptions, t))
      else exceptions[t]
  }

  function WithProfile(a: Account, profile: Intents): Account {
    a.(profile := Some(profile),
       exceptions := PreservedExceptions(a.exceptions, CurrentTargets(a.rows) - profile.Keys))
  }

  function IntentsRequest(intents: set<Target>): PendingRequest {
    PendingRequest(None, Some(intents), false, false, false)
  }

  /** What happens once the profile and its exceptions are in place on the session. */
  function ConfirmPrepared(prepared: Account, cfg: Config, newId: OpId): (Account, ConfirmOutcome)
    requires newId !in prepared.ops
  {
    var intents := ResolveSpec(prepared, cfg.connectors).Keys;
    var (requested, outcome) := RequestSpec(prepared, Update, None, newId);
    if outcome.Conflict? then (requested, Conflicted) else
    match SetPendingSpec(requested, cfg, IntentsRequest(intents))
    case Success(after) => (after, Applied(outcome.id))
    case Failure(error) => (requested, Unassignable(error))
  }

  /** A conflict or an unknown target drops the session: nothing is saved. */
  function ConfirmSpec(a: Account, cfg: Config, profile: Intents, newId: OpId): (Account, ConfirmOutcome)
    requires newId !in a.ops
  {
    var (after, outcome) := ConfirmPrepared(WithProfile(a, profile), cfg, newId);
    (if outcome.Applied? then after else a, outcome)
  }

  method PreserveAccess(before: map<Target, AssignmentException>, extra: set<Target>)
    returns (exceptions: map<Target, AssignmentException>)
    ensures exceptions == PreservedExceptions(before, extra)
  {
    exceptions := before;
    var todo := extra;
    while todo != {}
      invariant todo <= extra
      invariant exceptions.Keys == before.Keys + (extra - todo)
      invariant forall t | t in exceptions ::
        exceptions[t] == (if t in extra && t !in todo
                          then AssignmentException(Include, Additions(before, t), Removals(before, t))
                          else before[t])
      decreases todo
    {
      var t :| t in todo;
      todo := todo - {t};
      var row := if t in exceptions then exceptions[t] else AssignmentException(Inherit, {}, {});
      row := row.(mode := Include);
      exceptions := exceptions[t := row];
    }
  }

  method PrepareProfile(u: ManagedUser, profile: Intents)
    modifies u
    ensures u.Snapshot() == WithProfile(old(u.Snapshot()), profile)
  {
    var current := CurrentTargets(u.rows);
    u.profile := Some(profile);
    u.exceptions := PreserveAccess(u.exceptions, current - profile.Keys);
  }

  method RequestAndSelect(u: ManagedUser, cfg: Config, newId: OpId) returns (r: ConfirmOutcome)
    requires newId !in u.ops
    modifies u
    ensures (u.Snapshot(), r) == ConfirmPrepared(old(u.Snapshot()), cfg, newId)
  {
    var intents := ResolveAssignmentIntents(u, cfg.connectors);
    var outcome := RequestOperation(u, Update, None, newId);
    if outcome.Conflict? {
      return Conflicted;
    }
    var error := SetPending(u, cfg, IntentsRequest(intents.Keys));
    return if error.Some? then Unassignable(error.value) else Applied(outcome.id);
  }

  /** A refused confirmation touches only these fields before its session is dropped. */
  lemma RefusalFrame(prepared: Account, cfg: Config, newId: OpId)
    requires newId !in prepared.ops
    ensures
      var (after, outcome) := ConfirmPrepared(prepared, cfg, newId);
      !outcome.Applied? ==> after == prepared.(ops := after.ops, active := after.active)
  {
  }

  /** The confirmation route, up to the queued sync. */
  method ConfirmProfile(u: ManagedUser, cfg: Config, profile: Intents, newId: OpId) returns (r: ConfirmOutcome)
    requires newId !in u.ops
    modifies u
    ensures (u.Snapshot(), r) == ConfirmSpec(old(u.Snapshot()), cfg, profile, newId)
  {
    var savedProfile, savedExceptions, savedOps, savedActive := u.profile, u.exceptions, u.ops, u.active;
    PrepareProfile(u, profile);
    RefusalFrame(u.Snapshot(), cfg, newId);
    r := RequestAndSelect(u, cfg, newId);
    if !r.Applied? {
      // The session is dropped unsaved.
      u.profile, u.exceptions, u.ops, u.active := savedProfile, savedExceptions, savedOps, savedActive;
    }
  }

  predicate Excluded(a: Account, t: Target) {
    t in a.exceptions && a.exceptions[t].mode.Exclude?
  }

  predicate Included(a: Account, t: Target) {
    t in a.exceptions && a.exceptions[t].mode.Include?
  }

  /** What a confirmation leaves assigned, whatever rows and exceptions said before: the
      profile's targets that are not excluded, and of the others the configured ones that
      were current or included. So the access that is lost is exactly the current targets
      the profile names but an exception excludes, and those that are no longer
      configured. */
  lemma ConfirmedAssignmentsIff(a: Account, cfg: Config, profile: Intents, newId: OpId, t: Target)
    requires newId !in a.ops && ConfirmSpec(a, cfg, profile, newId).1.Applied?
    ensures
      var after := ConfirmSpec(a, cfg, profile, newId).0;
      var current := CurrentTargets(a.rows);
      && AssignedTargets(after.rows) == ResolveSpec(after, cfg.connectors).Keys
      && (t in AssignedTargets(after.rows) <==>
            if t in profile then !Excluded(a, t) else t in cfg.connectors && (t in current || Included(a, t)))
      && (t in current && t !in AssignedTargets(after.rows) <==>
            t in current && if t in profile then Excluded(a, t) else t !in cfg.connectors)
  {
    var prepared := WithProfile(a, profile);
    var intents := ResolveSpec(prepared, cfg.connectors).Keys;
    var requested := RequestSpec(prepared, Update, None, newId).0;
    RequestLeavesIntents(prepared, cfg, newId);
    RowsFollowSelection(requested, cfg, IntentsRequest(intents));
    ResolvedSelectionAgrees(requested, cfg, IntentsRequest(intents));
    assert t in intents <==> IsIntended(t, profile, prepared.exceptions, cfg.connectors);
  }

  lemma AgreeingTarget(a: Account, cfg: Config, profile: Intents, t: Target)
    requires CurrentTargets(a.rows) == ResolveSpec(a, cfg.connectors).Keys
    requires CurrentTargets(a.rows) <= cfg.connectors.Keys
    ensures
      var current := CurrentTargets(a.rows);
      (if t in profile then !Excluded(a, t) else t in cfg.connectors && (t in current || Included(a, t)))
      <==> t in current || (t in profile && !Excluded(a, t))
  {
    assert t in CurrentTargets(a.rows) <==> IsIntended(t, BaseIntents(a, cfg.connectors), a.exceptions, cfg.connectors);
  }

  /** Applying a profile only adds access where rows and intents agree: the new assigned
      targets are the old ones and the profile's targets that are not excluded, and nothing
      is lost. */
  lemma ApplyingProfileOnlyAdds(a: Account, cfg: Config, profile: Intents, newId: OpId)
    requires newId !in a.ops
    requires AssignedTargets(a.rows) == CurrentTargets(a.rows) == ResolveSpec(a, cfg.connectors).Keys
    requires CurrentTargets(a.rows) <= cfg.connectors.Keys
    requires ConfirmSpec(a, cfg, profile, newId).1.Applied?
    ensures
      var after := ConfirmSpec(a, cfg, profile, newId).0;
      var excluded := set t | t in a.exceptions && a.exceptions[t].mode.Exclude?;
      && AssignedTargets(after.rows) == AssignedTargets(a.rows) + (profile.Keys - excluded)
      && AssignedTargets(a.rows) <= AssignedTargets(after.rows)
      && ResolveSpec(after, cfg.connectors).Keys == AssignedTargets(after.rows)
  {
    ConfirmedAssignmentsIff(a, cfg, profile, newId, "");
    AssignedExactly(a, cfg, profile, newId);
    SameSet(AssignedTargets(ConfirmSpec(a, cfg, profile, newId).0.rows), CurrentTargets(a.rows), profile.Keys,
            set t | t in a.exceptions && a.exceptions[t].mode.Exclude?);
  }

  lemma SameSet(targets: set<Target>, current: set<Target>, profile: set<Target>, excluded: set<Target>)
    requires forall t :: t in targets <==> t in current || (t in profile && t !in excluded)
    ensures targets == current + (profile - excluded) && current <= targets
  {
  }

  lemma AssignedExactly(a: Account, cfg: Config, profile: Intents, newId: OpId)
    requires newId !in a.ops && ConfirmSpec(a, cfg, profile, newId).1.Applied?
    requires CurrentTargets(a.rows) == ResolveSpec(a, cfg.connectors).Keys
    requires CurrentTargets(a.rows) <= cfg.connectors.Keys
    ensures forall t :: t in AssignedTargets(ConfirmSpec(a, cfg, profile, newId).0.rows)
                   <==> t in CurrentTargets(a.rows) || (t in profile && !Excluded(a, t))
  {
    forall t
      ensures t in AssignedTargets(ConfirmSpec(a, cfg, profile, newId).0.rows)
         <==> t in CurrentTargets(a.rows) || (t in profile && !Excluded(a, t))
    {
      AssignedAfterAgreement(a, cfg, profile, newId, t);
    }
  }

  lemma AssignedAfterAgreement(a: Account, cfg: Config, profile: Intents, newId: OpId, t: Target)
    requires newId !in a.ops && ConfirmSpec(a, cfg, profile, newId).1.Applied?
    requires CurrentTargets(a.rows) == ResolveSpec(a, cfg.connectors).Keys
    requires CurrentTargets(a.rows) <= cfg.connectors.Keys
    ensures t in AssignedTargets(ConfirmSpec(a, cfg, profile, newId).0.rows)
       <==> t in CurrentTargets(a.rows) || (t in profile && !Excluded(a, t))
  {
    ConfirmedAssignmentsIff(a, cfg, profile, newId, t);
    AgreeingTarget(a, cfg, profile, t);
  }

  lemma RequestLeavesIntents(a: Account, cfg: Config, newId: OpId)
    requires newId !in a.ops
    ensures
      var requested := RequestSpec(a, Update, None, newId).0;
      requested.rows == a.rows && ResolveSpec(requested, cfg.connectors) == ResolveSpec(a, cfg.connectors)
  {
  }

  /** What a confirmation records: the profile, and an explicit inclusion of every current
      target outside it; every other exception, and every membership edit, stays. */
  lemma ConfirmedExceptions(a: Account, cfg: Config, profile: Intents, newId: OpId, t: Target)
    requires newId !in a.ops && ConfirmSpec(a, cfg, profile, newId).1.Applied?
    ensures
      var after := ConfirmSpec(a, cfg, profile, newId).0;
      var extra := t in a.rows && a.rows[t].isAssigned && !a.rows[t].isRetired && t !in profile;
      && after.profile == Some(profile)
      && (t in after.exceptions <==> t in a.exceptions || extra)
      && (t in after.exceptions ==>
            && after.exceptions[t].mode == (if extra then Include else a.exceptions[t].mode)
            && after.exceptions[t].add == (if t in a.exceptions then a.exceptions[t].add else {})
            && after.exceptions[t].remove == (if t in a.exceptions then a.exceptions[t].remove else {}))
  {
  }

  /** The memberships intended afterwards: the profile's or, outside it, the target's default
      ones, with the edits that stood before. */
  lemma ConfirmedMemberships(a: Account, cfg: Config, profile: Intents, newId: OpId, t: Target)
    requires newId !in a.ops && ConfirmSpec(a, cfg, profile, newId).1.Applied?
    requires t in AssignedTargets(ConfirmSpec(a, cfg, profile, newId).0.rows)
    ensures
      var intents := ResolveSpec(ConfirmSpec(a, cfg, profile, newId).0, cfg.connectors);
      && t in intents && (t in profile || t in cfg.connectors)
      && intents[t] == (if t in profile then profile[t] else cfg.connectors[t].defaultMemberships)
                       + (if t in a.exceptions then a.exceptions[t].add else {})
                       - (if t in a.exceptions then a.exceptions[t].remove else {})
  {
    ConfirmedAssignmentsIff(a, cfg, profile, newId, t);
    ConfirmedExceptions(a, cfg, profile, newId, t);
    ResolvedIff(ConfirmSpec(a, cfg, profile, newId).0, cfg.connectors, t);
  }
}
