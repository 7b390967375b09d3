/** Profiles, durable per-user exceptions and the assignments they resolve to
    (na_sso/assignments.py). */
module Assignments {
  import opened Model

  type Intents = map<Target, set<string>>

  /** Where resolution starts: the profile's targets or, without a profile, the rows that
      are current access on a configured target, with that target's default memberships. */
  function BaseIntents(a: Account, connectors: map<Target, Connector>): Intents {
    if a.profile.Some? then a.profile.value
    else map t | t in CurrentTargets(a.rows) && t in connectors :: connectors[t].defaultMemberships
  }

  /** Independent definition, target by target: is the target assigned at all? */
  predicate IsIntended(t: Target, base: Intents, exceptions: map<Target, AssignmentException>,
                       connectors: map<Target, Connector>)
  {
    if t !in exceptions then t in base
    else match exceptions[t].mode
      case Exclude => false
      case Include => t in base || t in connectors
      case Inherit => t in base
  }

  /** ... and with which memberships? */
  function IntendedMemberships(t: Target, base: Intents, exceptions: map<Target, AssignmentException>,
                               connectors: map<Target, Connector>): set<string>
    requires IsIntended(t, base, exceptions, connectors)
  {
    var start := if t in base then base[t] else connectors[t].defaultMemberships;
    if t in exceptions then start + exceptions[t].add - exceptions[t].remove else start
  }

  function Resolved(base: Intents, exceptions: map<Target, AssignmentException>,
                    connectors: map<Target, Connector>): Intents
  {
    map t | t in base.Keys + exceptions.Keys && IsIntended(t, base, exceptions, connectors)
      :: IntendedMemberships(t, base, exceptions, connectors)
  }

  function ResolveSpec(a: Account, connectors: map<Target, Connector>): Intents {
    Resolved(BaseIntents(a, connectors), a.exceptions, connectors)
  }

  /** The exception rows are taken in whatever order the query returns them; each one
      pops, adds or rewrites one entry of the dictionary. */
  method ResolveAssignmentIntents(u: ManagedUser, connectors: map<Target, Connector>)
    returns (intents: Intents)
    ensures intents == ResolveSpec(u.Snapshot(), connectors)
  {
    ghost var a := u.Snapshot();
    ghost var base := BaseIntents(a, connectors);
    if u.profile.Some? {
      intents := u.profile.value;
    } else {
      intents := map t | t in CurrentTargets(u.rows) && t in connectors :: connectors[t].defaultMemberships;
    }
    assert intents == base;
    var exceptions := u.exceptions;
    var todo := exceptions.Keys;
    while todo != {}
      invariant todo <= exceptions.Keys
      invariant forall t ::
        t in intents <==> (if t in exceptions && t !in todo
                           then IsIntended(t, base, exceptions, connectors) else t in base)
      invariant forall t | t in intents ::
        intents[t] == (if t in exceptions && t !in todo
                       then IntendedMemberships(t, base, exceptions, connectors) else base[t])
      decreases todo
    {
      var t :| t in todo;
      var e := exceptions[t];
      todo := todo - {t};
      if e.mode == Exclude {
        intents := intents - {t};
        continue;
      }
      if e.mode == Include && t !in intents && t in connectors {
        intents := intents[t := connectors[t].defaultMemberships];
      }
      if t !in intents {
        continue;
      }
      var memberships := intents[t];
      memberships := memberships + e.add;
      memberships := memberships - e.remove;
      intents := intents[t := memberships];
    }
    assert intents.Keys == Resolved(base, exceptions, connectors).Keys;
  }

  /** Which targets are intended, and with which memberships, on the user's own data: the
      profile's or, without a profile, the configured current ones with their defaults; an
      exclusion removes one, an inclusion adds a configured one, and the edits apply last. */
  lemma ResolvedIff(a: Account, connectors: map<Target, Connector>, t: Target)
    ensures
      var starts := match a.profile
        case Some(profile) => t in profile
        case None => t in a.rows && a.rows[t].isAssigned && !a.rows[t].isRetired && t in connectors;
      t in ResolveSpec(a, connectors) <==>
        if t in a.exceptions && a.exceptions[t].mode == Exclude then false
        else starts || (t in a.exceptions && a.exceptions[t].mode == Include && t in connectors)
    ensures t in ResolveSpec(a, connectors) ==>
      var given := a.profile.Some? && t in a.profile.value;
      && (given || t in connectors)
      && ResolveSpec(a, connectors)[t]
         == (if given then a.profile.value[t] else connectors[t].defaultMemberships)
            + (if t in a.exceptions then a.exceptions[t].add else {})
            - (if t in a.exceptions then a.exceptions[t].remove else {})
  {
  }

  // ---- manual selections recorded as exceptions ----

  function DesiredMode(t: Target, base: set<Target>, selected: set<Target>): AssignmentMode {
    if t in selected && t !in base then Include
    else if t !in selected && t in base then Exclude
    else Inherit
  }

  function Additions(exceptions: map<Target, AssignmentException>, t: Target): set<string> {
    if t in exceptions then exceptions[t].add else {}
  }

  function Removals(exceptions: map<Target, AssignmentException>, t: Target): set<string> {
    if t in exceptions then exceptions[t].remove else {}
  }

  /** An exception row exists after recording exactly when it says something. */
  predicate Recorded(t: Target, base: set<Target>, exceptions: map<Target, AssignmentException>,
                     selected: set<Target>)
  {
    DesiredMode(t, base, selected) != Inherit || Additions(exceptions, t) != {} || Removals(exceptions, t) != {}
  }

  function RecordedExceptions(base: set<Target>, exceptions: map<Target, AssignmentException>,
                              selected: set<Target>): map<Target, AssignmentException>
  {
    map t | t in base + selected + exceptions.Keys && Recorded(t, base, exceptions, selected)
      :: AssignmentException(DesiredMode(t, base, selected), Additions(exceptions, t), Removals(exceptions, t))
  }

  function RecordSpec(a: Account, selected: set<Target>): Account {
    if a.profile.None? then a
    else a.(exceptions := RecordedExceptions(a.profile.value.Keys, a.exceptions, selected))
  }

  /** The loop over `base | selected | existing`, on the rows loaded into `exceptions`. */
  method RecordModes(base: set<Target>, existing: map<Target, AssignmentException>, selected: set<Target>)
    returns (exceptions: map<Target, AssignmentException>)
    ensures exceptions == RecordedExceptions(base, existing, selected)
  {
    ghost var goal := RecordedExceptions(base, existing, selected);
    exceptions := existing;
    var todo := base + selected + existing.Keys;
    while todo != {}
      invariant todo <= base + selected + existing.Keys
      invariant forall t :: t in exceptions <==> if t in todo then t in existing else t in goal
      invariant forall t | t in exceptions :: exceptions[t] == (if t in todo then existing[t] else goal[t])
      decreases todo
    {
      var t :| t in todo;
      todo := todo - {t};
      var mode := DesiredMode(t, base, selected);
      if t !in exceptions && mode == Inherit {
        continue;
      }
      var row := if t in exceptions then exceptions[t] else AssignmentException(Inherit, {}, {});
      row := row.(mode := mode);
      exceptions := exceptions[t := row];
      if mode == Inherit && row.add == {} && row.remove == {} {
        exceptions := exceptions - {t};
      }
    }
    assert exceptions.Keys == goal.Keys;
  }

  method RecordSelectedTargetExceptions(u: ManagedUser, selected: set<Target>)
    modifies u
    ensures u.Snapshot() == RecordSpec(old(u.Snapshot()), selected)
  {
    if u.profile.Some? {
      u.exceptions := RecordModes(u.profile.value.Keys, u.exceptions, selected);
    }
  }

  // ---- what resolution and recording promise together ----

  /** The exceptions after recording: a target has one if and only if the selection differs
      from the profile at it or its memberships are edited; the edits stay. */
  lemma RecordedIff(a: Account, selected: set<Target>, t: Target)
    ensures
      var after := RecordSpec(a, selected);
      && after == a.(exceptions := after.exceptions) && (a.profile.None? ==> after == a)
      && (a.profile.Some? ==>
            var given := t in a.profile.value;
            var edited := t in a.exceptions && (a.exceptions[t].add != {} || a.exceptions[t].remove != {});
            && (t in after.exceptions <==> (t in selected) != given || edited)
            && (t in after.exceptions ==>
                  && (after.exceptions[t].mode == Include <==> t in selected && !given)
                  && (after.exceptions[t].mode == Exclude <==> t !in selected && given)
                  && after.exceptions[t].add == (if t in a.exceptions then a.exceptions[t].add else {})
                  && after.exceptions[t].remove == (if t in a.exceptions then a.exceptions[t].remove else {})))
  {
  }

  /** After recording a selection, resolution intends exactly the selection, if and only
      if every manually added target is configured. */
  lemma RecordedSelectionResolvesToItself(base: Intents, exceptions: map<Target, AssignmentException>,
                                          selected: set<Target>, connectors: map<Target, Connector>)
    ensures Resolved(base, RecordedExceptions(base.Keys, exceptions, selected), connectors).Keys == selected
       <==> selected - base.Keys <= connectors.Keys
  {
  }

  /** Recording keeps the membership edits of every target, and doing it twice changes
      nothing more. */
  lemma RecordingPreservesEdits(base: set<Target>, exceptions: map<Target, AssignmentException>,
                                selected: set<Target>)
    ensures
      var recorded := RecordedExceptions(base, exceptions, selected);
      && (forall t :: Additions(recorded, t) == Additions(exceptions, t)
                      && Removals(recorded, t) == Removals(exceptions, t))
      && RecordedExceptions(base, recorded, selected) == recorded
  {
  }

  /** The memberships a recorded selection resolves to: profile (or target default) plus
      the preserved additions minus the preserved removals. */
  lemma RecordedMemberships(base: Intents, exceptions: map<Target, AssignmentException>,
                            selected: set<Target>, connectors: map<Target, Connector>, t: Target)
    requires t in selected && (t in base || t in connectors)
    ensures
      var intents := Resolved(base, RecordedExceptions(base.Keys, exceptions, selected), connectors);
      && t in intents
      && intents[t] == (if t in base then base[t] else connectors[t].defaultMemberships)
                       + Additions(exceptions, t) - Removals(exceptions, t)
  {
  }
}
