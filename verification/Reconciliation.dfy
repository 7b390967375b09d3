/** Read-only comparison of a desired identity with one remote observation
    (na_sso/reconciliation.py). */
module Reconciliation {
  import opened Prelude

  datatype DriftState = Match | Drift | Unknown | Unsupported

  datatype ReconciliationStatus = InSync | Drifted | Unreadable

  datatype Field = Identity | DisplayName | Email | Status | Memberships | PublicKey

  const ALL_FIELDS: seq<Field> := [Identity, DisplayName, Email, Status, Memberships, PublicKey]

  datatype Capabilities = Capabilities(
    displayName: bool, email: bool, status: bool, memberships: bool, publicKey: bool,
    membershipsExact: bool)

  /** The desired side: the user, and whether the account should exist at all. */
  datatype Subject = Subject(
    username: string, displayName: string, email: string, isDisabled: bool,
    wanted: bool, fingerprints: set<string>)

  datatype Observation = Observation(
    present: Option<bool>, username: Option<string>, displayName: Option<string>,
    email: Option<string>, status: Option<string>, memberships: Option<set<string>>,
    fingerprints: Option<set<string>>)

  const ABSENT := "absent"

  /** A compared value; a report shows sets as a sorted list. */
  datatype Value = Nothing | Text(text: string) | Items(items: set<string>)

  /** The fixed explanations a comparison can carry. */
  datatype Detail =
    | NoDetail | NotExposed | NotApplicable | IdentityUnread | UsernameUnread | FieldUnread
    | MembershipsUnread | KeysUnread | ExtraRetained | RepairUnsupported(reason: string)
    | Other(text: string)

  datatype FieldComparison = FieldComparison(
    field: Field, state: DriftState, desired: Value, actual: Value, detail: Detail)

  datatype Report = Report(
    targetId: string, targetName: string, subject: string,
    fields: seq<FieldComparison>, details: seq<Detail>)
  {
    function Status(): ReconciliationStatus {
      if exists c :: c in fields && c.state.Drift? then Drifted
      else if exists c :: c in fields && c.state.Unknown? then Unreadable
      else InSync
    }
  }

  function UnsupportedField(field: Field, detail: Detail): FieldComparison {
    FieldComparison(field, Unsupported, Nothing, Nothing, detail)
  }

  function UnknownField(field: Field, desired: Value, detail: Detail): FieldComparison {
    FieldComparison(field, Unknown, desired, Nothing, detail)
  }

  function Compared(field: Field, desired: Value, actual: Value): FieldComparison {
    FieldComparison(field, if desired == actual then Match else Drift, desired, actual, NoDetail)
  }

  function IdentityComparison(s: Subject, o: Observation): FieldComparison {
    if o.present.None? then
      UnknownField(Identity, Text(if s.wanted then s.username else ABSENT), IdentityUnread)
    else if s.wanted && !o.present.value then Compared(Identity, Text(s.username), Text(ABSENT))
    else if s.wanted && o.username.None? then
      UnknownField(Identity, Text(s.username), UsernameUnread)
    else if s.wanted then Compared(Identity, Text(s.username), Text(o.username.value))
    else Compared(Identity, Text(ABSENT), Text(if o.present.value then "present" else ABSENT))
  }

  predicate Readable(o: Observation) {
    o.present == Some(true)
  }

  function TextComparison(field: Field, supported: bool, desired: string, actual: Option<string>, o: Observation)
    : FieldComparison
  {
    if !supported then UnsupportedField(field, NotExposed)
    else if !Readable(o) || actual.None? then UnknownField(field, Text(desired), FieldUnread)
    else Compared(field, Text(desired), Text(actual.value))
  }

  function MembershipComparison(c: Capabilities, required: set<string>, o: Observation): FieldComparison {
    if !c.memberships then UnsupportedField(Memberships, NotExposed)
    else if !Readable(o) || o.memberships.None? then UnknownField(Memberships, Items(required), MembershipsUnread)
    else
      var matches := if c.membershipsExact then o.memberships.value == required else required <= o.memberships.value;
      FieldComparison(Memberships, if matches then Match else Drift, Items(required), Items(o.memberships.value),
                      if matches && !c.membershipsExact then ExtraRetained else NoDetail)
  }

  function KeyComparison(c: Capabilities, s: Subject, o: Observation): FieldComparison {
    if !c.publicKey then UnsupportedField(PublicKey, NotExposed)
    else if !Readable(o) || o.fingerprints.None? then UnknownField(PublicKey, Items(s.fingerprints), KeysUnread)
    else Compared(PublicKey, Items(s.fingerprints), Items(o.fingerprints.value))
  }

  function DesiredDisplayName(s: Subject): string {
    if s.displayName != "" then s.displayName else s.username
  }

  function DesiredStatus(s: Subject): string {
    if s.isDisabled then "disabled" else "active"
  }

  predicate Exposes(c: Capabilities, field: Field) {
    match field
    case Identity => true
    case DisplayName => c.displayName
    case Email => c.email
    case Status => c.status
    case Memberships => c.memberships
    case PublicKey => c.publicKey
  }

  function DesiredText(s: Subject, field: Field): string {
    match field
    case DisplayName => DesiredDisplayName(s)
    case Email => s.email
    case _ => DesiredStatus(s)
  }

  function ActualText(o: Observation, field: Field): Option<string> {
    match field
    case DisplayName => o.displayName
    case Email => o.email
    case _ => o.status
  }

  function ComparisonOf(field: Field, s: Subject, c: Capabilities, o: Observation, required: set<string>)
    : FieldComparison
  {
    if field.Identity? then IdentityComparison(s, o)
    else if !s.wanted then UnsupportedField(field, if Exposes(c, field) then NotApplicable else NotExposed)
    else match field
      case Memberships => MembershipComparison(c, required, o)
      case PublicKey => KeyComparison(c, s, o)
      case _ => TextComparison(field, Exposes(c, field), DesiredText(s, field), ActualText(o, field), o)
  }

  function Fields(s: Subject, c: Capabilities, o: Observation, required: set<string>): seq<FieldComparison> {
    [ComparisonOf(Identity, s, c, o, required), ComparisonOf(DisplayName, s, c, o, required),
     ComparisonOf(Email, s, c, o, required), ComparisonOf(Status, s, c, o, required),
     ComparisonOf(Memberships, s, c, o, required), ComparisonOf(PublicKey, s, c, o, required)]
  }

  function CompareSpec(targetId: string, targetName: string, s: Subject, c: Capabilities, o: Observation,
                       required: set<string>): Report
  {
    Report(targetId, targetName, s.username, Fields(s, c, o, required), [])
  }

  method CompareText(field: Field, s: Subject, c: Capabilities, o: Observation) returns (comparison: FieldComparison)
    ensures comparison == TextComparison(field, Exposes(c, field), DesiredText(s, field), ActualText(o, field), o)
  {
    var actual := ActualText(o, field);
    if !Exposes(c, field) {
      comparison := UnsupportedField(field, NotExposed);
    } else if !Readable(o) || actual.None? {
      comparison := UnknownField(field, Text(DesiredText(s, field)), FieldUnread);
    } else {
      comparison := Compared(field, Text(DesiredText(s, field)), Text(actual.value));
    }
  }

  /** Fields are appended in order; an unwanted identity is compared by presence alone. */
  method CompareSnapshot(targetId: string, targetName: string, s: Subject, c: Capabilities, o: Observation,
                         required: set<string>) returns (report: Report)
    ensures report == CompareSpec(targetId, targetName, s, c, o, required)
  {
    var fields := [IdentityComparison(s, o)];
    if !s.wanted {
      for i := 1 to 6
        invariant |fields| == i
        invariant forall k | 0 <= k < i :: fields[k] == ComparisonOf(ALL_FIELDS[k], s, c, o, required)
      {
        var field := ALL_FIELDS[i];
        fields := fields + [UnsupportedField(field, if Exposes(c, field) then NotApplicable else NotExposed)];
      }
    } else {
      for i := 1 to 4
        invariant |fields| == i
        invariant forall k | 0 <= k < i :: fields[k] == ComparisonOf(ALL_FIELDS[k], s, c, o, required)
      {
        var comparison := CompareText(ALL_FIELDS[i], s, c, o);
        fields := fields + [comparison];
      }
      fields := fields + [MembershipComparison(c, required, o)];
      fields := fields + [KeyComparison(c, s, o)];
    }
    FieldsByPosition(fields, s, c, o, required);
    report := Report(targetId, targetName, s.username, fields, []);
  }

  lemma FieldsByPosition(fields: seq<FieldComparison>, s: Subject, c: Capabilities, o: Observation,
                         required: set<string>)
    requires |fields| == 6
    requires forall k | 0 <= k < 6 :: fields[k] == ComparisonOf(ALL_FIELDS[k], s, c, o, required)
    ensures fields == Fields(s, c, o, required)
  {
  }

  const UNREADABLE: Observation := Observation(None, None, None, None, None, None, None)

  function UnavailableReport(targetId: string, targetName: string, s: Subject, c: Capabilities,
                             detail: Detail, required: set<string>): Report
  {
    CompareSpec(targetId, targetName, s, c, UNREADABLE, required).(details := [detail])
  }

  function MarkedField(c: FieldComparison, limitation: Detail): FieldComparison {
    if c.state.Drift? then FieldComparison(c.field, Unsupported, c.desired, c.actual, limitation) else c
  }

  function MarkUnsupportedOperation(report: Report, detail: string): Report {
    var limitation := RepairUnsupported(detail);
    var fields := seq(|report.fields|, i requires 0 <= i < |report.fields| =>
      MarkedField(report.fields[i], limitation));
    if fields == report.fields then report
    else report.(fields := fields, details := report.details + [limitation])
  }

  // ---- exactness ----

  /** Every report holds the six fields, once each, in order. */
  lemma ReportsHoldSixFields(targetId: string, targetName: string, s: Subject, c: Capabilities, o: Observation,
                             required: set<string>)
    ensures
      var fields := CompareSpec(targetId, targetName, s, c, o, required).fields;
      |fields| == 6 && forall i | 0 <= i < 6 :: fields[i].field == ALL_FIELDS[i]
  {
  }

  /** A six-field report is drifted, or in sync, according to its six states. */
  lemma StatusFromFields(report: Report)
    requires |report.fields| == 6
    ensures
      var f := report.fields;
      && (report.Status().Drifted? <==>
            f[0].state.Drift? || f[1].state.Drift? || f[2].state.Drift? || f[3].state.Drift? || f[4].state.Drift?
            || f[5].state.Drift?)
      && (report.Status().InSync? <==>
            Quiet(f[0]) && Quiet(f[1]) && Quiet(f[2]) && Quiet(f[3]) && Quiet(f[4]) && Quiet(f[5]))
  {
  }

  predicate Quiet(c: FieldComparison) {
    c.state.Match? || c.state.Unsupported?
  }

  /** The observed display name is the stored one or, if none is stored, the username. */
  predicate NameAgrees(s: Subject, o: Observation) {
    o.displayName.Some? && o.displayName.value == if s.displayName == "" then s.username else s.displayName
  }

  /** The observed status says whether the user is disabled. */
  predicate StatusAgrees(s: Subject, o: Observation) {
    || (s.isDisabled && o.status == Some("disabled"))
    || (!s.isDisabled && o.status == Some("active"))
  }

  /** The remote identity is exactly the desired one. */
  predicate Agrees(s: Subject, o: Observation, required: set<string>) {
    && o.present == Some(true) && o.username == Some(s.username) && NameAgrees(s, o) && StatusAgrees(s, o)
    && o.email == Some(s.email) && o.memberships == Some(required) && o.fingerprints == Some(s.fingerprints)
  }

  /** The four states of a field of a wanted identity under any capabilities: not exposed,
      not read, agreeing, or not. */
  predicate FieldStands(c: FieldComparison, exposed: bool, read: bool, agrees: bool) {
    && (c.state == Unsupported <==> !exposed)
    && (c.state == Unknown <==> exposed && !read)
    && (c.state == Match <==> exposed && read && agrees)
    && (c.state == Drift <==> exposed && read && !agrees)
  }

  /** Field by field, for a wanted identity: what each comparison says, by the user's own
      data and the observation. */
  lemma WantedFieldsStand(targetId: string, targetName: string, s: Subject, c: Capabilities, o: Observation,
                          required: set<string>)
    requires s.wanted
    ensures
      var report := CompareSpec(targetId, targetName, s, c, o, required);
      var f, present := report.fields, o.present == Some(true);
      && report.targetId == targetId && report.targetName == targetName && report.subject == s.username
      && |f| == 6
      && FieldStands(f[0], true, o.present == Some(false) || (present && o.username != None),
                     if present then o.username == Some(s.username) else s.username == "absent")
      && FieldStands(f[1], c.displayName, present && o.displayName != None, NameAgrees(s, o))
      && FieldStands(f[2], c.email, present && o.email != None, o.email == Some(s.email))
      && FieldStands(f[3], c.status, present && o.status != None, StatusAgrees(s, o))
      && FieldStands(f[4], c.memberships, present && o.memberships != None,
                     o.memberships.Some? && if c.membershipsExact then o.memberships.value == required
                                            else required <= o.memberships.value)
      && FieldStands(f[5], c.publicKey, present && o.fingerprints != None, o.fingerprints == Some(s.fingerprints))
  {
  }

  /** An unwanted identity is compared by presence alone; its other fields are never read. */
  lemma UnwantedFieldsStand(targetId: string, targetName: string, s: Subject, c: Capabilities, o: Observation,
                            required: set<string>)
    requires !s.wanted
    ensures
      var f := CompareSpec(targetId, targetName, s, c, o, required).fields;
      && |f| == 6
      && FieldStands(f[0], true, o.present != None, o.present == Some(false))
      && (forall i | 1 <= i < 6 ::
            f[i].state == Unsupported && f[i].desired == Nothing && f[i].actual == Nothing
            && (f[i].detail == NotApplicable || f[i].detail == NotExposed))
      && (f[1].detail == NotApplicable <==> c.displayName) && (f[2].detail == NotApplicable <==> c.email)
      && (f[3].detail == NotApplicable <==> c.status) && (f[4].detail == NotApplicable <==> c.memberships)
      && (f[5].detail == NotApplicable <==> c.publicKey)
  {
  }

  /** The values a report shows beside each other: what is desired, wherever the field is
      exposed, and what was observed, wherever it was read. */
  predicate ShowsValues(c: FieldComparison, desired: Value, actual: Value) {
    && c.desired == (if c.state == Unsupported then Nothing else desired)
    && c.actual == (if c.state == Unsupported || c.state == Unknown then Nothing else actual)
  }

  function TextOf(text: Option<string>): Value {
    if text.Some? then Text(text.value) else Nothing
  }

  function ItemsOf(items: Option<set<string>>): Value {
    if items.Some? then Items(items.value) else Nothing
  }

  lemma WantedFieldsShow(targetId: string, targetName: string, s: Subject, c: Capabilities, o: Observation,
                         required: set<string>)
    requires s.wanted
    ensures
      var f := CompareSpec(targetId, targetName, s, c, o, required).fields;
      && |f| == 6
      && ShowsValues(f[0], Text(s.username), if o.present == Some(true) then TextOf(o.username) else Text("absent"))
      && ShowsValues(f[1], Text(if s.displayName == "" then s.username else s.displayName), TextOf(o.displayName))
      && ShowsValues(f[2], Text(s.email), TextOf(o.email))
      && ShowsValues(f[3], Text(if s.isDisabled then "disabled" else "active"), TextOf(o.status))
      && ShowsValues(f[4], Items(required), ItemsOf(o.memberships))
      && ShowsValues(f[5], Items(s.fingerprints), ItemsOf(o.fingerprints))
  {
  }

  /** The explanation beside each comparison of a text, and of a set. */
  lemma WantedTextsExplain(targetId: string, targetName: string, s: Subject, c: Capabilities, o: Observation,
                           required: set<string>)
    requires s.wanted
    ensures
      var f := CompareSpec(targetId, targetName, s, c, o, required).fields;
      && |f| == 6
      && f[0].detail == (if o.present == None then IdentityUnread
                         else if f[0].state == Unknown then UsernameUnread else NoDetail)
      && f[1].detail == Explanation(f[1].state, FieldUnread) && f[2].detail == Explanation(f[2].state, FieldUnread)
      && f[3].detail == Explanation(f[3].state, FieldUnread)
  {
  }

  lemma WantedSetsExplain(targetId: string, targetName: string, s: Subject, c: Capabilities, o: Observation,
                          required: set<string>)
    requires s.wanted
    ensures
      var f := CompareSpec(targetId, targetName, s, c, o, required).fields;
      && |f| == 6
      && f[4].detail == (if f[4].state == Match && !c.membershipsExact then ExtraRetained
                         else Explanation(f[4].state, MembershipsUnread))
      && f[5].detail == Explanation(f[5].state, KeysUnread)
  {
  }

  function Explanation(state: DriftState, unread: Detail): Detail {
    match state
    case Unsupported => NotExposed
    case Unknown => unread
    case _ => NoDetail
  }

  lemma UnwantedIdentityShows(targetId: string, targetName: string, s: Subject, c: Capabilities, o: Observation,
                              required: set<string>)
    requires !s.wanted
    ensures
      var identity := CompareSpec(targetId, targetName, s, c, o, required).fields[0];
      ShowsValues(identity, Text("absent"), Text(if o.present == Some(true) then "present" else "absent"))
  {
  }

  const FULL: Capabilities := Capabilities(true, true, true, true, true, true)

  /** With full, exact inspection a wanted identity is in sync exactly when the observation
      equals the desired identity in every respect. */
  lemma FullInspectionInSyncIff(targetId: string, targetName: string, s: Subject, o: Observation, required: set<string>)
    requires s.wanted
    ensures CompareSpec(targetId, targetName, s, FULL, o, required).Status().InSync? <==> Agrees(s, o, required)
  {
    StatusFromFields(CompareSpec(targetId, targetName, s, FULL, o, required));
    FullTextsAgreeIff(s, o, required);
    FullSetsAgreeIff(s, o, required);
  }

  lemma FullTextsAgreeIff(s: Subject, o: Observation, required: set<string>)
    requires s.wanted
    ensures Quiet(ComparisonOf(DisplayName, s, FULL, o, required))
       <==> Readable(o) && o.displayName == Some(DesiredDisplayName(s))
    ensures Quiet(ComparisonOf(Email, s, FULL, o, required)) <==> Readable(o) && o.email == Some(s.email)
    ensures Quiet(ComparisonOf(Status, s, FULL, o, required)) <==> Readable(o) && o.status == Some(DesiredStatus(s))
  {
  }

  lemma FullSetsAgreeIff(s: Subject, o: Observation, required: set<string>)
    requires s.wanted
    ensures Quiet(ComparisonOf(Memberships, s, FULL, o, required)) <==> Readable(o) && o.memberships == Some(required)
    ensures Quiet(ComparisonOf(PublicKey, s, FULL, o, required))
       <==> Readable(o) && o.fingerprints == Some(s.fingerprints)
  {
  }

  /** An unwanted identity is judged by its absence alone, whatever can be inspected. */
  lemma UnwantedIdentityStatus(targetId: string, targetName: string, s: Subject, c: Capabilities, o: Observation,
                               required: set<string>)
    requires !s.wanted
    ensures
      var status := CompareSpec(targetId, targetName, s, c, o, required).Status();
      && (status.InSync? <==> o.present == Some(false))
      && (status.Drifted? <==> o.present == Some(true))
      && (status.Unreadable? <==> o.present == None)
  {
  }

  /** An unreadable target never drifts, so nothing is ever repaired on its account. */
  lemma UnreadableNeverDrifts(targetId: string, targetName: string, s: Subject, c: Capabilities, o: Observation,
                              detail: Detail, required: set<string>)
    requires o.present.None?
    ensures !CompareSpec(targetId, targetName, s, c, o, required).Status().InSync?
    ensures !CompareSpec(targetId, targetName, s, c, o, required).Status().Drifted?
    ensures
      var report := UnavailableReport(targetId, targetName, s, c, detail, required);
      report.Status().Unreadable? && report.details == [detail] && report.subject == s.username
  {
    if s.wanted {
      UnreadableWanted(CompareSpec(targetId, targetName, s, c, o, required), s, c, o, required);
      UnreadableWanted(UnavailableReport(targetId, targetName, s, c, detail, required), s, c, UNREADABLE, required);
    } else {
      UnwantedIdentityStatus(targetId, targetName, s, c, o, required);
      UnwantedIdentityStatus(targetId, targetName, s, c, UNREADABLE, required);
      assert UnavailableReport(targetId, targetName, s, c, detail, required).fields
          == CompareSpec(targetId, targetName, s, c, UNREADABLE, required).fields;
    }
  }

  lemma UnreadableWanted(report: Report, s: Subject, c: Capabilities, o: Observation, required: set<string>)
    requires s.wanted && o.present.None? && report.fields == Fields(s, c, o, required)
    ensures report.Status().Unreadable?
  {
  }

  /** A wanted account that is missing on the target is reported as drift exactly unless
      the user is called "absent", the word the comparison itself uses for a missing one. */
  lemma MissingAccountDriftsIff(targetId: string, targetName: string, s: Subject, c: Capabilities, o: Observation,
                                required: set<string>)
    requires s.wanted && o.present == Some(false)
    ensures CompareSpec(targetId, targetName, s, c, o, required).Status().Drifted? <==> s.username != ABSENT
    ensures CompareSpec(targetId, targetName, s, c, o, required).Status().InSync?
       <==> s.username == ABSENT
            && c.(membershipsExact := true) == Capabilities(false, false, false, false, false, true)
  {
    StatusFromFields(CompareSpec(targetId, targetName, s, c, o, required));
  }

  /** Where only the required memberships are managed, additional ones never drift. */
  lemma ExtraMembershipsNeverDrift(targetId: string, targetName: string, s: Subject, c: Capabilities, o: Observation,
                                   required: set<string>)
    requires s.wanted && c.memberships && Readable(o) && o.memberships.Some?
    ensures
      var comparison := CompareSpec(targetId, targetName, s, c, o, required).fields[4];
      && comparison.field.Memberships?
      && (comparison.state.Drift? <==>
            if c.membershipsExact then o.memberships.value != required else !(required <= o.memberships.value))
  {
  }

  /** Marking a repair as unsupported removes all drift, keeps what was compared and every
      field without drift, and is idempotent. */
  lemma MarkingRemovesDriftOnly(report: Report, detail: string, again: string)
    ensures
      var marked := MarkUnsupportedOperation(report, detail);
      && !marked.Status().Drifted?
      && |marked.fields| == |report.fields|
      && (forall i | 0 <= i < |report.fields| ::
            && marked.fields[i].field == report.fields[i].field
            && marked.fields[i].desired == report.fields[i].desired
            && marked.fields[i].actual == report.fields[i].actual
            && (if report.fields[i].state.Drift?
                then marked.fields[i].state.Unsupported? && marked.fields[i].detail == RepairUnsupported(detail)
                else marked.fields[i] == report.fields[i]))
      && marked.details == report.details + (if report.Status().Drifted? then [RepairUnsupported(detail)] else [])
      && MarkUnsupportedOperation(marked, again) == marked
      && (marked == report <==> !report.Status().Drifted?)
  {
  }
}
