/** Read-modify-write of a certificate revocation list: the connector's side
    (na_sso/connectors/opnsense.py) and the firewall's side (na_sso/mock_targets/app.py). */
module Crl {
  import opened Prelude
  import opened Refids

  /** Reason codes 0..10 of section 5.3.1 of RFC 5280, as the two sides number them. */
  const REASONS: nat := 11

  datatype Certificate = Certificate(refid: string, descr: string, caref: string, commonName: string, certType: string)

  datatype CrlState = CrlState(descr: string, lifetime: string, revoked: seq<map<string, string>>)
  {
    predicate Valid() { |revoked| == REASONS }
  }

  datatype CrlOption = CrlOption(value: string, selected: string)

  /** What `crl/get` returns. */
  datatype CrlView = CrlView(descr: string, lifetime: string, reasons: seq<map<string, CrlOption>>)

  /** A value of the request body: a text, or anything else. */
  datatype RawValue = RawText(text: string) | NotText

  /** What `crl/set` is sent; reasons may be missing, and a body without the internal method
      stands for every body of another shape. */
  datatype CrlUpdate = CrlUpdate(isInternal: bool, descr: string, lifetime: string, reasons: map<nat, RawValue>)
  {
    /** A missing reason is an empty list. */
    function Raw(reason: nat): RawValue {
      if reason in reasons then reasons[reason] else RawText([])
    }

    predicate AllText() {
      forall r | 0 <= r < REASONS :: Raw(r).RawText?
    }
  }

  datatype UpdateResult = Saved | Refused | ServerError

  function NewCrl(caref: string): CrlState {
    CrlState("na-sso CRL " + caref, "9999", seq(REASONS, _ => map[]))
  }

  function CrlOf(crls: map<string, CrlState>, caref: string): CrlState {
    if caref in crls then crls[caref] else NewCrl(caref)
  }

  function CertificateNames(certs: map<string, Certificate>, caref: string): map<string, string> {
    map refid | refid in certs && certs[refid].caref == caref :: certs[refid].descr
  }

  function Merged(base: map<string, string>, revoked: seq<map<string, string>>): map<string, string> {
    if revoked == [] then base else Merged(base, Front(revoked)) + Last(revoked)
  }

  function ViewOf(state: CrlState, candidates: map<string, string>): CrlView
    requires state.Valid()
  {
    CrlView(state.descr, state.lifetime,
            seq(REASONS, r requires 0 <= r < REASONS =>
              map refid | refid in candidates ::
                CrlOption(candidates[refid], if refid in state.revoked[r] then "1" else "0")))
  }

  function RebuiltReason(raw: string, names: map<string, string>): map<string, string> {
    map refid | refid in ParseRefids(raw) :: if refid in names then names[refid] else refid
  }

  function Rebuilt(update: CrlUpdate, names: map<string, string>): CrlState
    requires update.AllText()
  {
    CrlState(update.descr, Strip(update.lifetime),
             seq(REASONS, r requires 0 <= r < REASONS => RebuiltReason(update.Raw(r).text, names)))
  }

  /** Only clean refids are ever stored: they come from the parser. */
  ghost predicate Tidy(state: CrlState) {
    forall r, refid | 0 <= r < |state.revoked| && refid in state.revoked[r] :: Clean(refid)
  }

  lemma RebuiltIsTidy(update: CrlUpdate, names: map<string, string>)
    requires update.AllText()
    ensures Tidy(Rebuilt(update, names))
  {
    var state := Rebuilt(update, names);
    forall r, refid | 0 <= r < |state.revoked| && refid in state.revoked[r]
      ensures Clean(refid)
    {
      ParsedIsClean(update.Raw(r).text);
      assert refid in RebuiltReason(update.Raw(r).text, names);
    }
  }

  /** The name a refid has on the firewall: where it is listed, the one of the last reason that
      lists it; else that of its certificate, if the authority issued one. */
  ghost predicate IsNameOf(name: string, refid: string, certs: map<string, Certificate>, caref: string,
                           revoked: seq<map<string, string>>)
  {
    || (exists q | 0 <= q < |revoked| :: refid in revoked[q] && name == revoked[q][refid]
                                         && forall p | q < p < |revoked| :: refid !in revoked[p])
    || ((forall q | 0 <= q < |revoked| :: refid !in revoked[q])
        && name == if refid in certs && certs[refid].caref == caref then certs[refid].descr else refid)
  }

  lemma {:induction false} MergedNames(certs: map<string, Certificate>, caref: string,
                                       revoked: seq<map<string, string>>, refid: string)
    ensures
      var names := Merged(CertificateNames(certs, caref), revoked);
      IsNameOf(if refid in names then names[refid] else refid, refid, certs, caref, revoked)
  {
    if revoked != [] && refid !in Last(revoked) {
      MergedNames(certs, caref, Front(revoked), refid);
    }
  }

  /** A refid is offered for every reason if some reason lists it or the authority issued its
      certificate. */
  lemma {:induction false} MergedKeys(certs: map<string, Certificate>, caref: string,
                                      revoked: seq<map<string, string>>, refid: string)
    ensures refid in Merged(CertificateNames(certs, caref), revoked) <==>
      || (exists q | 0 <= q < |revoked| :: refid in revoked[q])
      || (refid in certs && certs[refid].caref == caref)
  {
    if revoked != [] {
      MergedKeys(certs, caref, Front(revoked), refid);
    }
  }

  /** The refid is offered if some reason lists it or its certificate is one of the authority,
      under its name, and selected if and only if this reason lists it. */
  ghost predicate Offered(options: map<string, CrlOption>, refid: string, state: CrlState, r: nat,
                          certs: map<string, Certificate>, caref: string)
    requires r < |state.revoked|
  {
    && (refid in options <==>
          || (exists q | 0 <= q < |state.revoked| :: refid in state.revoked[q])
          || (refid in certs && certs[refid].caref == caref))
    && (refid in options ==>
          && IsNameOf(options[refid].value, refid, certs, caref, state.revoked)
          && options[refid].selected == if refid in state.revoked[r] then "1" else "0")
  }

  /** A view shows the list's description and lifetime and offers the refids for every reason. */
  ghost predicate Shows(view: CrlView, state: CrlState, certs: map<string, Certificate>, caref: string) {
    && view.descr == state.descr && view.lifetime == state.lifetime && |view.reasons| == |state.revoked|
    && forall r: nat, refid | r < |view.reasons| :: Offered(view.reasons[r], refid, state, r, certs, caref)
  }

  lemma ViewShows(state: CrlState, certs: map<string, Certificate>, caref: string)
    requires state.Valid()
    ensures Shows(ViewOf(state, Merged(CertificateNames(certs, caref), state.revoked)), state, certs, caref)
  {
    var view := ViewOf(state, Merged(CertificateNames(certs, caref), state.revoked));
    forall r: nat, refid | r < |view.reasons|
      ensures Offered(view.reasons[r], refid, state, r, certs, caref)
    {
      MergedKeys(certs, caref, state.revoked, refid);
      MergedNames(certs, caref, state.revoked, refid);
    }
  }

  class Firewall {
    const cas: set<string>
    var certs: map<string, Certificate>
    var crls: map<string, CrlState>
    var failNextUpdate: bool

    constructor (cas: set<string>)
      ensures this.cas == cas && certs == map[] && crls == map[] && !failNextUpdate
    {
      this.cas := cas;
      certs, crls, failNextUpdate := map[], map[], false;
    }

    ghost predicate Valid()
      reads this
    {
      forall caref | caref in crls :: crls[caref].Valid() && Tidy(crls[caref])
    }

    ghost function Candidates(caref: string): map<string, string>
      reads this
    {
      Merged(CertificateNames(certs, caref), CrlOf(crls, caref).revoked)
    }

    method MergeNames(caref: string, revoked: seq<map<string, string>>) returns (names: map<string, string>)
      ensures names == Merged(CertificateNames(certs, caref), revoked)
    {
      names := CertificateNames(certs, caref);
      for r := 0 to |revoked|
        invariant names == Merged(CertificateNames(certs, caref), revoked[..r])
      {
        assert Front(revoked[..r + 1]) == revoked[..r];
        names := names + revoked[r];
      }
      assert revoked[..|revoked|] == revoked;
    }

    method CrlGet(caref: string) returns (view: CrlView)
      requires Valid()
      modifies this`crls
      ensures Valid() && crls == old(crls)[caref := CrlOf(old(crls), caref)]
      ensures view == ViewOf(CrlOf(crls, caref), Candidates(caref))
      ensures Shows(view, crls[caref], certs, caref)
      ensures caref !in old(crls) ==>
        crls[caref].descr == "na-sso CRL " + caref && crls[caref].lifetime == "9999"
        && forall r | 0 <= r < REASONS :: crls[caref].revoked[r] == map[]
    {
      var state := CrlOf(crls, caref);
      crls := crls[caref := state];
      var candidates := MergeNames(caref, state.revoked);
      view := ViewOf(state, candidates);
      ViewShows(state, certs, caref);
    }

    /** Stops at the first reason that is not a text. */
    method RebuildReasons(update: CrlUpdate, names: map<string, string>)
      returns (ok: bool, revoked: seq<map<string, string>>)
      ensures ok <==> update.AllText()
      ensures ok ==>
        var state := CrlState(update.descr, Strip(update.lifetime), revoked);
        state == Rebuilt(update, names) && state.Valid() && Tidy(state)
    {
      revoked := [];
      for r := 0 to REASONS
        invariant |revoked| == r
        invariant forall k | 0 <= k < r ::
          update.Raw(k).RawText? && revoked[k] == RebuiltReason(update.Raw(k).text, names)
      {
        var raw := update.Raw(r);
        if raw.NotText? {
          return false, revoked;
        }
        revoked := revoked + [RebuiltReason(raw.text, names)];
      }
      assert revoked == Rebuilt(update, names).revoked;
      RebuiltIsTidy(update, names);
      return true, revoked;
    }

    method CrlSet(caref: string, update: CrlUpdate) returns (result: UpdateResult)
      requires Valid()
      modifies this`crls, this`failNextUpdate
      ensures Valid() && !failNextUpdate
      ensures result == if old(failNextUpdate) then ServerError
                        else if caref !in cas || !update.isInternal then Refused
                        else if Strip(update.lifetime) == [] then ServerError
                        else if !update.AllText() then Refused
                        else Saved
      ensures result.Saved? ==>
        var names := Merged(CertificateNames(certs, caref), CrlOf(old(crls), caref).revoked);
        crls == old(crls)[caref := Rebuilt(update, names)]
      ensures !result.Saved? ==> forall other :: CrlOf(crls, other) == CrlOf(old(crls), other)
    {
      if failNextUpdate {
        failNextUpdate := false;
        return ServerError;
      }
      if caref !in cas || !update.isInternal {
        return Refused;
      }
      var lifetime := Strip(update.lifetime);
      if lifetime == [] {
        return ServerError;
      }
      var previous := CrlOf(crls, caref);
      crls := crls[caref := previous];
      var names := MergeNames(caref, previous.revoked);
      var ok, revoked := RebuildReasons(update, names);
      if !ok {
        return Refused;
      }
      crls := crls[caref := CrlState(update.descr, lifetime, revoked)];
      return Saved;
    }
  }

  // ---- the connector ----

  /** The refids the connector reads as revoked for one reason. */
  function SelectedRefids(options: map<string, CrlOption>): set<string> {
    set refid | refid in options && options[refid].selected == "1"
  }

  function RevokedRefidsByReason(view: CrlView): seq<set<string>>
    requires |view.reasons| == REASONS
  {
    seq(REASONS, r requires 0 <= r < REASONS => SelectedRefids(view.reasons[r]))
  }

  method ReadRevoked(view: CrlView) returns (revoked: seq<set<string>>)
    requires |view.reasons| == REASONS
    ensures revoked == RevokedRefidsByReason(view)
  {
    revoked := [];
    for r := 0 to REASONS
      invariant |revoked| == r
      invariant forall k | 0 <= k < r :: revoked[k] == SelectedRefids(view.reasons[k])
    {
      revoked := revoked + [SelectedRefids(view.reasons[r])];
    }
  }

  function UpdateLifetime(lifetime: string): string {
    var trimmed := Strip(if lifetime == [] then "9999" else lifetime);
    if trimmed == [] then "9999" else trimmed
  }

  method PrintReasons(revoked: seq<set<string>>) returns (reasons: map<nat, RawValue>, ghost orders: seq<seq<string>>)
    requires |revoked| == REASONS
    ensures |orders| == REASONS && (forall r :: r in reasons <==> 0 <= r < REASONS)
    ensures forall r | 0 <= r < REASONS ::
      reasons[r] == RawText(Join(orders[r])) && (set x | x in orders[r]) == revoked[r]
  {
    reasons, orders := map[], [];
    for r := 0 to REASONS
      invariant |orders| == r && (forall k :: k in reasons <==> 0 <= k < r)
      invariant forall k | 0 <= k < r ::
        reasons[k] == RawText(Join(orders[k])) && (set x | x in orders[k]) == revoked[k]
    {
      var order := Enumerate(revoked[r]);
      reasons, orders := reasons[r := RawText(Join(order))], orders + [order];
    }
  }

  /** What reading the list gives: the refids revoked for each reason, as the firewall
      stores them. */
  ghost function RevokedSets(state: CrlState): seq<set<string>>
    requires state.Valid()
  {
    seq(REASONS, r requires 0 <= r < REASONS => state.revoked[r].Keys)
  }

  ghost predicate AllClean(revoked: seq<set<string>>) {
    forall r, refid | 0 <= r < |revoked| && refid in revoked[r] :: Clean(refid)
  }

  lemma OneMoreClean(revoked: seq<set<string>>, refid: string)
    requires |revoked| == REASONS && AllClean(revoked)
    ensures AllClean(revoked[0 := revoked[0] + {refid}]) <==> Clean(refid)
  {
    var wanted := revoked[0 := revoked[0] + {refid}];
    assert refid in wanted[0];
    forall r, x | 0 <= r < |wanted| && x in wanted[r] && x != refid
      ensures Clean(x)
    {
      assert x in revoked[r];
    }
  }

  lemma {:induction false} MergedCovers(base: map<string, string>, revoked: seq<map<string, string>>, r: nat)
    requires r < |revoked|
    ensures revoked[r].Keys <= Merged(base, revoked).Keys
  {
    if r < |revoked| - 1 {
      MergedCovers(base, Front(revoked), r);
    }
  }

  /** Reading loses nothing: the view selects exactly the stored refids. */
  lemma {:induction false} ReadingIsExact(state: CrlState, base: map<string, string>)
    requires state.Valid()
    ensures RevokedRefidsByReason(ViewOf(state, Merged(base, state.revoked))) == RevokedSets(state)
  {
    var view := ViewOf(state, Merged(base, state.revoked));
    forall r | 0 <= r < REASONS
      ensures SelectedRefids(view.reasons[r]) == state.revoked[r].Keys
    {
      MergedCovers(base, state.revoked, r);
    }
  }

  /** Writing sets back gives the same sets if and only if all their refids are clean. */
  lemma WritingIsExactIff(revoked: seq<set<string>>, update: CrlUpdate, orders: seq<seq<string>>,
                          names: map<string, string>)
    requires |revoked| == |orders| == REASONS
    requires forall r | 0 <= r < REASONS ::
      update.Raw(r) == RawText(Join(orders[r])) && (set x | x in orders[r]) == revoked[r]
    ensures RevokedSets(Rebuilt(update, names)) == revoked <==> AllClean(revoked)
  {
    var after := RevokedSets(Rebuilt(update, names));
    forall r | 0 <= r < REASONS
      ensures after[r] == ParseRefids(update.Raw(r).text)
      ensures after[r] == revoked[r] <==> forall x | x in revoked[r] :: Clean(x)
    {
      PrintParseRoundTrip(orders[r]);
      assert forall x :: x in orders[r] <==> x in revoked[r];
    }
    if AllClean(revoked) {
      assert after == revoked;
    }
  }

  lemma {:induction false} StripStable(text: string)
    requires text == [] || (!IsSpace(text[0]) && !IsSpace(Last(text)))
    ensures Strip(text) == text
  {
  }

  /** The lifetime that is stored by an update: the old one, trimmed, or 9999 where it is
      blank. */
  lemma LifetimeKept(lifetime: string)
    ensures Strip(UpdateLifetime(lifetime)) == if Strip(lifetime) == [] then "9999" else Strip(lifetime)
  {
    StripLeftFacts(lifetime);
    StripRightFacts(StripLeft(lifetime));
    StripStable(Strip(lifetime));
    StripStable("9999");
  }

  /** What an update leaves of a list beside its refids: description and lifetime as they were,
      or their defaults where they are blank, and every listed refid under its name. */
  ghost predicate KeepsDetails(before: CrlState, after: CrlState, certs: map<string, Certificate>, caref: string,
                               targetId: string)
  {
    && after.descr == (if before.descr == [] then "na-sso " + targetId else before.descr)
    && after.lifetime == (if Strip(before.lifetime) == [] then "9999" else Strip(before.lifetime))
    && forall r, x | 0 <= r < |after.revoked| && x in after.revoked[r] ::
         IsNameOf(after.revoked[r][x], x, certs, caref, before.revoked)
  }

  lemma UpdateKeepsDetails(before: CrlState, update: CrlUpdate, certs: map<string, Certificate>, caref: string,
                           targetId: string)
    requires update.AllText() && update.lifetime == UpdateLifetime(before.lifetime)
    requires update.descr == if before.descr != [] then before.descr else "na-sso " + targetId
    ensures KeepsDetails(before, Rebuilt(update, Merged(CertificateNames(certs, caref), before.revoked)), certs, caref,
                         targetId)
  {
    var names := Merged(CertificateNames(certs, caref), before.revoked);
    var after := Rebuilt(update, names);
    LifetimeKept(before.lifetime);
    forall r, x | 0 <= r < |after.revoked| && x in after.revoked[r]
      ensures IsNameOf(after.revoked[r][x], x, certs, caref, before.revoked)
    {
      MergedNames(certs, caref, before.revoked, x);
      assert after.revoked[r] == RebuiltReason(update.Raw(r).text, names);
    }
  }

  /** One revocation: read, add under reason 0, write back. If the update is saved, reading
      again gives the old set for every reason with the refid added under reason 0 only,
      exactly when the new refid is clean. */
  method AddClientCertificateToCrl(fw: Firewall, targetId: string, refid: string, caref: string) returns (ok: bool)
    requires fw.Valid()
    modifies fw`crls, fw`failNextUpdate
    ensures fw.Valid()
    ensures ok <==> !old(fw.failNextUpdate) && caref in fw.cas
    ensures !ok ==> CrlOf(fw.crls, caref) == CrlOf(old(fw.crls), caref)
    ensures ok ==>
      var before := RevokedSets(CrlOf(old(fw.crls), caref));
      var wanted := before[0 := before[0] + {refid}];
      (RevokedSets(CrlOf(fw.crls, caref)) == wanted <==> Clean(refid))
    ensures ok ==>
      KeepsDetails(CrlOf(old(fw.crls), caref), CrlOf(fw.crls, caref), fw.certs, caref, targetId)
    ensures forall other | other != caref :: CrlOf(fw.crls, other) == CrlOf(old(fw.crls), other)
  {
    ghost var state := CrlOf(fw.crls, caref);
    var view := fw.CrlGet(caref);
    ReadingIsExact(state, CertificateNames(fw.certs, caref));
    var revoked := ReadRevoked(view);
    ghost var before := revoked;
    revoked := revoked[0 := revoked[0] + {refid}];
    OneMoreClean(before, refid);
    var reasons, orders := PrintReasons(revoked);
    var descr := if view.descr != [] then view.descr else "na-sso " + targetId;
    var update := CrlUpdate(true, descr, UpdateLifetime(view.lifetime), reasons);
    LifetimeNeverBlank(view.lifetime);
    ghost var names := Merged(CertificateNames(fw.certs, caref), CrlOf(fw.crls, caref).revoked);
    var result := fw.CrlSet(caref, update);
    ok := result.Saved?;
    WritingIsExactIff(revoked, update, orders, names);
    UpdateKeepsDetails(state, update, fw.certs, caref, targetId);
  }

  /** The connector never sends the blank lifetime that the firewall answers with an error. */
  lemma LifetimeNeverBlank(lifetime: string)
    ensures Strip(UpdateLifetime(lifetime)) != []
  {
    var chosen := if lifetime == [] then "9999" else lifetime;
    StripLeftFacts(chosen);
    StripRightFacts(StripLeft(chosen));
  }

  // ---- certificate provisioning ----

  predicate Usable(row: Certificate, username: string, caref: string, excluded: set<string>) {
    && row.commonName == username && row.caref == caref
    && (row.certType == "usr_cert" || row.certType == "combined_server_client")
    && row.refid != [] && row.refid !in excluded
  }

  /** The first usable row of a search. */
  method FindClientCertificate(rows: seq<Certificate>, username: string, caref: string, excluded: set<string>)
    returns (found: Option<Certificate>)
    ensures found.Some? ==>
      exists i | 0 <= i < |rows| ::
        && rows[i] == found.value && Usable(rows[i], username, caref, excluded)
        && forall k | 0 <= k < i :: !Usable(rows[k], username, caref, excluded)
    ensures found.None? ==> forall k | 0 <= k < |rows| :: !Usable(rows[k], username, caref, excluded)
  {
    for i := 0 to |rows|
      invariant forall k | 0 <= k < i :: !Usable(rows[k], username, caref, excluded)
    {
      if Usable(rows[i], username, caref, excluded) {
        return Some(rows[i]);
      }
    }
    return None;
  }

  function UnionOf(sets: seq<set<string>>): set<string> {
    set r, refid | 0 <= r < |sets| && refid in sets[r] :: refid
  }

  lemma UnionIff(view: CrlView, refid: string)
    requires |view.reasons| == REASONS
    ensures refid in UnionOf(RevokedRefidsByReason(view)) <==> Listed(view, refid)
  {
    var sets := RevokedRefidsByReason(view);
    forall r | 0 <= r < REASONS
      ensures refid in sets[r] <==> refid in view.reasons[r] && view.reasons[r][refid].selected == "1"
    {
    }
  }

  /** The refid is selected for some reason. */
  predicate Listed(view: CrlView, refid: string) {
    exists r | 0 <= r < |view.reasons| :: refid in view.reasons[r] && view.reasons[r][refid].selected == "1"
  }

  /** A client certificate the authority issued for this user, with a refid that is on no list. */
  predicate Serves(row: Certificate, username: string, caref: string, view: CrlView) {
    && row.commonName == username && row.caref == caref && row.refid != "" && !Listed(view, row.refid)
    && row.certType in {"usr_cert", "combined_server_client"}
  }

  lemma ServesIffUsable(view: CrlView, row: Certificate, username: string, caref: string)
    requires |view.reasons| == REASONS
    ensures Serves(row, username, caref, view) <==> Usable(row, username, caref, UnionOf(RevokedRefidsByReason(view)))
  {
    UnionIff(view, row.refid);
  }

  /** `rowsAfter` is what the search returns once a certificate has been requested, and
      `created` whether that request was accepted. A refid that is returned is never a
      revoked one, and a new certificate is requested exactly when no usable one exists. */
  method EnsureClientCertificate(view: CrlView, rows: seq<Certificate>, created: bool, rowsAfter: seq<Certificate>,
                                 username: string, caref: string)
    returns (refid: Option<string>, requested: bool)
    requires |view.reasons| == REASONS
    ensures requested <==> forall k | 0 <= k < |rows| :: !Serves(rows[k], username, caref, view)
    ensures
      var searched := if requested then rowsAfter else rows;
      && (refid.Some? ==>
            exists k | 0 <= k < |searched| ::
              && searched[k].refid == refid.value && Serves(searched[k], username, caref, view)
              && forall j | 0 <= j < k :: !Serves(searched[j], username, caref, view))
      && (refid.None? <==>
            requested && (!created || forall k | 0 <= k < |searched| :: !Serves(searched[k], username, caref, view)))
  {
    forall row {
      ServesIffUsable(view, row, username, caref);
    }
    var sets := ReadRevoked(view);
    var revoked := UnionOf(sets);
    var found := FindClientCertificate(rows, username, caref, revoked);
    requested := found.None?;
    if requested {
      if !created {
        return None, true;
      }
      found := FindClientCertificate(rowsAfter, username, caref, revoked);
      if found.None? {
        return None, true;
      }
    }
    return Some(found.value.refid), requested;
  }
}
