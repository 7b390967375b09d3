/** Reachability probes of a target and their clamped backoff (na_sso/target_credentials.py). */
module TargetProbes {
  import opened Prelude
  import opened Backoff

  /** `OtherFailure` stands for every classification but an authentication failure. */
  datatype Outcome = Reached | AuthenticationFailure | OtherFailure

  datatype Health = Health(
    lastOk: Option<bool>, verifiedAt: Option<real>, lastSuccessAt: Option<real>,
    attemptCount: nat, nextProbeAt: Option<real>)

  function Recorded(h: Health, outcome: Outcome, base: real, max: real, now: real): Health {
    if outcome.Reached? then
      Health(Some(true), if h.verifiedAt.Some? then h.verifiedAt else Some(now), Some(now), 0, None)
    else
      Health(Some(false), if outcome.AuthenticationFailure? then None else h.verifiedAt, h.lastSuccessAt,
             h.attemptCount + 1, Some(now + ClampedDelay(base, max, h.attemptCount + 1)))
  }

  class TargetCredential {
    var lastOk: Option<bool>
    var verifiedAt: Option<real>
    var lastSuccessAt: Option<real>
    var attemptCount: nat
    var nextProbeAt: Option<real>

    ghost function Snapshot(): Health
      reads this
    {
      Health(lastOk, verifiedAt, lastSuccessAt, attemptCount, nextProbeAt)
    }

    /** A newly saved credential: unproven and not scheduled. */
    constructor ()
      ensures Snapshot() == Health(None, None, None, 0, None)
    {
      lastOk, verifiedAt, lastSuccessAt, attemptCount, nextProbeAt := None, None, None, 0, None;
    }

    method RecordProbe(outcome: Outcome, base: real, max: real, now: real)
      modifies this
      ensures Snapshot() == Recorded(old(Snapshot()), outcome, base, max, now)
    {
      lastOk := Some(outcome.Reached?);
      if outcome.Reached? {
        verifiedAt := if verifiedAt.Some? then verifiedAt else Some(now);
        lastSuccessAt := Some(now);
        attemptCount := 0;
        nextProbeAt := None;
      } else {
        if outcome.AuthenticationFailure? {
          verifiedAt := None;
        }
        attemptCount := attemptCount + 1;
        nextProbeAt := Some(now + ClampedDelay(base, max, attemptCount));
      }
    }
  }

  datatype Probe = Probe(outcome: Outcome, at: real)

  function Replay(probes: seq<Probe>, base: real, max: real): Health {
    if probes == [] then Health(None, None, None, 0, None)
    else Recorded(Replay(Front(probes), base, max), Last(probes).outcome, base, max, Last(probes).at)
  }

  /** The failures since the last probe that reached the target. */
  function Streak(probes: seq<Probe>): nat {
    if probes == [] || Last(probes).outcome.Reached? then 0 else Streak(Front(probes)) + 1
  }

  /** The last probe that settles whether the credential is proven: a success proves it, an
      authentication failure revokes the proof, other failures leave it alone. */
  predicate Proven(probes: seq<Probe>) {
    probes != [] &&
    match Last(probes).outcome
    case Reached => true
    case AuthenticationFailure => false
    case OtherFailure => Proven(Front(probes))
  }

  /** When the target was last reached. */
  function LastReached(probes: seq<Probe>): Option<real> {
    if probes == [] then None
    else if Last(probes).outcome.Reached? then Some(Last(probes).at)
    else LastReached(Front(probes))
  }

  /** Since when the credential has been proven without a break. */
  function ProvenSince(probes: seq<Probe>): Option<real> {
    if probes == [] then None
    else match Last(probes).outcome
      case Reached => if Proven(Front(probes)) then ProvenSince(Front(probes)) else Some(Last(probes).at)
      case AuthenticationFailure => None
      case OtherFailure => ProvenSince(Front(probes))
  }

  /** After any history of probes: the counter is the current failure streak, a probe is
      scheduled exactly while it is not zero, at the clamped delay after the last failure,
      and the credential counts as verified exactly when the history proves it, since then;
      the last result and the last success are those of the history. */
  lemma {:induction false} ProbeHistory(probes: seq<Probe>, base: real, max: real)
    ensures
      var h := Replay(probes, base, max);
      && h.attemptCount == Streak(probes)
      && (h.nextProbeAt.Some? <==> Streak(probes) > 0)
      && (Streak(probes) > 0 ==>
            h.nextProbeAt == Some(Last(probes).at + ClampedDelay(base, max, Streak(probes))))
      && (h.verifiedAt.Some? <==> Proven(probes)) && h.verifiedAt == ProvenSince(probes)
      && h.lastOk == (if probes == [] then None else Some(Last(probes).outcome == Reached))
      && h.lastSuccessAt == LastReached(probes)
  {
    if probes != [] {
      ProbeHistory(Front(probes), base, max);
    }
  }
}
