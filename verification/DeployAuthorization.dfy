/**
 Who may deploy: the readiness reasons and the two operator consents
 (tools/haos-candidate-preflight-core.ts, tools/haos-candidate-deploy-core.ts:77-117 and
 tools/haos-candidate-deploy.ts:873-906).
 */
module DeployAuthorization {

  /** The preflight checks in the order of their reasons; the soak gate comes first. */
  const PREFLIGHT_CHECKS := 13

  datatype Reason = PreflightBlocked | CommitMismatch | ManifestMismatch | RollbackManifestMismatch | RuntimeMismatch

  datatype Readiness = Readiness(
    preflight: seq<bool>,
    commitMatches: bool,
    manifestMatches: bool,
    rollbackManifestMatches: bool,
    runtimeMatches: bool)

  /** The indices of the failed checks, in order: one reason each. */
  function Failed(checks: seq<bool>): (failed: seq<nat>)
    ensures forall i :: 0 <= i < |failed| ==> failed[i] < |checks| && !checks[failed[i]]
    ensures forall i, j :: 0 <= i < j < |failed| ==> failed[i] < failed[j]
    ensures forall k :: 0 <= k < |checks| && !checks[k] ==> k in failed
  {
    if checks == [] then []
    else
      var n := |checks| - 1;
      Failed(checks[..n]) + if checks[n] then [] else [n]
  }

  function AddReason(reasons: seq<Reason>, passed: bool, reason: Reason): seq<Reason> {
    if passed then reasons else reasons + [reason]
  }

  function Reasons(r: Readiness): seq<Reason> {
    var r0 := AddReason([], Failed(r.preflight) == [], PreflightBlocked);
    var r1 := AddReason(r0, r.commitMatches, CommitMismatch);
    var r2 := AddReason(r1, r.manifestMatches, ManifestMismatch);
    var r3 := AddReason(r2, r.rollbackManifestMatches, RollbackManifestMismatch);
    AddReason(r3, r.runtimeMatches, RuntimeMismatch)
  }

  /** `isDeploymentAuthorized`. */
  predicate IsAuthorized(deferSoak: bool, acceptHotpatched: bool, r: Readiness)
    requires |r.preflight| == PREFLIGHT_CHECKS
  {
    var reasons := Reasons(r);
    if reasons == [] then true
    else if !deferSoak then false
    else
      var allowed := {PreflightBlocked} + if acceptHotpatched then {RuntimeMismatch} else {};
      && PreflightBlocked in reasons
      && |reasons| == |allowed|
      && (forall reason | reason in reasons :: reason in allowed)
      && Failed(r.preflight) == [0]
      && (forall k | 1 <= k < PREFLIGHT_CHECKS :: r.preflight[k])
      && r.commitMatches && r.manifestMatches && r.rollbackManifestMatches
      && (r.runtimeMatches || acceptHotpatched)
  }

  predicate AllButSoakPass(r: Readiness)
    requires |r.preflight| == PREFLIGHT_CHECKS
  {
    && (forall k :: 1 <= k < PREFLIGHT_CHECKS ==> r.preflight[k])
    && r.commitMatches && r.manifestMatches && r.rollbackManifestMatches
  }

  lemma {:induction false} FailedNothing(checks: seq<bool>)
    ensures Failed(checks) == [] <==> forall k :: 0 <= k < |checks| ==> checks[k]
  {
    var failed := Failed(checks);
    if failed != [] {
      assert !checks[failed[0]];
    }
  }

  function Passes(r: Readiness, reason: Reason): bool {
    match reason
    case PreflightBlocked => forall k :: 0 <= k < |r.preflight| ==> r.preflight[k]
    case CommitMismatch => r.commitMatches
    case ManifestMismatch => r.manifestMatches
    case RollbackManifestMismatch => r.rollbackManifestMatches
    case RuntimeMismatch => r.runtimeMatches
  }

  /** Each reason is given exactly if its check fails. */
  lemma ReasonsExactly(r: Readiness, reason: Reason)
    ensures reason in Reasons(r) <==> !Passes(r, reason)
  {
    var r0 := AddReason([], Failed(r.preflight) == [], PreflightBlocked);
    var r1 := AddReason(r0, r.commitMatches, CommitMismatch);
    var r2 := AddReason(r1, r.manifestMatches, ManifestMismatch);
    var r3 := AddReason(r2, r.rollbackManifestMatches, RollbackManifestMismatch);
    FailedNothing(r.preflight);
    OneMoreReason([], Failed(r.preflight) == [], PreflightBlocked, reason);
    OneMoreReason(r0, r.commitMatches, CommitMismatch, reason);
    OneMoreReason(r1, r.manifestMatches, ManifestMismatch, reason);
    OneMoreReason(r2, r.rollbackManifestMatches, RollbackManifestMismatch, reason);
    OneMoreReason(r3, r.runtimeMatches, RuntimeMismatch, reason);
  }

  lemma OneMoreReason(reasons: seq<Reason>, passed: bool, reason: Reason, x: Reason)
    ensures x in AddReason(reasons, passed, reason) <==> x in reasons || (!passed && x == reason)
  {
  }

  lemma {:induction false} FailedOnlySoak(checks: seq<bool>)
    requires |checks| > 0
    ensures Failed(checks) == [0] <==> !checks[0] && forall k :: 1 <= k < |checks| ==> checks[k]
  {
    var failed := Failed(checks);
    if failed == [0] {
      assert failed[0] == 0;
    }
    if !checks[0] && forall k :: 1 <= k < |checks| ==> checks[k] {
      assert 0 in failed;
      assert failed[|failed| - 1] == 0 == failed[0];
    }
  }

  /** A deployment goes ahead exactly when everything passes, or when the operator deferred a
      failing soak, nothing else fails, and the hot-patch consent says just what is installed. */
  lemma AuthorizedExactly(deferSoak: bool, acceptHotpatched: bool, r: Readiness)
    requires |r.preflight| == PREFLIGHT_CHECKS
    ensures IsAuthorized(deferSoak, acceptHotpatched, r) <==>
            AllButSoakPass(r) &&
            if r.preflight[0] then r.runtimeMatches
            else deferSoak && (r.runtimeMatches <==> !acceptHotpatched)
  {
    FailedNothing(r.preflight);
    FailedOnlySoak(r.preflight);
    var allowed := {PreflightBlocked} + if acceptHotpatched then {RuntimeMismatch} else {};
    assert |allowed| == if acceptHotpatched then 2 else 1;
  }

  /** Consenting to a hot-patched runtime withdraws the permission a matching runtime had. */
  lemma MoreConsentAuthorizesLess(r: Readiness)
    requires |r.preflight| == PREFLIGHT_CHECKS && AllButSoakPass(r) && !r.preflight[0] && r.runtimeMatches
    ensures IsAuthorized(true, false, r) && !IsAuthorized(true, true, r)
  {
    AuthorizedExactly(true, false, r);
    AuthorizedExactly(true, true, r);
  }
}
