/** The issuer-authority evaluator of internal/authority/evaluator.go. */
module AuthorityEvaluation {
  import opened Common
  import opened Projection

  datatype EvidenceResult = EvidenceValid | EvidenceInvalid | EvidenceUnknown | EvidenceOther(name: string)

  /** The parts of `NormalizedCredentialEvidence` that the two evaluators read. */
  datatype Evidence = Evidence(
    issuerId: string,
    claimType: string,
    employerId: string,
    signature: EvidenceResult,
    validity: EvidenceResult,
    status: EvidenceResult,
    subject: EvidenceResult)

  datatype Decision = Authorized | Unauthorized | Review | OtherDecision(name: string)

  datatype Reason =
    | MatchingActiveGrant | MatchingInactiveGrant | NoCurrentGrant | NoApplicableGrant | ResolutionFailed

  datatype Evaluation = Evaluation(decision: Decision, grantId: string, reason: Reason)

  predicate MatchesScope(evidence: Evidence, g: Grant) {
    g.issuerId == evidence.issuerId && g.claimType == evidence.claimType && g.subjectId == evidence.employerId
  }

  predicate Current(g: Grant, now: Time) {
    g.validFrom <= now && (g.validUntil.Some? ==> now <= g.validUntil.value)
  }

  predicate Backs(evidence: Evidence, g: Grant, now: Time, state: GrantState) {
    MatchesScope(evidence, g) && Current(g, now) && g.state == state
  }

  predicate SomeBacks(evidence: Evidence, grants: seq<Grant>, now: Time, state: GrantState) {
    exists g :: g in grants && Backs(evidence, g, now, state)
  }

  /** The first grant in the list that is in scope, current and in the given state. */
  function FirstBacking(evidence: Evidence, grants: seq<Grant>, now: Time, state: GrantState): (r: Option<Grant>)
    ensures r.Some? <==> SomeBacks(evidence, grants, now, state)
    ensures r.Some? ==> r.value in grants && Backs(evidence, r.value, now, state)
  {
    if grants == [] then None
    else
      var g := grants[|grants| - 1];
      var earlier := FirstBacking(evidence, grants[..|grants| - 1], now, state);
      assert grants == grants[..|grants| - 1] + [g];
      if earlier.Some? then earlier else if Backs(evidence, g, now, state) then Some(g) else None
  }

  predicate SomeNotCurrent(evidence: Evidence, grants: seq<Grant>, now: Time) {
    exists g :: g in grants && MatchesScope(evidence, g) && !Current(g, now)
  }

  /** What `Evaluate` answers: the first current active grant, else the first current inactive one, else REVIEW. */
  function Evaluated(evidence: Evidence, grants: seq<Grant>, now: Time): (r: Evaluation)
    ensures r.decision == Authorized <==> SomeBacks(evidence, grants, now, GrantActive)
    ensures r.decision == Unauthorized <==>
      SomeBacks(evidence, grants, now, GrantInactive) && !SomeBacks(evidence, grants, now, GrantActive)
    ensures r.decision == Review <==>
      !SomeBacks(evidence, grants, now, GrantInactive) && !SomeBacks(evidence, grants, now, GrantActive)
  {
    var active := FirstBacking(evidence, grants, now, GrantActive);
    var inactive := FirstBacking(evidence, grants, now, GrantInactive);
    if active.Some? then Evaluation(Authorized, active.value.grantId, MatchingActiveGrant)
    else if inactive.Some? then Evaluation(Unauthorized, inactive.value.grantId, MatchingInactiveGrant)
    else if SomeNotCurrent(evidence, grants, now) then Evaluation(Review, "", NoCurrentGrant)
    else Evaluation(Review, "", NoApplicableGrant)
  }

  lemma FirstBackingStep(evidence: Evidence, grants: seq<Grant>, i: nat, now: Time, state: GrantState)
    requires i < |grants|
    ensures var earlier := FirstBacking(evidence, grants[..i], now, state);
      FirstBacking(evidence, grants[..i + 1], now, state) ==
      if earlier.Some? then earlier else if Backs(evidence, grants[i], now, state) then Some(grants[i]) else None
  {
    assert grants[..i + 1][..i] == grants[..i];
  }

  lemma {:induction false} FirstBackingSettles(evidence: Evidence, grants: seq<Grant>, i: nat, now: Time, state: GrantState)
    requires i <= |grants| && FirstBacking(evidence, grants[..i], now, state).Some?
    ensures FirstBacking(evidence, grants, now, state) == FirstBacking(evidence, grants[..i], now, state)
  {
    if i == |grants| {
      assert grants[..i] == grants;
    } else {
      assert grants[..|grants| - 1][..i] == grants[..i];
      FirstBackingSettles(evidence, grants[..|grants| - 1], i, now, state);
    }
  }

  /** `Evaluator.Evaluate`. */
  method Evaluate(evidence: Evidence, grants: seq<Grant>, now: Time) returns (r: Evaluation)
    ensures r == Evaluated(evidence, grants, now)
  {
    var currentInactive: Option<Grant> := None;
    var matchingButNotCurrent := false;
    for i := 0 to |grants|
      invariant FirstBacking(evidence, grants[..i], now, GrantActive).None?
      invariant currentInactive == FirstBacking(evidence, grants[..i], now, GrantInactive)
      invariant matchingButNotCurrent == SomeNotCurrent(evidence, grants[..i], now)
    {
      var grant := grants[i];
      assert grants[..i + 1] == grants[..i] + [grant];
      FirstBackingStep(evidence, grants, i, now, GrantActive);
      FirstBackingStep(evidence, grants, i, now, GrantInactive);
      if !MatchesScope(evidence, grant) {
        continue;
      }
      if !Current(grant, now) {
        matchingButNotCurrent := true;
        continue;
      }
      match grant.state {
        case GrantActive =>
          FirstBackingSettles(evidence, grants, i + 1, now, GrantActive);
          return Evaluation(Authorized, grant.grantId, MatchingActiveGrant);
        case GrantInactive =>
          if currentInactive.None? {
            currentInactive := Some(grant);
          }
        case GrantOther(_) =>
      }
    }
    assert grants[..|grants|] == grants;
    if currentInactive.Some? {
      return Evaluation(Unauthorized, currentInactive.value.grantId, MatchingInactiveGrant);
    }
    if matchingButNotCurrent {
      return Evaluation(Review, "", NoCurrentGrant);
    }
    return Evaluation(Review, "", NoApplicableGrant);
  }
}
