/** The verifier policy of internal/verification: evaluator.go and service.go. */
module Verification {
  import opened Common
  import Lifecycle
  import opened Journal
  import opened Projection
  import opened AuthorityEvaluation
  import opened Snapshot

  datatype Dimension = Signature | Validity | Status | SubjectBinding

  datatype VerificationReason =
    | DimensionInvalid(dimension: Dimension)
    | DimensionUnknown(dimension: Dimension)
    | DimensionUnrecognized(dimension: Dimension)
    | IssuerUnauthorized
    | AuthorityReview
    | AuthorityUnrecognized

  datatype VerificationDecision = Verified | NeedsReview | Rejected

  datatype VerificationResult = VerificationResult(
    decision: VerificationDecision, policyId: string, reasons: seq<VerificationReason>)

  // ---------------------------------------------------------------- what the policy says

  function DimensionReasons(result: EvidenceResult, d: Dimension): seq<VerificationReason> {
    match result
    case EvidenceValid => []
    case EvidenceInvalid => [DimensionInvalid(d)]
    case EvidenceUnknown => [DimensionUnknown(d)]
    case EvidenceOther(_) => [DimensionUnrecognized(d)]
  }

  function AuthorityReasons(d: Decision): seq<VerificationReason> {
    match d
    case Authorized => []
    case Unauthorized => [IssuerUnauthorized]
    case Review => [AuthorityReview]
    case OtherDecision(_) => [AuthorityUnrecognized]
  }

  /** A known negative fact, as opposed to something undetermined. */
  predicate Negative(r: VerificationReason) {
    r.DimensionInvalid? || r.IssuerUnauthorized?
  }

  /** The reasons of every dimension, in the fixed order. */
  function AllReasons(evidence: Evidence, authority: Decision): seq<VerificationReason> {
    DimensionReasons(evidence.signature, Signature) + DimensionReasons(evidence.validity, Validity) +
    DimensionReasons(evidence.status, Status) + DimensionReasons(evidence.subject, SubjectBinding) +
    AuthorityReasons(authority)
  }

  predicate AllValid(evidence: Evidence) {
    evidence.signature.EvidenceValid? && evidence.validity.EvidenceValid? &&
    evidence.status.EvidenceValid? && evidence.subject.EvidenceValid?
  }

  predicate SomeInvalid(evidence: Evidence) {
    evidence.signature.EvidenceInvalid? || evidence.validity.EvidenceInvalid? ||
    evidence.status.EvidenceInvalid? || evidence.subject.EvidenceInvalid?
  }

  /** Positive only when everything is, negative as soon as anything is, and undecided otherwise. */
  function PolicyDecision(evidence: Evidence, authority: Decision): VerificationDecision {
    if SomeInvalid(evidence) || authority == Unauthorized then Rejected
    else if AllValid(evidence) && authority == Authorized then Verified
    else NeedsReview
  }

  // ---------------------------------------------------------------- the evaluator

  /** The variables that `classifyEvidence` updates through pointers. */
  class Findings {
    var reasons: seq<VerificationReason>
    var hasNegative: bool
    var hasIndeterminate: bool

    constructor ()
      ensures reasons == [] && !hasNegative && !hasIndeterminate
    {
      reasons, hasNegative, hasIndeterminate := [], false, false;
    }

    method ClassifyEvidence(result: EvidenceResult, d: Dimension)
      modifies this
      ensures reasons == old(reasons) + DimensionReasons(result, d)
      ensures hasNegative == (old(hasNegative) || result == EvidenceInvalid)
      ensures hasIndeterminate == (old(hasIndeterminate) || result.EvidenceUnknown? || result.EvidenceOther?)
    {
      match result {
        case EvidenceValid =>
          assert reasons + [] == reasons;
        case EvidenceInvalid =>
          reasons := reasons + [DimensionInvalid(d)];
          hasNegative := true;
        case EvidenceUnknown =>
          reasons := reasons + [DimensionUnknown(d)];
          hasIndeterminate := true;
        case EvidenceOther(_) =>
          reasons := reasons + [DimensionUnrecognized(d)];
          hasIndeterminate := true;
      }
    }
  }

  /** `Evaluator.Evaluate` of the verifier policy. */
  method EvaluatePolicy(evidence: Evidence, authority: Evaluation, policyId: string) returns (r: VerificationResult)
    ensures r == VerificationResult(PolicyDecision(evidence, authority.decision), policyId,
                                    AllReasons(evidence, authority.decision))
  {
    var findings := new Findings();
    findings.ClassifyEvidence(evidence.signature, Signature);
    findings.ClassifyEvidence(evidence.validity, Validity);
    findings.ClassifyEvidence(evidence.status, Status);
    findings.ClassifyEvidence(evidence.subject, SubjectBinding);
    var reasons := findings.reasons;
    var hasNegative := findings.hasNegative;
    var hasIndeterminate := findings.hasIndeterminate;
    match authority.decision {
      case Authorized =>
      case Unauthorized =>
        reasons := reasons + [IssuerUnauthorized];
        hasNegative := true;
      case Review =>
        reasons := reasons + [AuthorityReview];
        hasIndeterminate := true;
      case OtherDecision(_) =>
        reasons := reasons + [AuthorityUnrecognized];
        hasIndeterminate := true;
    }
    var decision := Verified;
    if hasNegative {
      decision := Rejected;
    } else if hasIndeterminate {
      decision := NeedsReview;
    }
    return VerificationResult(decision, policyId, reasons);
  }

  /** The reasons explain the decision: none means VERIFIED, and a negative one means REJECTED. */
  lemma ReasonsExplainDecision(evidence: Evidence, authority: Decision)
    ensures PolicyDecision(evidence, authority) == Verified <==> AllReasons(evidence, authority) == []
    ensures PolicyDecision(evidence, authority) == Rejected <==>
      exists r :: r in AllReasons(evidence, authority) && Negative(r)
  {
    var reasons := AllReasons(evidence, authority);
    assert evidence.signature.EvidenceInvalid? ==> DimensionInvalid(Signature) in reasons;
    assert evidence.validity.EvidenceInvalid? ==> DimensionInvalid(Validity) in reasons;
    assert evidence.status.EvidenceInvalid? ==> DimensionInvalid(Status) in reasons;
    assert evidence.subject.EvidenceInvalid? ==> DimensionInvalid(SubjectBinding) in reasons;
    assert authority == Unauthorized ==> IssuerUnauthorized in reasons;
  }

  // ---------------------------------------------------------------- the service

  datatype ServiceResult = ServiceResult(evidence: Evidence, authority: Evaluation, verification: VerificationResult)

  /** `Service.Evaluate`, with the snapshot resolver behind its interface. */
  method EvaluateService(resolver: SnapshotAuthorityResolver?, cancelled: bool, evidence: Evidence, policyId: string,
                         evaluatedAt: Time)
    returns (r: ServiceResult)
    ensures r.evidence == evidence
    ensures r.authority == if cancelled || resolver == null then Evaluation(Review, "", ResolutionFailed)
      else Evaluated(evidence, Applicable(resolver.grants, evidence.issuerId, evidence.claimType), evaluatedAt)
    ensures r.verification == VerificationResult(PolicyDecision(evidence, r.authority.decision), policyId,
                                                 AllReasons(evidence, r.authority.decision))
  {
    var resolved := ResolveAuthorityGrants(resolver, cancelled, evidence.issuerId, evidence.claimType);
    var authority: Evaluation;
    if resolved.None? {
      authority := Evaluation(Review, "", ResolutionFailed);
    } else {
      authority := Evaluate(evidence, resolved.value, evaluatedAt);
    }
    var verification := EvaluatePolicy(evidence, authority, policyId);
    return ServiceResult(evidence, authority, verification);
  }

  /**
   * From the snapshot to the verdict, at any instant: VERIFIED exactly when the four evidence results are valid and some
   * authorization in scope is ACTIVE throughout the microsecond; REJECTED exactly when some evidence result is invalid,
   * or none in scope is ACTIVE and some one is SUSPENDED or REVOKED throughout it.
   */
  lemma VerdictOverSnapshot(entries: seq<EntryView>, recordedThrough: Time, evidence: Evidence, t: Time)
    requires SnapshotValid(entries, recordedThrough)
    requires forall i :: 0 <= i < |entries| ==> Built(entries[i].events)
    ensures var resolved := Applicable(AllGrants(entries, recordedThrough), evidence.issuerId, evidence.claimType);
      var verdict := PolicyDecision(evidence, Evaluated(evidence, resolved, t).decision);
      && (verdict == Verified <==>
            AllValid(evidence) && SomeInState(entries, recordedThrough, evidence, t, Lifecycle.Active))
      && (verdict == Rejected <==>
            || SomeInvalid(evidence)
            || (&& !SomeInState(entries, recordedThrough, evidence, t, Lifecycle.Active)
                && (|| SomeInState(entries, recordedThrough, evidence, t, Lifecycle.Suspended)
                    || SomeInState(entries, recordedThrough, evidence, t, Lifecycle.Revoked))))
  {
    hide SomeInState, Applicable, AllGrants, Evaluated, SnapshotValid;
    SnapshotDecision(entries, recordedThrough, evidence, t);
  }

  /** The whole pipeline: a snapshot is resolved, the authority decided and the policy applied. */
  method VerifyAgainstSnapshot(complete: bool, recordedThrough: Time, entries: seq<Entry>, evidence: Evidence,
                               policyId: string, evaluatedAt: Time)
    returns (r: ServiceResult)
    requires forall e :: e in entries ==> e.journal.Valid()
    ensures r.verification.decision ==
      if complete && Canonical(recordedThrough) && SnapshotValid(Views(entries), recordedThrough) then
        var resolved := Applicable(AllGrants(Views(entries), recordedThrough), evidence.issuerId, evidence.claimType);
        PolicyDecision(evidence, Evaluated(evidence, resolved, evaluatedAt).decision)
      else PolicyDecision(evidence, Review)
  {
    var resolver := NewSnapshotAuthorityResolver(complete, recordedThrough, entries);
    r := EvaluateService(resolver, false, evidence, policyId, evaluatedAt);
  }
}
