/**
 * What stands behind a positive decision, told from the rows of the snapshot alone: internal/authority/projection.go,
 * snapshot_resolver.go and evaluator.go, and the policy of internal/verification/evaluator.go.
 */
module AuthoritySafety {
  import opened Common
  import opened Lifecycle
  import opened Journal
  import opened JournalReplay
  import opened Projection
  import opened AuthorityEvaluation
  import opened Refinement
  import opened Snapshot
  import V = Verification

  // ---------------------------------------------------------------- what a projection needs

  /** Known at the cutoff: a filled-in adjudication of the record's own scope that approves it. */
  predicate ApprovedByAdjudication(r: Record, cutoff: Time) {
    && r.adjudication.Some?
    && var a := r.adjudication.value;
    && a.outcome == OutcomeApproved
    && a.authorizationId == r.authorizationId && a.issuerId == r.issuerId
    && a.subjectId == r.subjectId && a.claimType == r.claimType
    && a.decisionId != "" && a.decisionMakerId != "" && a.authorityBasis != "" && a.evidenceRef != ""
    && a.decidedAt != 0 && a.decidedAt % 1000 == 0 && a.recordedAt != 0 && a.recordedAt % 1000 == 0
    && a.decidedAt <= a.recordedAt && a.recordedAt <= cutoff
  }

  /** An APPROVE in the journal by the decision maker on the evidence of the adjudication, not recorded before it. */
  predicate Approves(e: Event, r: Record, a: Adjudication, cutoff: Time) {
    && e.eventType == Approve && e.authorizationId == r.authorizationId && e.correctsEventId == "" && e.conditionsSatisfied
    && e.actorId == a.decisionMakerId && e.evidenceRef == a.evidenceRef
    && a.recordedAt <= e.recordedAt && e.recordedAt <= cutoff
  }

  predicate ApprovedInJournal(r: Record, events: seq<Event>, cutoff: Time) {
    r.adjudication.Some? &&
    exists e :: e in events && Approves(e, r, r.adjudication.value, cutoff)
  }

  /** An event of the effective history is a known lifecycle event of the journal, at its corrected time. */
  lemma HistoryFromJournal(events: seq<Event>, id: string, cutoff: Time, e: Event) returns (t: Time)
    requires Built(events) && id != "" && Canonical(cutoff) && EffectiveHistory(events, id, cutoff).Some?
    requires e in EffectiveHistory(events, id, cutoff).value
    ensures KnownEvent(events, id, cutoff, e.(effectiveAt := t))
  {
    EffectiveHistoryExactly(events, id, cutoff);
    var known := Known(events, cutoff);
    var raw, h := LifecycleEvents(known, id), Amended(known, id);
    LifecycleEventsStand(known, id);
    hide Built, LifecycleEvents, EffectiveHistory, CorrectionsSound, Ordered, Known;
    var i :| 0 <= i < |h| && h[i] == e;
    assert raw[i] in raw;
    t := raw[i].effectiveAt;
    KnownEvents(events, cutoff, raw[i]);
  }

  /** And every known lifecycle event of the journal is in it. */
  lemma JournalInHistory(events: seq<Event>, id: string, cutoff: Time, e: Event) returns (t: Time)
    requires Built(events) && id != "" && Canonical(cutoff) && EffectiveHistory(events, id, cutoff).Some?
    requires KnownEvent(events, id, cutoff, e)
    ensures e.(effectiveAt := t) in EffectiveHistory(events, id, cutoff).value
  {
    EffectiveHistoryExactly(events, id, cutoff);
    var known := Known(events, cutoff);
    var raw, h := LifecycleEvents(known, id), Amended(known, id);
    LifecycleEventsStand(known, id);
    KnownEvents(events, cutoff, e);
    hide Built, LifecycleEvents, EffectiveHistory, CorrectionsSound, Ordered, Known;
    var i :| 0 <= i < |raw| && raw[i] == e;
    t := AmendedTime(known, id, raw[i]);
    assert h[i] in h;
  }

  predicate KnownEvent(events: seq<Event>, id: string, cutoff: Time, e: Event) {
    e in events && e.authorizationId == id && e.correctsEventId == "" && e.recordedAt <= cutoff
  }

  lemma KnownEvents(events: seq<Event>, cutoff: Time, e: Event)
    requires Built(events)
    ensures e in Known(events, cutoff) <==> e in events && e.recordedAt <= cutoff
  {
    hide Built;
    BreakSelectsWhatContinueSelects(events, cutoff);
    if e in events {
      var i :| 0 <= i < |events| && events[i] == e;
      assert i < KnownCount(events, cutoff) ==> Known(events, cutoff)[i] == e;
    }
  }

  lemma {:induction false} ReplayedAreSatisfied(h: seq<Event>)
    requires Replay(h).Some?
    ensures forall e :: e in h ==> e.conditionsSatisfied
  {
    if h != [] {
      ReplayedAreSatisfied(h[..|h| - 1]);
      assert h == h[..|h| - 1] + [h[|h| - 1]];
    }
  }

  /**
   * A record projects exactly when it is filled in, its adjudication approves it, its journal has an effective history, and
   * the journal holds the approval that was adjudicated.
   */
  lemma ProjectsExactly(r: Record, events: seq<Event>, cutoff: Time)
    requires Built(events)
    ensures ProjectedGrants(r, events, cutoff).Some? <==>
      && r.authorizationId != "" && r.issuerId != "" && r.subjectId != "" && r.claimType != ""
      && cutoff != 0 && cutoff % 1000 == 0
      && ApprovedByAdjudication(r, cutoff)
      && EffectiveHistory(events, r.authorizationId, cutoff).Some?
      && ApprovedInJournal(r, events, cutoff)
  {
    var id := r.authorizationId;
    if id != "" && Canonical(cutoff) && r.adjudication.Some? && EffectiveHistory(events, id, cutoff).Some? {
      ApprovalFromJournal(r, events, cutoff);
    }
    hide Built, Intervals, EffectiveHistory, HasMatchingApproval, ApprovedInJournal;
  }

  /** The approval that the projection finds in the effective history is one in the journal, and the other way round. */
  lemma ApprovalFromJournal(r: Record, events: seq<Event>, cutoff: Time)
    requires Built(events) && r.authorizationId != "" && Canonical(cutoff) && r.adjudication.Some?
    requires EffectiveHistory(events, r.authorizationId, cutoff).Some?
    ensures HasMatchingApproval(EffectiveHistory(events, r.authorizationId, cutoff).value, r.adjudication.value) <==>
      ApprovedInJournal(r, events, cutoff)
  {
    var id, a := r.authorizationId, r.adjudication.value;
    EffectiveReplays(events, id, cutoff);
    var h := EffectiveHistory(events, id, cutoff).value;
    ReplayedAreSatisfied(h);
    hide Built, EffectiveHistory, Replay;
    if HasMatchingApproval(h, a) {
      var i :| 0 <= i < |h| && ApprovalMatches(h[i], a);
      assert h[i] in h;
      var t := HistoryFromJournal(events, id, cutoff, h[i]);
      assert Approves(h[i].(effectiveAt := t), r, a, cutoff);
    }
    if ApprovedInJournal(r, events, cutoff) {
      var e :| e in events && Approves(e, r, a, cutoff);
      var t := JournalInHistory(events, id, cutoff, e);
      var i :| 0 <= i < |h| && h[i] == e.(effectiveAt := t);
      assert ApprovalMatches(h[i], a);
    }
  }

  lemma EffectiveReplays(events: seq<Event>, id: string, cutoff: Time)
    requires EffectiveHistory(events, id, cutoff).Some?
    ensures Replay(EffectiveHistory(events, id, cutoff).value).Some?
  {
  }

  // ---------------------------------------------------------------- which snapshots resolve

  predicate OfRecord(v: EntryView, cutoff: Time) {
    forall e :: e in v.events ==>
      && e.authorizationId == v.record.authorizationId
      && e.recordedAt != 0 && e.recordedAt % 1000 == 0 && e.recordedAt <= cutoff
  }

  /**
   * A snapshot resolves exactly when its authorizations are distinct and filled in, hold events of their own recorded by the
   * cutoff only, are approved by their adjudications and in their journals, and have effective histories.
   */
  lemma ResolvesExactly(entries: seq<EntryView>, cutoff: Time)
    requires forall v :: v in entries ==> Built(v.events)
    ensures SnapshotValid(entries, cutoff) && cutoff != 0 && cutoff % 1000 == 0 <==>
      && cutoff != 0 && cutoff % 1000 == 0
      && (forall i, j :: 0 <= i < j < |entries| ==> entries[i].record.authorizationId != entries[j].record.authorizationId)
      && forall v :: v in entries ==>
           && v.record.authorizationId != "" && v.record.issuerId != "" && v.record.subjectId != "" && v.record.claimType != ""
           && OfRecord(v, cutoff) && ApprovedByAdjudication(v.record, cutoff)
           && EffectiveHistory(v.events, v.record.authorizationId, cutoff).Some?
           && ApprovedInJournal(v.record, v.events, cutoff)
  {
    hide Built, ProjectedGrants, EffectiveHistory, ApprovedByAdjudication, ApprovedInJournal;
    forall v | v in entries
      ensures EntryCoherent(v, cutoff) <==> OfRecord(v, cutoff)
      ensures ProjectedGrants(v.record, v.events, cutoff).Some? <==>
        && v.record.authorizationId != "" && v.record.issuerId != "" && v.record.subjectId != "" && v.record.claimType != ""
        && cutoff != 0 && cutoff % 1000 == 0 && ApprovedByAdjudication(v.record, cutoff)
        && EffectiveHistory(v.events, v.record.authorizationId, cutoff).Some? && ApprovedInJournal(v.record, v.events, cutoff)
    {
      ProjectsExactly(v.record, v.events, cutoff);
    }
    hide EntryCoherent, OfRecord;
    assert forall i :: 0 <= i < |entries| ==> entries[i] in entries;
  }

  // ---------------------------------------------------------------- the decision, told from the events

  predicate Concerns(v: EntryView, evidence: Evidence) {
    && v.record.issuerId == evidence.issuerId && v.record.claimType == evidence.claimType
    && v.record.subjectId == evidence.employerId
  }

  function Effective(v: EntryView, cutoff: Time): seq<Event> {
    var h := EffectiveHistory(v.events, v.record.authorizationId, cutoff);
    if h.Some? then h.value else []
  }

  /** Event `i` is the last one in effect, from `t` on and through the nanoseconds up to the next whole microsecond. */
  predicate InEffect(h: seq<Event>, i: nat, t: Time) {
    i < |h| && h[i].effectiveAt <= t && (i + 1 < |h| ==> t + 999 < h[i + 1].effectiveAt)
  }

  /** An entry that the evidence is about, whose event `i` is in effect and is one of two kinds. */
  predicate Speaks(v: EntryView, cutoff: Time, evidence: Evidence, t: Time, i: nat, a: EventType, b: EventType) {
    Concerns(v, evidence) && InEffect(Effective(v, cutoff), i, t) && Effective(v, cutoff)[i].eventType in {a, b}
  }

  ghost predicate SomeSpeak(entries: seq<EntryView>, cutoff: Time, evidence: Evidence, t: Time, a: EventType, b: EventType) {
    exists v, i: nat :: v in entries && Speaks(v, cutoff, evidence, t, i, a, b)
  }

  /** The grants of a snapshot, one for each event that opens an interval. */
  lemma GrantsOfEvents(entries: seq<EntryView>, cutoff: Time, g: Grant)
    requires SnapshotValid(entries, cutoff) && forall v :: v in entries ==> Built(v.events)
    ensures g in AllGrants(entries, cutoff) <==>
      exists v, i: nat :: v in entries && Opens(v, cutoff, i, g)
  {
    InAllGrants(entries, cutoff, g);
    forall i | 0 <= i < |entries|
      ensures var v := entries[i];
        && ProjectedGrants(v.record, v.events, cutoff).Some?
        && (g in ProjectedGrants(v.record, v.events, cutoff).value <==> exists k: nat :: Opens(v, cutoff, k, g))
    {
      var v := entries[i];
      assert EntryValid(v, cutoff) && v in entries;
      EntryGrants(v, cutoff, g);
    }
    hide ProjectedGrants, Opens, SnapshotValid, AllGrants;
    if v, k: nat :| v in entries && Opens(v, cutoff, k, g) {
      var i :| 0 <= i < |entries| && entries[i] == v;
      assert g in ProjectedGrants(entries[i].record, entries[i].events, cutoff).value;
    }
  }

  /** The grant of the interval that event `i` opens: it lasts until a microsecond before the next event. */
  function GrantOf(v: EntryView, cutoff: Time, i: nat): Grant
    requires i < |Effective(v, cutoff)|
  {
    var h, r := Effective(v, cutoff), v.record;
    Grant(r.authorizationId + ":" + h[i].eventId, r.issuerId, r.claimType, r.subjectId, h[i].effectiveAt,
          if i + 1 < |h| then Some(h[i + 1].effectiveAt - 1000) else None,
          if h[i].eventType in {Activate, Reinstate} then GrantActive else GrantInactive)
  }

  /** Event `i` of the entry opens the interval of grant `g`. */
  predicate Opens(v: EntryView, cutoff: Time, i: nat, g: Grant) {
    && i < |Effective(v, cutoff)| && Effective(v, cutoff)[i].eventType in {Activate, Reinstate, Suspend, Revoke}
    && g == GrantOf(v, cutoff, i)
  }

  lemma EntryGrants(v: EntryView, cutoff: Time, g: Grant)
    requires Built(v.events) && ProjectedGrants(v.record, v.events, cutoff).Some?
    ensures g in ProjectedGrants(v.record, v.events, cutoff).value <==> exists i: nat :: Opens(v, cutoff, i, g)
  {
    ProjectedHistoryValid(v.record, v.events, cutoff);
    var h := Effective(v, cutoff);
    assert h == HistoryOf(v.record, v.events, cutoff);
    InIntervals(v.record, h, |h|, g);
    hide Built, ProjectedGrants, EffectiveHistory, Effective, Intervals;
    forall i: nat | i < |h| ensures Opens(v, cutoff, i, g) <==> Opener(h[i]) && g == IntervalGrant(v.record, h, i) {
    }
  }

  /** A grant is in scope and current exactly when its entry is concerned and its event in effect. */
  lemma OpensInEffect(v: EntryView, cutoff: Time, i: nat, g: Grant, evidence: Evidence, t: Time)
    requires Opens(v, cutoff, i, g)
    ensures MatchesScope(evidence, g) <==> Concerns(v, evidence)
    ensures MatchesScope(evidence, g) && Current(g, t) && g.state == GrantActive <==>
      Speaks(v, cutoff, evidence, t, i, Activate, Reinstate)
    ensures MatchesScope(evidence, g) && Current(g, t) && g.state == GrantInactive <==>
      Speaks(v, cutoff, evidence, t, i, Suspend, Revoke)
  {
    hide Effective;
  }

  /** Some grant backs the evidence exactly when some entry speaks for it. */
  lemma BacksExactly(entries: seq<EntryView>, cutoff: Time, evidence: Evidence, t: Time, state: GrantState,
                     a: EventType, b: EventType)
    requires SnapshotValid(entries, cutoff) && forall v :: v in entries ==> Built(v.events)
    requires (state, a, b) in {(GrantActive, Activate, Reinstate), (GrantInactive, Suspend, Revoke)}
    ensures SomeBacks(evidence, AllGrants(entries, cutoff), t, state) <==> SomeSpeak(entries, cutoff, evidence, t, a, b)
  {
    hide SnapshotValid, AllGrants, Effective, MatchesScope, Current, Concerns;
    if SomeBacks(evidence, AllGrants(entries, cutoff), t, state) {
      var g :| g in AllGrants(entries, cutoff) && Backs(evidence, g, t, state);
      GrantsOfEvents(entries, cutoff, g);
      var v, i: nat :| v in entries && Opens(v, cutoff, i, g);
      OpensInEffect(v, cutoff, i, g, evidence, t);
      assert Speaks(v, cutoff, evidence, t, i, a, b);
    }
    if SomeSpeak(entries, cutoff, evidence, t, a, b) {
      var v, i: nat :| v in entries && Speaks(v, cutoff, evidence, t, i, a, b);
      var g := GrantOf(v, cutoff, i);
      assert Opens(v, cutoff, i, g);
      GrantsOfEvents(entries, cutoff, g);
      OpensInEffect(v, cutoff, i, g, evidence, t);
      assert Backs(evidence, g, t, state);
    }
  }

  /**
   * The decision over a snapshot, told from the events: AUTHORIZED exactly when the event in effect of some concerned
   * authorization is its activation or a reinstatement, otherwise UNAUTHORIZED exactly when that of some one is a suspension
   * or its revocation, and otherwise REVIEW.
   */
  lemma DecisionExactly(entries: seq<EntryView>, cutoff: Time, evidence: Evidence, t: Time)
    requires SnapshotValid(entries, cutoff) && forall v :: v in entries ==> Built(v.events)
    ensures var d := Evaluated(evidence, Applicable(AllGrants(entries, cutoff), evidence.issuerId, evidence.claimType), t).decision;
      var positive := SomeSpeak(entries, cutoff, evidence, t, Activate, Reinstate);
      var negative := SomeSpeak(entries, cutoff, evidence, t, Suspend, Revoke);
      && (d == Authorized <==> positive)
      && (d == Unauthorized <==> negative && !positive)
      && (d == Review <==> !negative && !positive)
  {
    hide SnapshotValid, AllGrants, SomeSpeak, SomeBacks;
    BacksExactly(entries, cutoff, evidence, t, GrantActive, Activate, Reinstate);
    BacksExactly(entries, cutoff, evidence, t, GrantInactive, Suspend, Revoke);
    ResolvedBacks(evidence, AllGrants(entries, cutoff), t, GrantActive);
    ResolvedBacks(evidence, AllGrants(entries, cutoff), t, GrantInactive);
  }

  /**
   * Behind every positive decision, and every verdict VERIFIED, stands an authorization of the evidence's issuer, claim type
   * and employer that was approved: by its own adjudication, known at the cutoff, and by an APPROVE in its journal by the
   * same decision maker on the same evidence, not recorded before the adjudication. Its last event in effect activated or
   * reinstated it.
   */
  lemma AuthorizedIsApproved(entries: seq<EntryView>, cutoff: Time, evidence: Evidence, t: Time)
    requires SnapshotValid(entries, cutoff) && forall v :: v in entries ==> Built(v.events)
    requires var d := Evaluated(evidence, Applicable(AllGrants(entries, cutoff), evidence.issuerId, evidence.claimType), t).decision;
      d == Authorized || V.PolicyDecision(evidence, d) == V.Verified
    ensures exists v, i: nat ::
      && v in entries && Speaks(v, cutoff, evidence, t, i, Activate, Reinstate)
      && ApprovedByAdjudication(v.record, cutoff) && ApprovedInJournal(v.record, v.events, cutoff)
  {
    DecisionExactly(entries, cutoff, evidence, t);
    hide AllGrants, Evaluated, Applicable, Speaks, ApprovedByAdjudication, ApprovedInJournal, EntryCoherent, ProjectedGrants;
    var v, i: nat :| v in entries && Speaks(v, cutoff, evidence, t, i, Activate, Reinstate);
    var k :| 0 <= k < |entries| && entries[k] == v;
    assert EntryValid(entries[k], cutoff);
    ProjectsExactly(v.record, v.events, cutoff);
  }

  // ---------------------------------------------------------------- the answer of the evaluator

  /** A grant of the evidence's scope that is current and of this state. */
  predicate Bears(evidence: Evidence, g: Grant, now: Time, state: GrantState) {
    && g.issuerId == evidence.issuerId && g.claimType == evidence.claimType && g.subjectId == evidence.employerId
    && g.validFrom <= now && (g.validUntil == None || now <= g.validUntil.value) && g.state == state
  }

  /** The first such grant of a list. */
  predicate FirstBearing(evidence: Evidence, grants: seq<Grant>, now: Time, state: GrantState, k: nat) {
    k < |grants| && Bears(evidence, grants[k], now, state) && forall j :: 0 <= j < k ==> !Bears(evidence, grants[j], now, state)
  }

  lemma {:induction false} FirstIsFound(evidence: Evidence, grants: seq<Grant>, now: Time, state: GrantState, k: nat)
    requires FirstBearing(evidence, grants, now, state, k)
    ensures FirstBacking(evidence, grants, now, state) == Some(grants[k])
  {
    if k < |grants| - 1 {
      FirstIsFound(evidence, grants[..|grants| - 1], now, state, k);
    } else {
      forall g | g in grants[..k] ensures !Backs(evidence, g, now, state) {
        var j :| 0 <= j < k && grants[j] == g;
        assert !Bears(evidence, grants[j], now, state);
      }
    }
  }

  /**
   * What is answered for a list of grants, whatever list: the first current active grant of the scope with its id, without
   * one the first current inactive grant with its id, and without either REVIEW, whose reason tells whether any grant of the
   * scope was there at all.
   */
  lemma EvaluatesExactly(evidence: Evidence, grants: seq<Grant>, now: Time)
    ensures forall k: nat :: FirstBearing(evidence, grants, now, GrantActive, k) ==>
      Evaluated(evidence, grants, now) == Evaluation(Authorized, grants[k].grantId, MatchingActiveGrant)
    ensures (forall g :: g in grants ==> !Bears(evidence, g, now, GrantActive)) ==>
      forall k: nat :: FirstBearing(evidence, grants, now, GrantInactive, k) ==>
        Evaluated(evidence, grants, now) == Evaluation(Unauthorized, grants[k].grantId, MatchingInactiveGrant)
    ensures (forall g :: g in grants ==> !Bears(evidence, g, now, GrantActive) && !Bears(evidence, g, now, GrantInactive)) ==>
      Evaluated(evidence, grants, now) ==
      Evaluation(Review, "", if OutOfDate(evidence, grants, now) then NoCurrentGrant else NoApplicableGrant)
  {
    forall k: nat, state | FirstBearing(evidence, grants, now, state, k)
      ensures FirstBacking(evidence, grants, now, state) == Some(grants[k])
    {
      FirstIsFound(evidence, grants, now, state, k);
    }
    assert forall g, state :: Bears(evidence, g, now, state) <==> Backs(evidence, g, now, state);
    hide Bears, FirstBacking, Backs;
  }

  predicate OutOfDate(evidence: Evidence, grants: seq<Grant>, now: Time) {
    exists g :: g in grants && g.issuerId == evidence.issuerId && g.claimType == evidence.claimType
      && g.subjectId == evidence.employerId && (now < g.validFrom || (g.validUntil.Some? && g.validUntil.value < now))
  }

  /** Over a snapshot, the grant id that is reported names the authorization and the event that the decision rests on. */
  lemma ReportsItsGrounds(entries: seq<EntryView>, cutoff: Time, evidence: Evidence, t: Time)
    requires SnapshotValid(entries, cutoff) && forall v :: v in entries ==> Built(v.events)
    ensures var r := Evaluated(evidence, Applicable(AllGrants(entries, cutoff), evidence.issuerId, evidence.claimType), t);
      && (r.decision == Authorized ==>
            exists v, i: nat ::
              && v in entries && Speaks(v, cutoff, evidence, t, i, Activate, Reinstate)
              && r.grantId == v.record.authorizationId + ":" + Effective(v, cutoff)[i].eventId)
      && (r.decision == Unauthorized ==>
            exists v, i: nat ::
              && v in entries && Speaks(v, cutoff, evidence, t, i, Suspend, Revoke)
              && r.grantId == v.record.authorizationId + ":" + Effective(v, cutoff)[i].eventId)
      && (r.decision == Review ==> r.grantId == "")
  {
    var grants := Applicable(AllGrants(entries, cutoff), evidence.issuerId, evidence.claimType);
    var active, inactive :=
      FirstBacking(evidence, grants, t, GrantActive), FirstBacking(evidence, grants, t, GrantInactive);
    if active.Some? {
      Grounds(entries, cutoff, evidence, t, active.value, GrantActive, Activate, Reinstate);
    } else if inactive.Some? {
      Grounds(entries, cutoff, evidence, t, inactive.value, GrantInactive, Suspend, Revoke);
    }
    hide SnapshotValid, AllGrants, Speaks, Effective, FirstBacking, Applicable;
  }

  lemma Grounds(entries: seq<EntryView>, cutoff: Time, evidence: Evidence, t: Time, g: Grant, state: GrantState,
                a: EventType, b: EventType)
    requires SnapshotValid(entries, cutoff) && forall v :: v in entries ==> Built(v.events)
    requires (state, a, b) in {(GrantActive, Activate, Reinstate), (GrantInactive, Suspend, Revoke)}
    requires g in AllGrants(entries, cutoff) && Backs(evidence, g, t, state)
    ensures exists v, i: nat ::
      && v in entries && Speaks(v, cutoff, evidence, t, i, a, b)
      && g.grantId == v.record.authorizationId + ":" + Effective(v, cutoff)[i].eventId
  {
    hide SnapshotValid, AllGrants, Effective, MatchesScope, Current, Concerns;
    GrantsOfEvents(entries, cutoff, g);
    var v, i: nat :| v in entries && Opens(v, cutoff, i, g);
    OpensInEffect(v, cutoff, i, g, evidence, t);
    assert Speaks(v, cutoff, evidence, t, i, a, b);
  }

  // ---------------------------------------------------------------- the verdict

  predicate AllProven(evidence: Evidence) {
    && evidence.signature == EvidenceValid && evidence.validity == EvidenceValid
    && evidence.status == EvidenceValid && evidence.subject == EvidenceValid
  }

  predicate SomeRefuted(evidence: Evidence) {
    || evidence.signature == EvidenceInvalid || evidence.validity == EvidenceInvalid
    || evidence.status == EvidenceInvalid || evidence.subject == EvidenceInvalid
  }

  /**
   * The verdict, told from the evidence results and the events: VERIFIED exactly when all four are valid and a concerned
   * authorization is in force; REJECTED exactly when one is invalid, or a concerned authorization is suspended or revoked
   * and none is in force.
   */
  lemma VerdictExactly(entries: seq<EntryView>, cutoff: Time, evidence: Evidence, t: Time)
    requires SnapshotValid(entries, cutoff) && forall v :: v in entries ==> Built(v.events)
    ensures var d := Evaluated(evidence, Applicable(AllGrants(entries, cutoff), evidence.issuerId, evidence.claimType), t).decision;
      var verdict := V.PolicyDecision(evidence, d);
      var positive := SomeSpeak(entries, cutoff, evidence, t, Activate, Reinstate);
      var negative := SomeSpeak(entries, cutoff, evidence, t, Suspend, Revoke);
      && (verdict == V.Verified <==> AllProven(evidence) && positive)
      && (verdict == V.Rejected <==> SomeRefuted(evidence) || (negative && !positive))
  {
    hide SnapshotValid, AllGrants, SomeSpeak, Evaluated, Applicable;
    DecisionExactly(entries, cutoff, evidence, t);
  }

  function ResultOf(evidence: Evidence, d: V.Dimension): EvidenceResult {
    match d
    case Signature => evidence.signature
    case Validity => evidence.validity
    case Status => evidence.status
    case SubjectBinding => evidence.subject
  }

  function PlaceOf(reason: V.VerificationReason): nat {
    match reason
    case DimensionInvalid(d) => DimensionPlace(d)
    case DimensionUnknown(d) => DimensionPlace(d)
    case DimensionUnrecognized(d) => DimensionPlace(d)
    case _ => 4
  }

  function DimensionPlace(d: V.Dimension): nat {
    match d
    case Signature => 0
    case Validity => 1
    case Status => 2
    case SubjectBinding => 3
  }

  /** The reasons: one for each result that is not valid and for each authority that is not positive, in the fixed order. */
  lemma ReasonsExactly(evidence: Evidence, authority: Decision)
    ensures var reasons := V.AllReasons(evidence, authority);
      && (forall d :: (V.DimensionInvalid(d) in reasons <==> ResultOf(evidence, d) == EvidenceInvalid)
                   && (V.DimensionUnknown(d) in reasons <==> ResultOf(evidence, d) == EvidenceUnknown)
                   && (V.DimensionUnrecognized(d) in reasons <==>
                         ResultOf(evidence, d) !in {EvidenceValid, EvidenceInvalid, EvidenceUnknown}))
      && (V.IssuerUnauthorized in reasons <==> authority == Unauthorized)
      && (V.AuthorityReview in reasons <==> authority == Review)
      && (V.AuthorityUnrecognized in reasons <==> authority !in {Authorized, Unauthorized, Review})
      && (forall i, j :: 0 <= i < j < |reasons| ==> PlaceOf(reasons[i]) < PlaceOf(reasons[j]))
  {
    PartExactly(evidence, V.Signature);
    PartExactly(evidence, V.Validity);
    PartExactly(evidence, V.Status);
    PartExactly(evidence, V.SubjectBinding);
    AuthorityPart(authority);
    InOrder(V.DimensionReasons(evidence.signature, V.Signature), V.DimensionReasons(evidence.validity, V.Validity),
            V.DimensionReasons(evidence.status, V.Status), V.DimensionReasons(evidence.subject, V.SubjectBinding),
            V.AuthorityReasons(authority));
    hide V.DimensionReasons, V.AuthorityReasons, PlaceOf, DimensionPlace;
    forall d
      ensures V.DimensionInvalid(d) in V.AllReasons(evidence, authority) <==> ResultOf(evidence, d) == EvidenceInvalid
      ensures V.DimensionUnknown(d) in V.AllReasons(evidence, authority) <==> ResultOf(evidence, d) == EvidenceUnknown
      ensures V.DimensionUnrecognized(d) in V.AllReasons(evidence, authority) <==>
        ResultOf(evidence, d) !in {EvidenceValid, EvidenceInvalid, EvidenceUnknown}
    {
      PartExactly(evidence, d);
      OnlyInItsPart(evidence, authority, V.DimensionInvalid(d), d);
      OnlyInItsPart(evidence, authority, V.DimensionUnknown(d), d);
      OnlyInItsPart(evidence, authority, V.DimensionUnrecognized(d), d);
    }
    OnlyInAuthority(evidence, authority, V.IssuerUnauthorized);
    OnlyInAuthority(evidence, authority, V.AuthorityReview);
    OnlyInAuthority(evidence, authority, V.AuthorityUnrecognized);
    hide V.AllReasons;
  }

  /** A reason that tells of a dimension is among the reasons exactly when that dimension contributes it. */
  lemma OnlyInItsPart(evidence: Evidence, authority: Decision, x: V.VerificationReason, d: V.Dimension)
    requires PlaceOf(x) == DimensionPlace(d)
    ensures x in V.AllReasons(evidence, authority) <==> x in V.DimensionReasons(ResultOf(evidence, d), d)
  {
    PartExactly(evidence, V.Signature);
    PartExactly(evidence, V.Validity);
    PartExactly(evidence, V.Status);
    PartExactly(evidence, V.SubjectBinding);
    AuthorityPart(authority);
    hide V.DimensionReasons, V.AuthorityReasons, PlaceOf;
  }

  lemma OnlyInAuthority(evidence: Evidence, authority: Decision, x: V.VerificationReason)
    requires x in {V.IssuerUnauthorized, V.AuthorityReview, V.AuthorityUnrecognized}
    ensures x in V.AllReasons(evidence, authority) <==> x in V.AuthorityReasons(authority)
  {
    PartExactly(evidence, V.Signature);
    PartExactly(evidence, V.Validity);
    PartExactly(evidence, V.Status);
    PartExactly(evidence, V.SubjectBinding);
    hide V.DimensionReasons, V.AuthorityReasons;
  }

  /** What one dimension contributes. */
  lemma PartExactly(evidence: Evidence, d: V.Dimension)
    ensures var result := ResultOf(evidence, d);
      var part := V.DimensionReasons(result, d);
      && |part| <= 1 && (forall x :: x in part ==> PlaceOf(x) == DimensionPlace(d))
      && (forall x :: x in part <==>
            || (x == V.DimensionInvalid(d) && result == EvidenceInvalid)
            || (x == V.DimensionUnknown(d) && result == EvidenceUnknown)
            || (x == V.DimensionUnrecognized(d) && result !in {EvidenceValid, EvidenceInvalid, EvidenceUnknown}))
  {
  }

  lemma AuthorityPart(authority: Decision)
    ensures var part := V.AuthorityReasons(authority);
      && |part| <= 1 && (forall x :: x in part ==> PlaceOf(x) == 4)
      && (forall x :: x in part <==>
            || (x == V.IssuerUnauthorized && authority == Unauthorized)
            || (x == V.AuthorityReview && authority == Review)
            || (x == V.AuthorityUnrecognized && authority !in {Authorized, Unauthorized, Review}))
  {
  }

  lemma InOrder(a: seq<V.VerificationReason>, b: seq<V.VerificationReason>, c: seq<V.VerificationReason>,
                d: seq<V.VerificationReason>, e: seq<V.VerificationReason>)
    requires |a| <= 1 && |b| <= 1 && |c| <= 1 && |d| <= 1 && |e| <= 1
    requires forall x :: x in a ==> PlaceOf(x) == 0
    requires forall x :: x in b ==> PlaceOf(x) == 1
    requires forall x :: x in c ==> PlaceOf(x) == 2
    requires forall x :: x in d ==> PlaceOf(x) == 3
    requires forall x :: x in e ==> PlaceOf(x) == 4
    ensures var reasons := a + b + c + d + e;
      forall i, j :: 0 <= i < j < |reasons| ==> PlaceOf(reasons[i]) < PlaceOf(reasons[j])
  {
    hide PlaceOf;
    OrderGrows(a, b, 1);
    OrderGrows(a + b, c, 2);
    OrderGrows(a + b + c, d, 3);
    OrderGrows(a + b + c + d, e, 4);
  }

  lemma OrderGrows(before: seq<V.VerificationReason>, part: seq<V.VerificationReason>, place: nat)
    requires |part| <= 1 && (forall x :: x in part ==> PlaceOf(x) == place)
    requires forall x :: x in before ==> PlaceOf(x) < place
    ensures forall x :: x in before + part ==> PlaceOf(x) <= place
    ensures (forall i, j :: 0 <= i < j < |before| ==> PlaceOf(before[i]) < PlaceOf(before[j])) ==>
      forall i, j :: 0 <= i < j < |before + part| ==> PlaceOf((before + part)[i]) < PlaceOf((before + part)[j])
  {
    hide PlaceOf;
  }
}
