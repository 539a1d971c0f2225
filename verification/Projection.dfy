/** Projection of a lifecycle into time-bounded grants, internal/authority/projection.go. */
module Projection {
  import opened Common
  import opened Lifecycle
  import opened Journal
  import opened JournalReplay

  datatype GrantState = GrantActive | GrantInactive | GrantOther(name: string)

  /** `AuthorityGrant`, current from `validFrom` through `validUntil`, both included. */
  datatype Grant = Grant(
    grantId: string,
    issuerId: string,
    claimType: string,
    subjectId: string,
    validFrom: Time,
    validUntil: Option<Time>,
    state: GrantState)

  datatype Outcome = OutcomeApproved | OutcomeRejected | OutcomeOther(name: string)

  datatype Adjudication = Adjudication(
    decisionId: string,
    authorizationId: string,
    issuerId: string,
    subjectId: string,
    claimType: string,
    outcome: Outcome,
    decisionMakerId: string,
    authorityBasis: string,
    evidenceRef: string,
    decidedAt: Time,
    recordedAt: Time)

  datatype Record = Record(
    authorizationId: string,
    issuerId: string,
    subjectId: string,
    claimType: string,
    adjudication: Option<Adjudication>)

  // ---------------------------------------------------------------- what a projection is

  predicate RecordComplete(r: Record) {
    r.authorizationId != "" && r.issuerId != "" && r.subjectId != "" && r.claimType != ""
  }

  /** The record has an approving adjudication of its own scope, known at the cutoff. */
  predicate Adjudicated(r: Record, recordedThrough: Time) {
    && r.adjudication.Some?
    && var a := r.adjudication.value;
    && a.decisionId != "" && a.authorizationId == r.authorizationId && a.issuerId == r.issuerId
    && a.subjectId == r.subjectId && a.claimType == r.claimType && a.outcome == OutcomeApproved
    && a.decisionMakerId != "" && a.authorityBasis != "" && a.evidenceRef != ""
    && Canonical(a.decidedAt) && Canonical(a.recordedAt)
    && a.decidedAt <= a.recordedAt <= recordedThrough
  }

  /** An APPROVE by the adjudicating decision maker, on the adjudicated evidence, not recorded before the adjudication. */
  predicate ApprovalMatches(e: Event, a: Adjudication) {
    && e.eventType == Approve && e.evidenceRef == a.evidenceRef && e.actorId == a.decisionMakerId
    && a.recordedAt <= e.recordedAt
  }

  predicate HasMatchingApproval(h: seq<Event>, a: Adjudication) {
    exists i :: 0 <= i < |h| && ApprovalMatches(h[i], a)
  }

  function OpenedState(e: Event): GrantState {
    if e.eventType.Activate? || e.eventType.Reinstate? then GrantActive else GrantInactive
  }

  function GrantId(authorizationId: string, eventId: string): string {
    authorizationId + ":" + eventId
  }

  /** The grant opened by event `i`: it lasts until one microsecond before the next event, if there is one. */
  function IntervalGrant(r: Record, h: seq<Event>, i: nat): Grant
    requires i < |h|
  {
    Grant(GrantId(r.authorizationId, h[i].eventId), r.issuerId, r.claimType, r.subjectId,
          h[i].effectiveAt,
          if i + 1 < |h| then Some(h[i + 1].effectiveAt - MICROSECOND) else None,
          OpenedState(h[i]))
  }

  /** One grant for each of the first `k` events that opens an interval, in order. */
  function Intervals(r: Record, h: seq<Event>, k: nat): seq<Grant>
    requires k <= |h|
  {
    if k == 0 then []
    else Intervals(r, h, k - 1) + if Opener(h[k - 1]) then [IntervalGrant(r, h, k - 1)] else []
  }

  /**
   * The whole of `ProjectAuthorityGrants`, without its loop: it succeeds exactly on an adjudicated record whose
   * effective history exists and holds a matching approval, and yields one grant for each opening event.
   */
  function ProjectedGrants(r: Record, events: seq<Event>, recordedThrough: Time): Option<seq<Grant>> {
    if !RecordComplete(r) || !Canonical(recordedThrough) || !Adjudicated(r, recordedThrough) then None
    else
      var h := EffectiveHistory(events, r.authorizationId, recordedThrough);
      if h.None? || !HasMatchingApproval(h.value, r.adjudication.value) then None
      else Some(Intervals(r, h.value, |h.value|))
  }

  // ---------------------------------------------------------------- facts about effective histories

  lemma {:induction false} AmendedTimeCanonical(events: seq<Event>, id: string, e: Event)
    requires Canonical(e.effectiveAt) && forall x :: x in events ==> WellFormed(x)
    ensures Canonical(AmendedTime(events, id, e))
  {
    if events != [] {
      assert events[|events| - 1] in events;
      AmendedTimeCanonical(events[..|events| - 1], id, e);
    }
  }

  /** Effective events have canonical times and distinct ids and belong to the authorization asked for. */
  lemma HistoryShape(events: seq<Event>, id: string, cutoff: Time)
    requires Built(events) && EffectiveHistory(events, id, cutoff).Some?
    ensures var h := EffectiveHistory(events, id, cutoff).value;
      && (forall i :: 0 <= i < |h| ==> Canonical(h[i].effectiveAt) && h[i].authorizationId == id)
      && (forall i, j :: 0 <= i < j < |h| ==> h[i].eventId != h[j].eventId)
  {
    var known := Known(events, cutoff);
    var raw := LifecycleEvents(known, id);
    EffectiveHistoryExactly(events, id, cutoff);
    BuiltPrefix(events, KnownCount(events, cutoff));
    BuiltShape(known);
    LifecycleEventsDistinct(known, id);
    LifecycleEventsStand(known, id);
    forall i | 0 <= i < |raw|
      ensures Canonical(AmendedTime(known, id, raw[i])) && raw[i].authorizationId == id
    {
      assert raw[i] in known;
      AmendedTimeCanonical(known, id, raw[i]);
    }
  }

  lemma ReplayPrefix(h: seq<Event>, k: nat)
    requires Replay(h).Some? && k <= |h|
    ensures Replay(h[..k]).Some?
    ensures k < |h| ==> Replay(h[..k + 1]) == Apply(Replay(h[..k]), h[k]) && Replay(h[..k + 1]).Some?
  {
    hide Transition, Replay;
    if Replay(h[..k]).None? {
      ReplayFailureSticks(h, k);
    }
    if k < |h| {
      if Replay(h[..k + 1]).None? {
        ReplayFailureSticks(h, k + 1);
      }
      assert h[..k + 1] == h[..k] + [h[k]];
      ReplayStep(h[..k], h[k]);
    }
  }

  /** A lifecycle is approved at most once. */
  lemma {:induction false} ApprovedOnce(h: seq<Event>, i: nat, k: nat)
    requires Replay(h).Some? && i < k <= |h| && h[i].eventType == Approve
    ensures Replay(h[..k]).Some? && !Replay(h[..k]).value.Requested? && !Replay(h[..k]).value.Pending?
    ensures k < |h| ==> h[k].eventType != Approve
  {
    hide Replay;
    ReplayPrefix(h, k - 1);
    ReplayPrefix(h, k);
    if k < |h| {
      ReplayPrefix(h, k + 1);
    }
    if i < k - 1 {
      ApprovedOnce(h, i, k - 1);
    }
  }

  ghost predicate Unapproved(h: seq<Event>, k: nat)
    requires k <= |h|
  {
    forall i :: 0 <= i < k ==> h[i].eventType != Approve
  }

  /** The only APPROVE of a lifecycle decides whether there is a matching one. */
  lemma OnlyApproval(h: seq<Event>, i: nat, a: Adjudication)
    requires Replay(h).Some? && i < |h| && h[i].eventType == Approve
    ensures HasMatchingApproval(h, a) <==> ApprovalMatches(h[i], a)
  {
    forall k | 0 <= k < |h| && k != i ensures h[k].eventType != Approve {
      if i < k {
        ApprovedOnce(h, i, k);
      } else if h[k].eventType == Approve {
        ApprovedOnce(h, k, i);
      }
    }
  }

  lemma NoApproval(h: seq<Event>, a: Adjudication)
    requires Unapproved(h, |h|)
    ensures !HasMatchingApproval(h, a)
  {
  }

  lemma UnapprovedNext(h: seq<Event>, i: nat)
    requires i < |h| && Unapproved(h, i) && h[i].eventType != Approve
    ensures Unapproved(h, i + 1)
  {
  }

  // ---------------------------------------------------------------- the projection loop

  /** `projectGrantInterval`: half-open to inclusive at microsecond precision. */
  function ProjectGrantInterval(start: Time, end: Option<Time>): (r: Option<(Time, Option<Time>)>)
    ensures r.Some? <==> Canonical(start) && (end.None? || (Canonical(end.value) && start < end.value))
    ensures r.Some? ==> r.value.0 == start && r.value.1.Some? == end.Some?
    ensures r.Some? && end.Some? ==>
      forall t :: Canonical(t) ==> (r.value.0 <= t <= r.value.1.value <==> start <= t < end.value)
  {
    if !Canonical(start) then None
    else if end.None? then Some((start, None))
    else if !Canonical(end.value) || !(end.value > start) then None
    else Some((start, Some(end.value - MICROSECOND)))
  }

  predicate PastApproval(s: State) {
    !s.Requested? && !s.Pending? && !s.Rejected?
  }

  /** How the state reached shows in the last event. */
  predicate Shows(s: State, h: seq<Event>, i: nat)
    requires i <= |h|
  {
    && (s == Active <==> i > 0 && (h[i - 1].eventType.Activate? || h[i - 1].eventType.Reinstate?))
    && (s == Suspended <==> i > 0 && h[i - 1].eventType == Suspend)
    && (s == Revoked <==> i > 0 && h[i - 1].eventType == Revoke)
  }

  /** The variables that the closures `openInterval` and `closeInterval` capture. */
  class IntervalBuilder {
    const record: Record
    var intervalFrom: Time
    var intervalGrantId: string
    var intervalState: GrantState
    var grants: seq<Grant>

    constructor (record: Record)
      ensures this.record == record && intervalFrom == 0 && grants == []
    {
      this.record := record;
      intervalFrom, intervalGrantId, intervalState, grants := 0, "", GrantOther(""), [];
    }

    method OpenInterval(event: Event, state: GrantState) returns (ok: bool)
      modifies this
      ensures ok == (old(intervalFrom) == 0)
      ensures !ok ==> unchanged(this)
      ensures grants == old(grants)
      ensures ok ==> intervalFrom == event.effectiveAt && intervalState == state
      ensures ok ==> intervalGrantId == GrantId(record.authorizationId, event.eventId)
    {
      if intervalFrom != 0 {
        return false;
      }
      intervalFrom := event.effectiveAt;
      intervalGrantId := record.authorizationId + ":" + event.eventId;
      intervalState := state;
      return true;
    }

    method CloseInterval(end: Time) returns (ok: bool)
      modifies this
      ensures ok == (old(intervalFrom) != 0 && Canonical(old(intervalFrom)) && Canonical(end) && end > old(intervalFrom))
      ensures !ok ==> unchanged(this)
      ensures ok ==> intervalFrom == 0 && intervalGrantId == "" && intervalState == old(intervalState)
      ensures ok ==>
        grants == old(grants) + [Grant(old(intervalGrantId), record.issuerId, record.claimType, record.subjectId,
                                       old(intervalFrom), Some(end - MICROSECOND), old(intervalState))]
    {
      if intervalFrom == 0 {
        return false;
      }
      var projected := ProjectGrantInterval(intervalFrom, Some(end));
      if projected.None? {
        return false;
      }
      grants := grants + [Grant(intervalGrantId, record.issuerId, record.claimType, record.subjectId,
                                projected.value.0, projected.value.1, intervalState)];
      intervalFrom := 0;
      intervalGrantId := "";
      return true;
    }

    /** Having read `i` events of `h`, the builder holds their grants, the last one still open if it is an opener. */
    ghost predicate Holds(h: seq<Event>, i: nat)
      requires i <= |h|
      reads this
    {
      && grants == Intervals(record, h, if i == 0 then 0 else i - 1)
      && (intervalFrom != 0 <==> i > 0 && Opener(h[i - 1]))
      && (i > 0 && Opener(h[i - 1]) ==>
            && intervalFrom == h[i - 1].effectiveAt
            && intervalGrantId == GrantId(record.authorizationId, h[i - 1].eventId)
            && intervalState == OpenedState(h[i - 1]))
    }

    /** Approval and the other early events leave the intervals alone. */
    lemma Skipped(h: seq<Event>, i: nat)
      requires i < |h| && Holds(h, i) && intervalFrom == 0 && !Opener(h[i])
      ensures Holds(h, i + 1)
    {
      assert grants + [] == grants;
    }

    /** The interval cases of the loop's switch. None of its guards fires on a valid history. */
    method Advance(event: Event, approved: bool, ghost before: State, ghost h: seq<Event>, ghost i: nat)
      returns (ok: bool)
      requires i < |h| && event == h[i] && event.eventType != Approve
      requires Holds(h, i) && Shows(before, h, i) && Apply(Some(before), event).Some?
      requires approved <==> PastApproval(before)
      requires Canonical(event.effectiveAt) && (i > 0 ==> Canonical(h[i - 1].effectiveAt) && Follows(h[i - 1], event))
      modifies this
      ensures ok && Holds(h, i + 1)
    {
      match event.eventType {
        case Activate =>
          if !approved {
            return false;
          }
          var ok := OpenInterval(event, GrantActive);
          if !ok {
            return false;
          }

        case Suspend =>
          if intervalState != GrantActive {
            return false;
          }
          var ok := CloseInterval(event.effectiveAt);
          if !ok {
            return false;
          }
          ok := OpenInterval(event, GrantInactive);
          if !ok {
            return false;
          }

        case Reinstate =>
          if intervalState != GrantInactive {
            return false;
          }
          var ok := CloseInterval(event.effectiveAt);
          if !ok {
            return false;
          }
          ok := OpenInterval(event, GrantActive);
          if !ok {
            return false;
          }

        case Expire =>
          if intervalFrom != 0 {
            var ok := CloseInterval(event.effectiveAt);
            if !ok {
              return false;
            }
          }

        case Revoke =>
          if intervalFrom != 0 {
            var ok := CloseInterval(event.effectiveAt);
            if !ok {
              return false;
            }
          }
          var ok := OpenInterval(event, GrantInactive);
          if !ok {
            return false;
          }

        case _ =>
      }
      return true;
    }

    /** The closing guards, none of which fires, and the grant of the interval still open. */
    method Finish(lifecycleState: State, ghost h: seq<Event>) returns (r: Option<seq<Grant>>)
      requires Holds(h, |h|) && Shows(lifecycleState, h, |h|)
      ensures r == Some(Intervals(record, h, |h|))
    {
      if lifecycleState == Active && (intervalFrom == 0 || intervalState != GrantActive) {
        return None;
      }
      if lifecycleState == Revoked && (intervalFrom == 0 || intervalState != GrantInactive) {
        return None;
      }
      if lifecycleState == Suspended && (intervalFrom == 0 || intervalState != GrantInactive) {
        return None;
      }
      if lifecycleState != Active && lifecycleState != Suspended && lifecycleState != Revoked && intervalFrom != 0 {
        return None;
      }
      if intervalFrom != 0 {
        return Some(grants + [Grant(intervalGrantId, record.issuerId, record.claimType, record.subjectId,
                                    intervalFrom, None, intervalState)]);
      }
      assert grants + [] == grants;
      return Some(grants);
    }
  }

  /** `ProjectAuthorityGrants`. Its guards past the adjudication checks never fire, except for a mismatched or missing approval. */
  method ProjectAuthorityGrants(record: Record, journal: AuthorizationJournal?, recordedThrough: Time)
    returns (r: Option<seq<Grant>>)
    requires journal != null ==> journal.Valid()
    ensures r == if journal == null then None else ProjectedGrants(record, journal.events, recordedThrough)
  {
    if record.authorizationId == "" || record.issuerId == "" || record.subjectId == "" || record.claimType == "" ||
       journal == null || !Canonical(recordedThrough)
    {
      return None;
    }
    if !Adjudicated(record, recordedThrough) {
      return None;
    }
    var adjudication := record.adjudication.value;
    var view := journal.EffectiveEvents(record.authorizationId, recordedThrough);
    if view.None? {
      return None;
    }
    HistoryShape(journal.events, record.authorizationId, recordedThrough);
    r := ProjectHistory(record, view.value, adjudication);
  }

  lemma ShowsNext(before: State, h: seq<Event>, i: nat)
    requires i < |h| && Apply(Some(before), h[i]).Some?
    ensures Shows(Apply(Some(before), h[i]).value, h, i + 1)
  {
  }

  lemma ApprovalNext(before: State, h: seq<Event>, i: nat)
    requires i < |h| && Shows(before, h, i) && Apply(Some(before), h[i]).Some?
    ensures var after := Apply(Some(before), h[i]).value;
      && (h[i].eventType == Approve ==> !PastApproval(before) && PastApproval(after) && !(i > 0 && Opener(h[i - 1])))
      && (h[i].eventType != Approve ==> PastApproval(after) == PastApproval(before))
  {
  }

  /** The part of `ProjectAuthorityGrants` that walks the effective history. */
  method ProjectHistory(record: Record, events: seq<Event>, adjudication: Adjudication) returns (r: Option<seq<Grant>>)
    requires Ordered(events) && Replay(events).Some?
    requires forall i :: 0 <= i < |events| ==> Canonical(events[i].effectiveAt)
    ensures r == if HasMatchingApproval(events, adjudication) then Some(Intervals(record, events, |events|)) else None
  {
    var approved := false;
    var lifecycleState := Requested;
    var builder := new IntervalBuilder(record);
    for i := 0 to |events|
      invariant Replay(events[..i]) == Some(lifecycleState)
      invariant Shows(lifecycleState, events, i)
      invariant builder.Holds(events, i)
      invariant approved <==> PastApproval(lifecycleState)
      invariant approved ==> HasMatchingApproval(events, adjudication)
      invariant !approved ==> Unapproved(events, i)
    {
      var event := events[i];
      ReplayPrefix(events, i);
      var transition := Transition(lifecycleState, event.eventType, event.conditionsSatisfied);
      if !transition.applied {
        assert false;
        return None;
      }
      ShowsNext(lifecycleState, events, i);
      ApprovalNext(lifecycleState, events, i);
      if event.eventType == Approve {
        OnlyApproval(events, i, adjudication);
        if event.evidenceRef != adjudication.evidenceRef || event.actorId != adjudication.decisionMakerId ||
           adjudication.recordedAt > event.recordedAt
        {
          return None;
        }
        builder.Skipped(events, i);
        approved := true;
      } else {
        if !approved {
          UnapprovedNext(events, i);
        }
        var ok := builder.Advance(event, approved, lifecycleState, events, i);
        if !ok {
          return None;
        }
      }
      lifecycleState := transition.state;
    }
    assert events[..|events|] == events;

    if !approved {
      NoApproval(events, adjudication);
      return None;
    }
    r := builder.Finish(lifecycleState, events);
  }
}
