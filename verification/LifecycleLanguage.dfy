/**
 * The lifecycles there are, as words: what internal/authority/state_machine.go accepts event by event, told without states,
 * and with it which events `Append` of registry.go accepts.
 */
module LifecycleLanguage {
  import opened Common
  import opened Lifecycle
  import opened Journal
  import opened JournalReplay

  /**
   * A submission, a decision on it, and after an approval an activation; then suspensions and reinstatements in turn, until
   * an expiry or a revocation ends them. Each may be as far as the word goes.
   */
  predicate IsLifecycle(w: seq<EventType>) {
    && (|w| > 0 ==> w[0] == Submit)
    && (|w| > 1 ==> w[1] == Approve || w[1] == Reject)
    && (|w| > 2 ==> w[1] == Approve && w[2] == Activate)
    && forall i :: 3 <= i < |w| ==>
         || w[i] == (if i % 2 == 1 then Suspend else Reinstate)
         || (i == |w| - 1 && (w[i] == Expire || w[i] == Revoke))
  }

  /** Where a lifecycle has come to shows in its last event. */
  function Ending(w: seq<EventType>): State {
    if w == [] then Requested
    else
      match w[|w| - 1]
      case Submit => Pending
      case Approve => Approved
      case Reject => Rejected
      case Activate => Active
      case Suspend => Suspended
      case Reinstate => Active
      case Expire => Expired
      case Revoke => Revoked
      case Unrecognized(_) => Requested
  }

  function TypesOf(h: seq<Event>): (w: seq<EventType>)
    ensures |w| == |h| && forall i :: 0 <= i < |h| ==> w[i] == h[i].eventType
  {
    seq(|h|, i requires 0 <= i < |h| => h[i].eventType)
  }

  predicate Satisfied(h: seq<Event>) {
    forall i :: 0 <= i < |h| ==> h[i].conditionsSatisfied
  }

  /** One more event: which may follow is told by how far the word has come. */
  lemma OneMore(w: seq<EventType>, x: EventType)
    ensures IsLifecycle(w + [x]) <==> IsLifecycle(w) && NextState(Ending(w), x).Some?
    ensures IsLifecycle(w + [x]) ==> NextState(Ending(w), x) == Some(Ending(w + [x]))
  {
    var longer, n := w + [x], |w|;
    assert forall i :: 0 <= i < n ==> longer[i] == w[i];
    assert longer[n] == x;
    if IsLifecycle(longer) && n > 3 {
      assert w[n - 1] == (if (n - 1) % 2 == 1 then Suspend else Reinstate);
    }
  }

  /** Events replay exactly when their conditions are met and they form a lifecycle, which tells the state they lead to. */
  lemma {:induction false} ReplaysExactly(h: seq<Event>)
    ensures Replay(h) == if Satisfied(h) && IsLifecycle(TypesOf(h)) then Some(Ending(TypesOf(h))) else None
  {
    if h != [] {
      var n := |h| - 1;
      ReplaysExactly(h[..n]);
      OneMore(TypesOf(h[..n]), h[n].eventType);
      assert TypesOf(h) == TypesOf(h[..n]) + [h[n].eventType];
      assert Satisfied(h) <==> Satisfied(h[..n]) && h[n].conditionsSatisfied;
      hide IsLifecycle, Ending, NextState, Satisfied;
    }
  }

  /** The events of one authorization that are not corrections, in journal order. */
  function OwnTypes(events: seq<Event>, id: string): seq<EventType> {
    if events == [] then []
    else
      var e := events[|events| - 1];
      OwnTypes(events[..|events| - 1], id) + if e.authorizationId == id && e.correctsEventId == "" then [e.eventType] else []
  }

  lemma {:induction false} OwnTypesRecorded(events: seq<Event>, id: string, cutoff: Time)
    requires forall i :: 0 <= i < |events| ==> events[i].recordedAt <= cutoff
    ensures TypesOf(Recorded(events, id, cutoff)) == OwnTypes(events, id)
  {
    if events != [] {
      OwnTypesRecorded(events[..|events| - 1], id, cutoff);
    }
  }

  /**
   * `Append` accepts an event exactly when it is filled in, at whole microseconds, new and not recorded before the last
   * one, and it is either a correction that names its reason, a field and an event of its authorization, or goes on with
   * the lifecycle of its authorization under satisfied conditions.
   */
  lemma AppendsExactly(events: seq<Event>, e: Event)
    requires Built(events)
    ensures Accepts(events, e) <==>
      && e.eventId != "" && e.authorizationId != "" && e.actorId != "" && e.evidenceRef != ""
      && e.effectiveAt != 0 && e.effectiveAt % 1000 == 0 && e.recordedAt != 0 && e.recordedAt % 1000 == 0
      && (forall i :: 0 <= i < |events| ==> events[i].eventId != e.eventId && events[i].recordedAt <= e.recordedAt)
      && (if e.correctsEventId != "" then
            && e.correctionReason != "" && e.correctedField != ""
            && exists i :: 0 <= i < |events| && events[i].eventId == e.correctsEventId
                           && events[i].authorizationId == e.authorizationId
          else e.conditionsSatisfied && IsLifecycle(OwnTypes(events, e.authorizationId) + [e.eventType]))
  {
    hide Replay, NextState, IsLifecycle, Built;
    BuiltShape(events);
    var id := e.authorizationId;
    if WellFormed(e) && (events != [] ==> events[|events| - 1].recordedAt <= e.recordedAt) {
      ReconstructAlwaysSucceeds(events, id, e.recordedAt);
      OwnTypesRecorded(events, id, e.recordedAt);
      ReplaysExactly(Recorded(events, id, e.recordedAt));
      OneMore(OwnTypes(events, id), e.eventType);
    }
  }

  /** The same of the events recorded by a cutoff. */
  function KnownTypes(events: seq<Event>, id: string, cutoff: Time): seq<EventType> {
    if events == [] then []
    else
      var e := events[|events| - 1];
      KnownTypes(events[..|events| - 1], id, cutoff) +
      if e.authorizationId == id && e.correctsEventId == "" && e.recordedAt <= cutoff then [e.eventType] else []
  }

  lemma {:induction false} KnownTypesRecorded(events: seq<Event>, id: string, cutoff: Time)
    ensures TypesOf(Recorded(events, id, cutoff)) == KnownTypes(events, id, cutoff)
  {
    if events != [] {
      KnownTypesRecorded(events[..|events| - 1], id, cutoff);
    }
  }

  /**
   * `Reconstruct` answers for every authorization id and whole-microsecond cutoff, and the answer is where the lifecycle
   * known by then has come to.
   */
  lemma ReconstructsExactly(events: seq<Event>, id: string, cutoff: Time)
    requires Built(events)
    ensures Reconstruction(events, id, cutoff) ==
      if id == "" || cutoff == 0 || cutoff % 1000 != 0 then None else Some(Ending(KnownTypes(events, id, cutoff)))
  {
    if id != "" && Canonical(cutoff) {
      ReconstructAlwaysSucceeds(events, id, cutoff);
      KnownTypesRecorded(events, id, cutoff);
      ReplaysExactly(Recorded(events, id, cutoff));
    }
    hide Built, Replay, Ending, IsLifecycle, Recorded, KnownTypes;
  }
}
