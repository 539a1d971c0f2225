/** The append-only authorization journal of internal/authority/registry.go. */
module Journal {
  import opened Common
  import opened Lifecycle

  /** `AuthorizationJournalEvent`. An empty string stands for an absent reference, as in the source. */
  datatype Event = Event(
    eventId: string,
    authorizationId: string,
    eventType: EventType,
    effectiveAt: Time,
    recordedAt: Time,
    actorId: string,
    evidenceRef: string,
    conditionsSatisfied: bool,
    correctsEventId: string,
    correctionReason: string,
    correctedField: string)

  predicate IsCorrection(e: Event) {
    e.correctsEventId != ""
  }

  // ---------------------------------------------------------------- replay

  /** One step of replay; `None` once a transition has been refused. */
  function Apply(s: Option<State>, e: Event): Option<State> {
    if s.None? then None
    else
      var r := Transition(s.value, e.eventType, e.conditionsSatisfied);
      if r.applied then Some(r.state) else None
  }

  /** The state a list of lifecycle events leads to, from REQUESTED. */
  function Replay(h: seq<Event>): Option<State> {
    if h == [] then Some(Requested) else Apply(Replay(h[..|h| - 1]), h[|h| - 1])
  }

  /** The lifecycle events of one authorization that were recorded by the cutoff, in journal order. */
  function Recorded(events: seq<Event>, id: string, cutoff: Time): seq<Event> {
    if events == [] then []
    else
      var e := events[|events| - 1];
      Recorded(events[..|events| - 1], id, cutoff) +
      if e.authorizationId == id && e.recordedAt <= cutoff && !IsCorrection(e) then [e] else []
  }

  /** What `Reconstruct` answers: the replay of everything recorded by the cutoff. */
  function Reconstruction(events: seq<Event>, id: string, cutoff: Time): Option<State> {
    if id == "" || !Canonical(cutoff) then None else Replay(Recorded(events, id, cutoff))
  }

  lemma {:induction false} ReplayFailureSticks(h: seq<Event>, k: nat)
    requires k <= |h| && Replay(h[..k]).None?
    ensures Replay(h).None?
  {
    if k == |h| {
      assert h[..k] == h;
    } else {
      assert h[..|h| - 1][..k] == h[..k];
      ReplayFailureSticks(h[..|h| - 1], k);
    }
  }

  lemma ReplayStep(h: seq<Event>, e: Event)
    ensures Replay(h + [e]) == Apply(Replay(h), e)
  {
    assert (h + [e])[..|h|] == h;
  }

  lemma RecordedStep(events: seq<Event>, i: nat, id: string, cutoff: Time)
    requires i < |events|
    ensures var e := events[i];
      Recorded(events[..i + 1], id, cutoff) ==
      if e.authorizationId == id && e.recordedAt <= cutoff && !IsCorrection(e)
      then Recorded(events[..i], id, cutoff) + [e] else Recorded(events[..i], id, cutoff)
  {
    assert events[..i + 1][..i] == events[..i];
    assert Recorded(events[..i], id, cutoff) + [] == Recorded(events[..i], id, cutoff);
  }

  lemma {:induction false} RecordedOfPrefix(events: seq<Event>, k: nat, id: string, cutoff: Time)
    requires k <= |events|
    ensures Recorded(events[..k], id, cutoff) <= Recorded(events, id, cutoff)
  {
    if k == |events| {
      assert events[..k] == events;
    } else {
      assert events[..|events| - 1][..k] == events[..k];
      RecordedOfPrefix(events[..|events| - 1], k, id, cutoff);
    }
  }

  lemma RecordedFails(events: seq<Event>, k: nat, id: string, cutoff: Time)
    requires k <= |events| && Replay(Recorded(events[..k], id, cutoff)).None?
    ensures Replay(Recorded(events, id, cutoff)).None?
  {
    RecordedOfPrefix(events, k, id, cutoff);
    var all, some := Recorded(events, id, cutoff), Recorded(events[..k], id, cutoff);
    assert all[..|some|] == some;
    ReplayFailureSticks(all, |some|);
  }

  // ---------------------------------------------------------------- append

  predicate WellFormed(e: Event) {
    && e.eventId != "" && e.authorizationId != "" && e.actorId != "" && e.evidenceRef != ""
    && Canonical(e.effectiveAt) && Canonical(e.recordedAt)
  }

  /** Exactly the events `Append` records. */
  predicate Accepts(events: seq<Event>, e: Event) {
    && WellFormed(e)
    && (events != [] ==> events[|events| - 1].recordedAt <= e.recordedAt)
    && (forall i :: 0 <= i < |events| ==> events[i].eventId != e.eventId)
    && if IsCorrection(e) then
         && e.correctionReason != "" && e.correctedField != ""
         && exists i :: 0 <= i < |events| && events[i].eventId == e.correctsEventId
                        && events[i].authorizationId == e.authorizationId
       else
         Apply(Reconstruction(events, e.authorizationId, e.recordedAt), e).Some?
  }

  /** Journals that `Append` can build from the empty one; `events` is unexported, so there are no others. */
  predicate Built(events: seq<Event>) {
    events == [] ||
    (Built(events[..|events| - 1]) && Accepts(events[..|events| - 1], events[|events| - 1]))
  }

  // ---------------------------------------------------------------- effective view

  /** How many events the loop of `EffectiveEvents` reads before its `break`. */
  function KnownCount(events: seq<Event>, cutoff: Time): (n: nat)
    ensures n <= |events|
  {
    if events == [] then 0
    else
      var n := KnownCount(events[..|events| - 1], cutoff);
      if n == |events| - 1 && events[|events| - 1].recordedAt <= cutoff then n + 1 else n
  }

  predicate Corrects(c: Event, id: string, target: string) {
    c.authorizationId == id && IsCorrection(c) && c.correctsEventId == target
  }

  /** The events of one authorization that some correction in the list amends. */
  function CorrectedIds(events: seq<Event>, id: string): set<string> {
    if events == [] then {}
    else
      var c := events[|events| - 1];
      CorrectedIds(events[..|events| - 1], id) +
      if c.authorizationId == id && IsCorrection(c) then {c.correctsEventId} else {}
  }

  /** The position of an event id in a derived view, if it is there. */
  function PositionOf(view: seq<Event>, eventId: string): (p: Option<nat>)
    ensures p.Some? ==> p.value < |view| && view[p.value].eventId == eventId
    ensures p.None? ==> forall i :: 0 <= i < |view| ==> view[i].eventId != eventId
  {
    if view == [] then None
    else if view[|view| - 1].eventId == eventId then Some(|view| - 1)
    else PositionOf(view[..|view| - 1], eventId)
  }

  /** A correction can be applied to a view when it amends the time of an event in it that no earlier one amended. */
  predicate Amends(c: Event, earlier: seq<Event>, view: seq<Event>) {
    && c.correctedField == "EffectiveAt"
    && PositionOf(view, c.correctsEventId).Some?
    && c.correctsEventId !in CorrectedIds(earlier, c.authorizationId)
    && Canonical(c.effectiveAt)
  }

  /** The lifecycle events of one authorization with every correction so far applied. */
  function View(events: seq<Event>, id: string): Option<seq<Event>> {
    if events == [] then Some([])
    else
      var earlier := events[..|events| - 1];
      var v := View(earlier, id);
      if v.None? then None else ViewStep(earlier, v.value, id, events[|events| - 1])
  }

  /** One step of the derived view, given what preceded the event. */
  function ViewStep(earlier: seq<Event>, view: seq<Event>, id: string, e: Event): Option<seq<Event>> {
    if e.authorizationId != id then Some(view)
    else if !IsCorrection(e) then Some(view + [e])
    else if !Amends(e, earlier, view) then None
    else
      var p := PositionOf(view, e.correctsEventId).value;
      Some(view[p := view[p].(effectiveAt := e.effectiveAt)])
  }

  /** Events that open an interval of authority or of its explicit withdrawal. */
  predicate Opener(e: Event) {
    e.eventType.Activate? || e.eventType.Suspend? || e.eventType.Reinstate? || e.eventType.Revoke?
  }

  /** `next` may come right after `previous`: not before it, and strictly after it when `previous` opened an interval. */
  predicate Follows(previous: Event, next: Event) {
    previous.effectiveAt <= next.effectiveAt &&
    (Opener(previous) ==> previous.effectiveAt < next.effectiveAt)
  }

  predicate Ordered(h: seq<Event>) {
    forall i :: 0 < i < |h| ==> Follows(h[i - 1], h[i])
  }

  /** What `EffectiveEvents` answers. */
  function EffectiveHistory(events: seq<Event>, id: string, cutoff: Time): (r: Option<seq<Event>>)
    ensures r.Some? ==> Ordered(r.value) && Replay(r.value).Some?
  {
    if id == "" || !Canonical(cutoff) then None
    else
      var v := View(events[..KnownCount(events, cutoff)], id);
      if v.Some? && Ordered(v.value) && Replay(v.value).Some? then v else None
  }

  lemma {:induction false} ViewFailureSticks(events: seq<Event>, k: nat, id: string)
    requires k <= |events| && View(events[..k], id).None?
    ensures View(events, id).None?
  {
    if k == |events| {
      assert events[..k] == events;
    } else {
      assert events[..|events| - 1][..k] == events[..k];
      ViewFailureSticks(events[..|events| - 1], k, id);
    }
  }

  lemma {:induction false} KnownCountSettles(events: seq<Event>, k: nat, cutoff: Time)
    requires k < |events| && KnownCount(events[..k], cutoff) == k && cutoff < events[k].recordedAt
    ensures KnownCount(events, cutoff) == k
  {
    if k == |events| - 1 {
    } else {
      assert events[..|events| - 1][..k] == events[..k];
      KnownCountSettles(events[..|events| - 1], k, cutoff);
    }
  }

  lemma BuiltPrefix(events: seq<Event>, k: nat)
    requires Built(events) && k <= |events|
    ensures Built(events[..k])
  {
    if k == |events| {
      assert events[..k] == events;
    } else {
      assert events[..|events| - 1][..k] == events[..k];
      BuiltPrefix(events[..|events| - 1], k);
    }
  }

  /** The journal is well formed, sorted by recording time, and its event ids are distinct. */
  lemma {:induction false} BuiltShape(events: seq<Event>)
    requires Built(events)
    ensures forall i :: 0 <= i < |events| ==> WellFormed(events[i])
    ensures forall i, j :: 0 <= i < j < |events| ==> events[i].recordedAt <= events[j].recordedAt
    ensures forall i, j :: 0 <= i < j < |events| ==> events[i].eventId != events[j].eventId
  {
    if events != [] {
      var n := |events| - 1;
      BuiltShape(events[..n]);
      forall i, j | 0 <= i < j < |events|
        ensures events[i].recordedAt <= events[j].recordedAt && events[i].eventId != events[j].eventId
      {
        if j == n {
          assert events[..n][i] == events[i] && events[..n][n - 1] == events[n - 1];
        } else {
          assert events[..n][i] == events[i] && events[..n][j] == events[j];
        }
      }
      forall i | 0 <= i < |events| ensures WellFormed(events[i]) {
        if i < n {
          assert events[..n][i] == events[i];
        }
      }
    }
  }

  // ---------------------------------------------------------------- the journal object

  /** The first search loop of `Append`. */
  method Contains(events: seq<Event>, eventId: string) returns (found: bool)
    ensures found <==> exists i :: 0 <= i < |events| && events[i].eventId == eventId
  {
    for i := 0 to |events|
      invariant forall j :: 0 <= j < i ==> events[j].eventId != eventId
    {
      if events[i].eventId == eventId {
        return true;
      }
    }
    return false;
  }

  /** The second search loop of `Append`: an event of one authorization. */
  method ContainsFor(events: seq<Event>, eventId: string, authorizationId: string) returns (found: bool)
    ensures found <==> exists i :: 0 <= i < |events| && events[i].eventId == eventId
                                   && events[i].authorizationId == authorizationId
  {
    for i := 0 to |events|
      invariant forall j :: 0 <= j < i ==>
        !(events[j].eventId == eventId && events[j].authorizationId == authorizationId)
    {
      if events[i].eventId == eventId && events[i].authorizationId == authorizationId {
        return true;
      }
    }
    return false;
  }

  /** `AuthorizationJournal`: accepted events in append order. */
  class AuthorizationJournal {
    var events: seq<Event>

    ghost predicate Valid()
      reads this
    {
      Built(events)
    }

    constructor ()
      ensures Valid() && events == []
    {
      events := [];
    }

    /** Records an event if it is acceptable, and leaves the journal as it was otherwise. */
    method Append(event: Event) returns (ok: bool)
      requires Valid()
      modifies this
      ensures Valid()
      ensures ok == Accepts(old(events), event)
      ensures events == if ok then old(events) + [event] else old(events)
    {
      if !WellFormed(event) {
        return false;
      }
      if |events| > 0 && event.recordedAt < events[|events| - 1].recordedAt {
        return false;
      }
      var repeated := Contains(events, event.eventId);
      if repeated {
        return false;
      }
      if event.correctsEventId != "" {
        if event.correctionReason == "" || event.correctedField == "" {
          return false;
        }
        var found := ContainsFor(events, event.correctsEventId, event.authorizationId);
        if !found {
          return false;
        }
      } else {
        var state := Reconstruct(event.authorizationId, event.recordedAt);
        if state.None? {
          return false;
        }
        var result := Transition(state.value, event.eventType, event.conditionsSatisfied);
        if !result.applied {
          return false;
        }
      }
      assert (events + [event])[..|events|] == events;
      events := events + [event];
      return true;
    }

    /** `Events`: a copy of the journal's contents. */
    method Events() returns (copied: seq<Event>)
      ensures copied == events
    {
      copied := events;
    }

    /** The lifecycle state known at a recorded-time cutoff. */
    method Reconstruct(authorizationId: string, recordedThrough: Time) returns (r: Option<State>)
      ensures r == Reconstruction(events, authorizationId, recordedThrough)
    {
      if authorizationId == "" || !Canonical(recordedThrough) {
        return None;
      }
      var state := Requested;
      for i := 0 to |events|
        invariant Replay(Recorded(events[..i], authorizationId, recordedThrough)) == Some(state)
      {
        var event := events[i];
        RecordedStep(events, i, authorizationId, recordedThrough);
        if event.authorizationId != authorizationId || event.recordedAt > recordedThrough ||
           event.correctsEventId != ""
        {
          continue;
        }
        ReplayStep(Recorded(events[..i], authorizationId, recordedThrough), event);
        var result := Transition(state, event.eventType, event.conditionsSatisfied);
        if !result.applied {
          RecordedFails(events, i + 1, authorizationId, recordedThrough);
          return None;
        }
        state := result.state;
      }
      assert events[..|events|] == events;
      return Some(state);
    }

    /** The lifecycle events known at a recorded-time cutoff, with corrections applied, if they form a valid history. */
    method EffectiveEvents(authorizationId: string, recordedThrough: Time) returns (r: Option<seq<Event>>)
      requires Valid()
      ensures r == EffectiveHistory(events, authorizationId, recordedThrough)
    {
      if authorizationId == "" || !Canonical(recordedThrough) {
        return None;
      }
      var view := DerivedView(authorizationId, recordedThrough);
      if view.None? {
        return None;
      }
      var ok := LifecycleHolds(view.value);
      return if ok then view else None;
    }

    /** The first loop of `EffectiveEvents`: reads up to the cutoff and amends the derived copy in place. */
    method DerivedView(authorizationId: string, recordedThrough: Time) returns (r: Option<seq<Event>>)
      requires Valid()
      ensures r == View(events[..KnownCount(events, recordedThrough)], authorizationId)
    {
      var recorded := events;
      var effective: seq<Event> := [];
      var positions: map<string, nat> := map[];
      var corrected: set<string> := {};
      for i := 0 to |recorded|
        invariant KnownCount(recorded[..i], recordedThrough) == i
        invariant View(recorded[..i], authorizationId) == Some(effective)
        invariant Indexes(positions, effective)
        invariant corrected == CorrectedIds(recorded[..i], authorizationId)
      {
        var event := recorded[i];
        if event.recordedAt > recordedThrough {
          KnownCountSettles(recorded, i, recordedThrough);
          return Some(effective);
        }
        KnownStep(recorded, i, authorizationId, recordedThrough, effective);
        if event.authorizationId != authorizationId {
          continue;
        }
        if event.correctsEventId == "" {
          FreshInView(recorded, i, authorizationId);
          IndexesAppend(positions, effective, event);
          positions := positions[event.eventId := |effective|];
          effective := effective + [event];
          continue;
        }
        IndexesFind(positions, effective, event.correctsEventId);
        if event.correctedField != "EffectiveAt" ||
           event.correctsEventId !in positions || event.correctsEventId in corrected ||
           !Canonical(event.effectiveAt)
        {
          FailsWithin(recorded, i + 1, authorizationId, recordedThrough);
          return None;
        }
        var position := positions[event.correctsEventId];
        IndexesAmend(positions, effective, position, event.effectiveAt);
        corrected := corrected + {event.correctsEventId};
        effective := effective[position := effective[position].(effectiveAt := event.effectiveAt)];
      }
      assert recorded[..|recorded|] == events;
      return Some(effective);
    }
  }

  /** The second loop of `EffectiveEvents`: checks the derived history without changing its order. */
  method LifecycleHolds(effective: seq<Event>) returns (ok: bool)
    ensures ok == (Ordered(effective) && Replay(effective).Some?)
  {
    var state := Requested;
    for k := 0 to |effective|
      invariant Replay(effective[..k]) == Some(state)
      invariant forall m :: 0 < m < k ==> Follows(effective[m - 1], effective[m])
    {
      var event := effective[k];
      assert effective[..k + 1][..k] == effective[..k];
      if k > 0 {
        var previous := effective[k - 1];
        if event.effectiveAt < previous.effectiveAt {
          return false;
        }
        if Opener(previous) && !(event.effectiveAt > previous.effectiveAt) {
          assert !Follows(effective[k - 1], effective[k]);
          return false;
        }
      }
      var result := Transition(state, event.eventType, event.conditionsSatisfied);
      if !result.applied {
        ReplayFailureSticks(effective, k + 1);
        return false;
      }
      state := result.state;
    }
    assert effective[..|effective|] == effective;
    return true;
  }

  /** `positions` sends each event id of the view to where it stands. */
  ghost predicate Indexes(positions: map<string, nat>, view: seq<Event>) {
    && (forall x :: x in positions ==> positions[x] < |view| && view[positions[x]].eventId == x)
    && (forall i :: 0 <= i < |view| ==> view[i].eventId in positions && positions[view[i].eventId] == i)
  }

  lemma IndexesFind(positions: map<string, nat>, view: seq<Event>, eventId: string)
    requires Indexes(positions, view)
    ensures eventId in positions <==> PositionOf(view, eventId).Some?
    ensures eventId in positions ==> PositionOf(view, eventId) == Some(positions[eventId])
  {
  }

  lemma IndexesAppend(positions: map<string, nat>, view: seq<Event>, e: Event)
    requires Indexes(positions, view)
    requires forall i :: 0 <= i < |view| ==> view[i].eventId != e.eventId
    ensures Indexes(positions[e.eventId := |view|], view + [e])
  {
  }

  lemma IndexesAmend(positions: map<string, nat>, view: seq<Event>, p: nat, t: Time)
    requires Indexes(positions, view) && p < |view|
    ensures Indexes(positions, view[p := view[p].(effectiveAt := t)])
  {
  }

  /** Every event of the view stands in the journal it was derived from. */
  lemma {:induction false} ViewKnows(events: seq<Event>, id: string)
    requires View(events, id).Some?
    ensures forall k :: 0 <= k < |View(events, id).value| ==>
      exists m :: 0 <= m < |events| && events[m].eventId == View(events, id).value[k].eventId
  {
    if events != [] {
      var n := |events| - 1;
      ViewKnows(events[..n], id);
      var before, after := View(events[..n], id).value, View(events, id).value;
      forall k | 0 <= k < |after|
        ensures exists m :: 0 <= m < |events| && events[m].eventId == after[k].eventId
      {
        if k == |before| {
          assert events[n].eventId == after[k].eventId;
        } else {
          assert after[k].eventId == before[k].eventId;
          var m :| 0 <= m < n && events[..n][m].eventId == before[k].eventId;
          assert events[m].eventId == after[k].eventId;
        }
      }
    }
  }

  lemma FreshInView(events: seq<Event>, i: nat, id: string)
    requires Built(events) && i < |events| && View(events[..i], id).Some?
    ensures forall k :: 0 <= k < |View(events[..i], id).value| ==>
      View(events[..i], id).value[k].eventId != events[i].eventId
  {
    BuiltShape(events);
    ViewKnows(events[..i], id);
  }

  lemma KnownStep(events: seq<Event>, i: nat, id: string, cutoff: Time, view: seq<Event>)
    requires i < |events| && KnownCount(events[..i], cutoff) == i && events[i].recordedAt <= cutoff
    requires View(events[..i], id) == Some(view)
    ensures KnownCount(events[..i + 1], cutoff) == i + 1
    ensures View(events[..i + 1], id) == ViewStep(events[..i], view, id, events[i])
    ensures var c := events[i];
      CorrectedIds(events[..i + 1], id) == CorrectedIds(events[..i], id) +
      if c.authorizationId == id && IsCorrection(c) then {c.correctsEventId} else {}
  {
    assert events[..i + 1][..i] == events[..i];
  }

  lemma FailsWithin(events: seq<Event>, k: nat, id: string, cutoff: Time)
    requires k <= |events| && KnownCount(events[..k], cutoff) == k && View(events[..k], id).None?
    ensures View(events[..KnownCount(events, cutoff)], id).None?
  {
    KnownCountGrows(events, k, cutoff);
    var known := events[..KnownCount(events, cutoff)];
    assert known[..k] == events[..k];
    ViewFailureSticks(known, k, id);
  }

  lemma {:induction false} KnownCountGrows(events: seq<Event>, k: nat, cutoff: Time)
    requires k <= |events| && KnownCount(events[..k], cutoff) == k
    ensures KnownCount(events, cutoff) >= k
  {
    if k == |events| {
      assert events[..k] == events;
    } else {
      assert events[..|events| - 1][..k] == events[..k];
      KnownCountGrows(events[..|events| - 1], k, cutoff);
    }
  }
}
