/** What holds of every journal that `Append` can build, at every recorded-time cutoff. */
module JournalReplay {
  import opened Common
  import opened Lifecycle
  import opened Journal

  // ---------------------------------------------------------------- the two cutoffs

  /** The `break` of `EffectiveEvents` and the `continue` of `Reconstruct` select the same events. */
  lemma {:induction false} BreakSelectsWhatContinueSelects(events: seq<Event>, cutoff: Time)
    requires Built(events)
    ensures forall i :: 0 <= i < |events| ==>
      (i < KnownCount(events, cutoff) <==> events[i].recordedAt <= cutoff)
  {
    if events != [] {
      hide Accepts;
      var n := |events| - 1;
      BuiltShape(events);
      BreakSelectsWhatContinueSelects(events[..n], cutoff);
      forall i | 0 <= i < |events|
        ensures i < KnownCount(events, cutoff) <==> events[i].recordedAt <= cutoff
      {
        var known := KnownCount(events[..n], cutoff);
        if i < n {
          assert events[..n][i] == events[i];
        } else if known < n {
          assert events[..n][known] == events[known];
        }
      }
    }
  }

  /** The lifecycle events of one authorization in a list, whenever recorded. */
  function LifecycleEvents(events: seq<Event>, id: string): seq<Event> {
    if events == [] then []
    else
      var e := events[|events| - 1];
      LifecycleEvents(events[..|events| - 1], id) +
      if e.authorizationId == id && !IsCorrection(e) then [e] else []
  }

  function Known(events: seq<Event>, cutoff: Time): seq<Event> {
    events[..KnownCount(events, cutoff)]
  }

  lemma {:induction false} RecordedIsLifecycleOfKnown(events: seq<Event>, id: string, cutoff: Time)
    requires Built(events)
    ensures Recorded(events, id, cutoff) == LifecycleEvents(Known(events, cutoff), id)
  {
    if events != [] {
      var n := |events| - 1;
      BreakSelectsWhatContinueSelects(events, cutoff);
      RecordedIsLifecycleOfKnown(events[..n], id, cutoff);
      if events[n].recordedAt <= cutoff {
        assert Known(events, cutoff) == events && Known(events[..n], cutoff) == events[..n];
      } else {
        assert Known(events, cutoff) == Known(events[..n], cutoff);
        assert Recorded(events[..n], id, cutoff) + [] == Recorded(events[..n], id, cutoff);
      }
    }
  }

  // ---------------------------------------------------------------- Reconstruct never fails

  /** Once every event was recorded by both cutoffs, the cutoffs select the same events. */
  lemma {:induction false} RecordedByBoth(events: seq<Event>, id: string, c: Time, d: Time)
    requires forall i :: 0 <= i < |events| ==> events[i].recordedAt <= c && events[i].recordedAt <= d
    ensures Recorded(events, id, c) == Recorded(events, id, d)
  {
    if events != [] {
      RecordedByBoth(events[..|events| - 1], id, c, d);
    }
  }

  /** Every journal built by `Append` reconstructs at every canonical cutoff. */
  lemma {:induction false} ReconstructAlwaysSucceeds(events: seq<Event>, id: string, cutoff: Time)
    requires Built(events) && id != "" && Canonical(cutoff)
    ensures Reconstruction(events, id, cutoff).Some?
  {
    if events != [] {
      var n := |events| - 1;
      var e := events[n];
      ReconstructAlwaysSucceeds(events[..n], id, cutoff);
      RecordedStep(events, n, id, cutoff);
      assert events[..n + 1] == events;
      if e.authorizationId == id && e.recordedAt <= cutoff && !IsCorrection(e) {
        BuiltShape(events);
        RecordedByBoth(events[..n], id, cutoff, e.recordedAt);
        ReplayStep(Recorded(events[..n], id, cutoff), e);
      }
    }
  }

  // ---------------------------------------------------------------- corrections

  /** Every correction amends the time of an earlier lifecycle event, and no event is corrected twice. */
  ghost predicate CorrectionsSound(events: seq<Event>, id: string) {
    forall i :: 0 <= i < |events| && events[i].authorizationId == id && IsCorrection(events[i]) ==>
      CorrectionSound(events[..i], id, events[i])
  }

  ghost predicate CorrectionSound(earlier: seq<Event>, id: string, c: Event) {
    && c.correctedField == "EffectiveAt"
    && (exists j :: 0 <= j < |earlier| && earlier[j].authorizationId == id && !IsCorrection(earlier[j])
                    && earlier[j].eventId == c.correctsEventId)
    && c.correctsEventId !in CorrectedIds(earlier, id)
  }

  /** The effective time of an event once the corrections in a list are taken into account. */
  function AmendedTime(events: seq<Event>, id: string, e: Event): Time {
    if events == [] then e.effectiveAt
    else
      var c := events[|events| - 1];
      if Corrects(c, id, e.eventId) then c.effectiveAt else AmendedTime(events[..|events| - 1], id, e)
  }

  /** The lifecycle events of one authorization, each at its corrected time. */
  function Amended(events: seq<Event>, id: string): (h: seq<Event>)
    ensures |h| == |LifecycleEvents(events, id)|
  {
    var raw := LifecycleEvents(events, id);
    seq(|raw|, i requires 0 <= i < |raw| => raw[i].(effectiveAt := AmendedTime(events, id, raw[i])))
  }

  lemma {:induction false} LifecycleEventsStand(events: seq<Event>, id: string)
    ensures forall e :: e in LifecycleEvents(events, id) <==>
      e in events && e.authorizationId == id && !IsCorrection(e)
  {
    if events != [] {
      LifecycleEventsStand(events[..|events| - 1], id);
      assert events == events[..|events| - 1] + [events[|events| - 1]];
    }
  }

  lemma {:induction false} LifecycleEventsDistinct(events: seq<Event>, id: string)
    requires Built(events)
    ensures forall i, j :: 0 <= i < j < |LifecycleEvents(events, id)| ==>
      LifecycleEvents(events, id)[i].eventId != LifecycleEvents(events, id)[j].eventId
  {
    if events != [] {
      var n := |events| - 1;
      LifecycleEventsDistinct(events[..n], id);
      LifecycleEventsStand(events[..n], id);
      forall e | e in LifecycleEvents(events[..n], id) ensures e.eventId != events[n].eventId {
        assert e in events[..n];
      }
    }
  }

  lemma {:induction false} UncorrectedKeepsTime(events: seq<Event>, id: string, e: Event)
    requires e.eventId !in CorrectedIds(events, id)
    ensures AmendedTime(events, id, e) == e.effectiveAt
  {
    if events != [] {
      var n := |events| - 1;
      UncorrectedKeepsTime(events[..n], id, e);
    }
  }

  lemma SoundPrefix(events: seq<Event>, id: string)
    requires events != []
    ensures var n := |events| - 1;
      CorrectionsSound(events, id) <==>
      CorrectionsSound(events[..n], id) &&
      (events[n].authorizationId == id && IsCorrection(events[n]) ==> CorrectionSound(events[..n], id, events[n]))
  {
    var n := |events| - 1;
    assert forall i :: 0 <= i < n ==> events[..n][i] == events[i] && events[..n][..i] == events[..i];
  }

  lemma {:induction false} CorrectedIdsHasCorrection(events: seq<Event>, id: string, target: string) returns (i: nat)
    requires target in CorrectedIds(events, id)
    ensures i < |events| && Corrects(events[i], id, target)
  {
    var n := |events| - 1;
    if Corrects(events[n], id, target) {
      i := n;
    } else {
      i := CorrectedIdsHasCorrection(events[..n], id, target);
    }
  }

  lemma AcceptedAt(events: seq<Event>, i: nat)
    requires Built(events) && i < |events|
    ensures Accepts(events[..i], events[i])
  {
    hide Accepts;
    BuiltPrefix(events, i + 1);
    assert events[..i + 1][..i] == events[..i];
  }

  /** `Append` accepts a correction only when its target is in the journal already. */
  lemma CorrectionsLookBack(events: seq<Event>, i: nat)
    requires Built(events) && i < |events| && IsCorrection(events[i])
    ensures exists m :: 0 <= m < i && events[m].eventId == events[i].correctsEventId
  {
    hide Built, Reconstruction, WellFormed;
    AcceptedAt(events, i);
    var m :| 0 <= m < i && events[..i][m].eventId == events[i].correctsEventId;
    assert events[m].eventId == events[i].correctsEventId;
  }

  lemma FreshIsUncorrected(events: seq<Event>, id: string)
    requires Built(events) && events != []
    ensures events[|events| - 1].eventId !in CorrectedIds(events[..|events| - 1], id)
  {
    var n := |events| - 1;
    if events[n].eventId in CorrectedIds(events[..n], id) {
      var i := CorrectedIdsHasCorrection(events[..n], id, events[n].eventId);
      CorrectionsLookBack(events, i);
      BuiltShape(events);
    }
  }

  /** `DerivedView` succeeds exactly on sound corrections, and then holds every lifecycle event at its corrected time. */
  lemma {:induction false} ViewIsAmended(events: seq<Event>, id: string)
    requires Built(events)
    ensures View(events, id).Some? <==> CorrectionsSound(events, id)
    ensures View(events, id).Some? ==> View(events, id).value == Amended(events, id)
  {
    if events != [] {
      var n := |events| - 1;
      ViewIsAmended(events[..n], id);
      SoundPrefix(events, id);
      if CorrectionsSound(events[..n], id) {
        AmendedStep(events, id);
        if events[n].authorizationId == id && IsCorrection(events[n]) {
          BuiltShape(events);
          CorrectionTarget(events[..n], id, events[n]);
        }
      }
    }
  }

  /** Amending follows the steps of the derived view. */
  lemma AmendedStep(events: seq<Event>, id: string)
    requires Built(events) && events != []
    ensures var earlier, e := events[..|events| - 1], events[|events| - 1];
      var step := ViewStep(earlier, Amended(earlier, id), id, e);
      step.Some? ==> Amended(events, id) == step.value
  {
    var n := |events| - 1;
    var e, earlier := events[n], events[..n];
    var raw := LifecycleEvents(earlier, id);
    assert raw + [] == raw;
    if e.authorizationId == id && !IsCorrection(e) {
      FreshIsUncorrected(events, id);
      UncorrectedKeepsTime(earlier, id, e);
    } else if Corrects(e, id, e.correctsEventId) {
      LifecycleEventsDistinct(earlier, id);
    }
  }

  lemma CorrectionTarget(earlier: seq<Event>, id: string, c: Event)
    requires WellFormed(c) && c.authorizationId == id
    ensures Amends(c, earlier, Amended(earlier, id)) <==> CorrectionSound(earlier, id, c)
  {
    var raw, h := LifecycleEvents(earlier, id), Amended(earlier, id);
    LifecycleEventsStand(earlier, id);
    if PositionOf(h, c.correctsEventId).Some? {
      assert raw[PositionOf(h, c.correctsEventId).value] in earlier;
    }
    if j :| 0 <= j < |earlier| && earlier[j].authorizationId == id && !IsCorrection(earlier[j])
            && earlier[j].eventId == c.correctsEventId
    {
      assert earlier[j] in raw;
      var k :| 0 <= k < |raw| && raw[k] == earlier[j];
      assert h[k].eventId == c.correctsEventId;
    }
  }

  /** Replay looks at event types and conditions only. */
  lemma {:induction false} ReplayIgnoresTimes(h: seq<Event>, g: seq<Event>)
    requires |h| == |g|
    requires forall i :: 0 <= i < |h| ==>
      h[i].eventType == g[i].eventType && h[i].conditionsSatisfied == g[i].conditionsSatisfied
    ensures Replay(h) == Replay(g)
  {
    if h != [] {
      ReplayIgnoresTimes(h[..|h| - 1], g[..|g| - 1]);
    }
  }

  lemma AmendedReplays(events: seq<Event>, id: string, cutoff: Time)
    requires Built(events)
    ensures Replay(Amended(Known(events, cutoff), id)) == Replay(Recorded(events, id, cutoff))
  {
    RecordedIsLifecycleOfKnown(events, id, cutoff);
    ReplayIgnoresTimes(Amended(Known(events, cutoff), id), Recorded(events, id, cutoff));
  }

  /**
   * `EffectiveEvents` of a built journal fails only for an unsound correction or for amended times out of
   * order: its own replay check never refuses. When it succeeds it returns the corrected lifecycle, whose
   * final state is the one `Reconstruct` reports.
   */
  lemma EffectiveHistoryExactly(events: seq<Event>, id: string, cutoff: Time)
    requires Built(events) && id != "" && Canonical(cutoff)
    ensures var known := Known(events, cutoff);
      EffectiveHistory(events, id, cutoff) ==
      if CorrectionsSound(known, id) && Ordered(Amended(known, id)) then Some(Amended(known, id)) else None
    ensures EffectiveHistory(events, id, cutoff).Some? ==>
      Replay(EffectiveHistory(events, id, cutoff).value) == Reconstruction(events, id, cutoff)
  {
    BuiltPrefix(events, KnownCount(events, cutoff));
    ViewIsAmended(Known(events, cutoff), id);
    AmendedReplays(events, id, cutoff);
    ReconstructAlwaysSucceeds(events, id, cutoff);
  }

  // ---------------------------------------------------------------- later appends

  /** No later `Append` changes what either view says about an earlier cutoff. */
  lemma AppendKeepsThePast(events: seq<Event>, e: Event, id: string, cutoff: Time)
    requires Built(events) && Accepts(events, e) && cutoff < e.recordedAt
    ensures Reconstruction(events + [e], id, cutoff) == Reconstruction(events, id, cutoff)
    ensures EffectiveHistory(events + [e], id, cutoff) == EffectiveHistory(events, id, cutoff)
  {
    var longer := events + [e];
    assert longer[..|events|] == events;
    assert Recorded(events, id, cutoff) + [] == Recorded(events, id, cutoff);
    assert longer[..KnownCount(longer, cutoff)] == Known(events, cutoff);
  }

  /**
   * `Append` accepts corrections that no derived view can apply: another field, a correction of a correction,
   * or a second correction of one event. From then on every cutoff that sees it fails, whatever is appended later.
   */
  lemma UnsoundCorrectionIsPermanent(events: seq<Event>, later: seq<Event>, id: string, cutoff: Time)
    requires Built(later) && events <= later && events != []
    requires !CorrectionsSound(events, id) && events[|events| - 1].recordedAt <= cutoff
    ensures EffectiveHistory(later, id, cutoff).None?
  {
    assert later[..|events|] == events;
    BuiltPrefix(later, |events|);
    ViewIsAmended(events, id);
    BreakSelectsWhatContinueSelects(later, cutoff);
    assert later[|events| - 1] == events[|events| - 1];
    assert Known(later, cutoff)[..|events|] == events;
    ViewFailureSticks(Known(later, cutoff), |events|, id);
  }

  // ---------------------------------------------------------------- what Append accepts and what stays usable

  lemma {:induction false} KnownAll(events: seq<Event>, cutoff: Time)
    requires forall i :: 0 <= i < |events| ==> events[i].recordedAt <= cutoff
    ensures KnownCount(events, cutoff) == |events|
  {
    if events != [] {
      KnownAll(events[..|events| - 1], cutoff);
    }
  }

  lemma AllKnown(events: seq<Event>, e: Event, cutoff: Time)
    requires Built(events) && Accepts(events, e) && e.recordedAt <= cutoff
    ensures Known(events, cutoff) == events && Known(events + [e], cutoff) == events + [e]
  {
    BuiltShape(events);
    KnownAll(events, cutoff);
    assert (events + [e])[..|events|] == events;
  }

  lemma ViewExtends(events: seq<Event>, e: Event, id: string)
    requires View(events, id).Some?
    ensures View(events + [e], id) == ViewStep(events, View(events, id).value, id, e)
  {
    assert (events + [e])[..|events|] == events;
  }

  lemma BuiltAppend(events: seq<Event>, e: Event)
    requires Built(events) && Accepts(events, e)
    ensures Built(events + [e])
  {
    assert (events + [e])[..|events|] == events;
  }

  /**
   * When an authorization has an effective history, an event that `Append` accepts keeps it exactly under this condition:
   * a lifecycle event is in order after the last one; a correction names the field EffectiveAt and a lifecycle event that
   * no other correction amends, and leaves the events in order. `Append` checks none of this.
   */
  lemma AppendKeepsHistoryExactly(events: seq<Event>, e: Event, cutoff: Time)
    requires Built(events) && Accepts(events, e) && e.recordedAt <= cutoff && Canonical(cutoff)
    requires EffectiveHistory(events, e.authorizationId, cutoff).Some?
    ensures var id := e.authorizationId;
      var h := EffectiveHistory(events, id, cutoff).value;
      var p := PositionOf(h, e.correctsEventId);
      EffectiveHistory(events + [e], id, cutoff) ==
      if !IsCorrection(e) then
        if h == [] || Follows(h[|h| - 1], e) then Some(h + [e]) else None
      else if e.correctedField == "EffectiveAt" && p.Some? && e.correctsEventId !in CorrectedIds(events, id) &&
              Ordered(h[p.value := h[p.value].(effectiveAt := e.effectiveAt)]) then
        Some(h[p.value := h[p.value].(effectiveAt := e.effectiveAt)])
      else None
  {
    hide Accepts, Replay, Reconstruction, WellFormed;
    var id := e.authorizationId;
    AllKnown(events, e, cutoff);
    ViewExtends(events, e, id);
    BuiltAppend(events, e);
    WellFormedAppended(events, e);
    EffectiveHistoryExactly(events, id, cutoff);
    EffectiveHistoryExactly(events + [e], id, cutoff);
    ViewIsAmended(events + [e], id);
    var h := EffectiveHistory(events, id, cutoff).value;
    OrderedAppend(h, e);
  }

  lemma WellFormedAppended(events: seq<Event>, e: Event)
    requires Accepts(events, e)
    ensures Canonical(e.effectiveAt) && e.authorizationId != ""
  {
  }

  lemma OrderedAppend(h: seq<Event>, e: Event)
    ensures Ordered(h + [e]) <==> Ordered(h) && (h == [] || Follows(h[|h| - 1], e))
  {
    hide Follows;
    var longer := h + [e];
    if Ordered(longer) {
      forall i | 0 < i < |h| ensures Follows(h[i - 1], h[i]) {
        assert Follows(longer[i - 1], longer[i]);
      }
      if h != [] {
        assert Follows(longer[|h| - 1], longer[|h|]);
      }
    }
    if Ordered(h) && (h == [] || Follows(h[|h| - 1], e)) {
      forall i | 0 < i < |longer| ensures Follows(longer[i - 1], longer[i]) {
        assert i < |h| ==> Follows(h[i - 1], h[i]);
      }
    }
  }
}
