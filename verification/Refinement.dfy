/** The grant list is a fast form of a simple thing: the lifecycle state at an instant. */
module Refinement {
  import opened Common
  import opened Lifecycle
  import opened Journal
  import opened JournalReplay
  import opened Projection
  import opened AuthorityEvaluation

  // ---------------------------------------------------------------- the simple form

  /** The events already in effect at an instant. */
  function EffectiveBy(h: seq<Event>, t: Time): seq<Event> {
    if h == [] then []
    else
      EffectiveBy(h[..|h| - 1], t) + if h[|h| - 1].effectiveAt <= t then [h[|h| - 1]] else []
  }

  /** The lifecycle state at an instant: the replay of what is in effect by then. */
  function StateAt(h: seq<Event>, t: Time): Option<State> {
    Replay(EffectiveBy(h, t))
  }

  /** What `EffectiveEvents` guarantees of the histories it returns. */
  ghost predicate ValidHistory(h: seq<Event>) {
    && Ordered(h) && Replay(h).Some?
    && (forall i :: 0 <= i < |h| ==> Canonical(h[i].effectiveAt))
    && (forall i, j :: 0 <= i < j < |h| ==> h[i].eventId != h[j].eventId)
  }

  /** `t` and the last nanosecond of its microsecond, or of the one that starts within it. */
  const LAST_NANOSECOND: int := MICROSECOND - 1

  // ---------------------------------------------------------------- histories are prefixes in time

  lemma {:induction false} OrderedIsSorted(h: seq<Event>, i: nat, j: nat)
    requires Ordered(h) && i <= j < |h|
    ensures h[i].effectiveAt <= h[j].effectiveAt
  {
    if i < j {
      OrderedIsSorted(h, i, j - 1);
      assert Follows(h[j - 1], h[j]);
    }
  }

  lemma {:induction false} AllElapsed(h: seq<Event>, t: Time)
    requires forall i :: 0 <= i < |h| ==> h[i].effectiveAt <= t
    ensures EffectiveBy(h, t) == h
  {
    if h != [] {
      AllElapsed(h[..|h| - 1], t);
    }
  }

  lemma OrderedPrefix(h: seq<Event>, k: nat)
    requires Ordered(h) && k <= |h|
    ensures Ordered(h[..k])
  {
  }

  lemma {:induction false} EffectiveByIsPrefix(h: seq<Event>, t: Time)
    requires Ordered(h)
    ensures var n := |EffectiveBy(h, t)|;
      n <= |h| && EffectiveBy(h, t) == h[..n] && forall i :: 0 <= i < |h| ==> (i < n <==> h[i].effectiveAt <= t)
  {
    if h != [] {
      var m := |h| - 1;
      if h[m].effectiveAt <= t {
        forall i | 0 <= i < |h| ensures h[i].effectiveAt <= t {
          OrderedIsSorted(h, i, m);
        }
        AllElapsed(h, t);
      } else {
        OrderedPrefix(h, m);
        EffectiveByIsPrefix(h[..m], t);
        assert EffectiveBy(h, t) == EffectiveBy(h[..m], t);
        assert forall i :: 0 <= i < m ==> h[..m][i] == h[i];
      }
    }
  }

  lemma {:induction false} EffectiveByGrows(h: seq<Event>, t: Time, u: Time)
    requires t <= u
    ensures |EffectiveBy(h, t)| <= |EffectiveBy(h, u)|
  {
    if h != [] {
      EffectiveByGrows(h[..|h| - 1], t, u);
    }
  }

  lemma StateShows(h: seq<Event>, k: nat)
    requires Replay(h).Some? && k <= |h|
    ensures Replay(h[..k]).Some? && Shows(Replay(h[..k]).value, h, k)
  {
    if k > 0 {
      ReplayPrefix(h, k - 1);
      var before, after := Replay(h[..k - 1]), Replay(h[..k]);
      assert after == Apply(before, h[k - 1]) && before == Some(before.value);
      ShowsNext(before.value, h, k - 1);
    }
  }

  lemma StateAtDefined(h: seq<Event>, t: Time)
    requires ValidHistory(h)
    ensures StateAt(h, t).Some?
  {
    EffectiveByIsPrefix(h, t);
    ReplayPrefix(h, |EffectiveBy(h, t)|);
  }

  lemma {:induction false} InIntervals(r: Record, h: seq<Event>, k: nat, g: Grant)
    requires k <= |h|
    ensures g in Intervals(r, h, k) <==> exists i :: 0 <= i < k && Opener(h[i]) && g == IntervalGrant(r, h, i)
  {
    if k > 0 {
      InIntervals(r, h, k - 1, g);
    }
  }

  // ---------------------------------------------------------------- one grant is current

  lemma OneCanonicalPerMicrosecond(a: Time, b: Time, t: Time)
    requires Canonical(a) && Canonical(b)
    requires t < a <= t + LAST_NANOSECOND && t < b <= t + LAST_NANOSECOND
    ensures a == b
  {
  }

  /** Within one microsecond at most one event follows an interval-opening one, and it changes the state. */
  lemma StableUpToNextEvent(h: seq<Event>, n: nat, m: nat, t: Time)
    requires ValidHistory(h) && n <= m <= |h|
    requires forall i :: n <= i < m ==> t < h[i].effectiveAt <= t + LAST_NANOSECOND
    requires Replay(h[..n]).Some? && Replay(h[..n]).value in {Active, Suspended, Revoked}
    requires Replay(h[..m]) == Replay(h[..n])
    ensures n == m
  {
    if n < m {
      ReplayPrefix(h, n);
      if n + 1 < m {
        OneCanonicalPerMicrosecond(h[n].effectiveAt, h[n + 1].effectiveAt, t);
        assert Follows(h[n], h[n + 1]);
        ReplayPrefix(h, n + 1);
        assert false;
      }
    }
  }

  /** Event `i` has opened the interval that `t` falls in. */
  ghost predicate OpenAt(h: seq<Event>, i: nat, t: Time) {
    i < |h| && Opener(h[i]) && h[i].effectiveAt <= t && (i + 1 < |h| ==> t + MICROSECOND <= h[i + 1].effectiveAt)
  }

  lemma OpenAtGivesState(h: seq<Event>, i: nat, t: Time)
    requires ValidHistory(h) && OpenAt(h, i, t)
    ensures StateAt(h, t) == StateAt(h, t + LAST_NANOSECOND) == Replay(h[..i + 1])
    ensures Replay(h[..i + 1]).Some? && Shows(Replay(h[..i + 1]).value, h, i + 1)
  {
    EffectiveByIsPrefix(h, t);
    EffectiveByIsPrefix(h, t + LAST_NANOSECOND);
    StateShows(h, i + 1);
  }

  lemma StateGivesOpenAt(h: seq<Event>, t: Time) returns (i: nat)
    requires ValidHistory(h)
    requires StateAt(h, t) == StateAt(h, t + LAST_NANOSECOND)
    requires StateAt(h, t) in {Some(Active), Some(Suspended), Some(Revoked)}
    ensures OpenAt(h, i, t) && StateAt(h, t) == Replay(h[..i + 1]) && Shows(StateAt(h, t).value, h, i + 1)
  {
    EffectiveByIsPrefix(h, t);
    EffectiveByIsPrefix(h, t + LAST_NANOSECOND);
    var n, m := |EffectiveBy(h, t)|, |EffectiveBy(h, t + LAST_NANOSECOND)|;
    StateShows(h, n);
    EffectiveByGrows(h, t, t + LAST_NANOSECOND);
    StableUpToNextEvent(h, n, m, t);
    i := n - 1;
  }

  /**
   * Some active grant is current at `t` exactly when the lifecycle is ACTIVE at `t` and through the rest of its
   * microsecond; likewise for inactive grants and SUSPENDED or REVOKED.
   */
  lemma GrantsRefineState(r: Record, h: seq<Event>, t: Time)
    requires ValidHistory(h)
    ensures var gs := Intervals(r, h, |h|);
      && ((exists g :: g in gs && Current(g, t) && g.state == GrantActive) <==>
            StateAt(h, t) == Some(Active) && StateAt(h, t + LAST_NANOSECOND) == Some(Active))
      && ((exists g :: g in gs && Current(g, t) && g.state == GrantInactive) <==>
            StateAt(h, t) in {Some(Suspended), Some(Revoked)} && StateAt(h, t + LAST_NANOSECOND) == StateAt(h, t))
  {
    var gs := Intervals(r, h, |h|);
    forall g | g in gs && Current(g, t)
      ensures StateAt(h, t) == StateAt(h, t + LAST_NANOSECOND)
      ensures g.state == GrantActive ==> StateAt(h, t) == Some(Active)
      ensures g.state == GrantInactive ==> StateAt(h, t) in {Some(Suspended), Some(Revoked)}
    {
      InIntervals(r, h, |h|, g);
      var i :| 0 <= i < |h| && Opener(h[i]) && g == IntervalGrant(r, h, i);
      OpenAtGivesState(h, i, t);
    }
    if StateAt(h, t) == StateAt(h, t + LAST_NANOSECOND) &&
       StateAt(h, t) in {Some(Active), Some(Suspended), Some(Revoked)}
    {
      var i := StateGivesOpenAt(h, t);
      var g := IntervalGrant(r, h, i);
      InIntervals(r, h, |h|, g);
      assert g in gs && Current(g, t);
    }
  }

  /** Within one microsecond starting at an aligned instant nothing happens. */
  lemma {:induction false} AlignedStateLasts(h: seq<Event>, t: Time)
    requires t % MICROSECOND == 0 && forall i :: 0 <= i < |h| ==> Canonical(h[i].effectiveAt)
    ensures EffectiveBy(h, t + LAST_NANOSECOND) == EffectiveBy(h, t)
  {
    if h != [] {
      AlignedStateLasts(h[..|h| - 1], t);
    }
  }

  // ---------------------------------------------------------------- the refinement theorem

  predicate InScope(evidence: Evidence, r: Record) {
    r.issuerId == evidence.issuerId && r.claimType == evidence.claimType && r.subjectId == evidence.employerId
  }

  lemma {:induction false} IntervalsInScope(r: Record, h: seq<Event>, k: nat, evidence: Evidence)
    requires k <= |h|
    ensures forall g :: g in Intervals(r, h, k) ==> (MatchesScope(evidence, g) <==> InScope(evidence, r))
  {
    if k > 0 {
      IntervalsInScope(r, h, k - 1, evidence);
    }
  }

  /** The history a successful projection was computed from. */
  function HistoryOf(r: Record, events: seq<Event>, cutoff: Time): seq<Event> {
    var h := EffectiveHistory(events, r.authorizationId, cutoff);
    if h.Some? then h.value else []
  }

  lemma ProjectedHistoryValid(r: Record, events: seq<Event>, cutoff: Time)
    requires Built(events) && ProjectedGrants(r, events, cutoff).Some?
    ensures var h := HistoryOf(r, events, cutoff);
      ValidHistory(h) && ProjectedGrants(r, events, cutoff) == Some(Intervals(r, h, |h|))
  {
    HistoryShape(events, r.authorizationId, cutoff);
  }

  /**
   * For every journal, cutoff and successful projection, and at every instant: AUTHORIZED exactly when the effective
   * events lead to ACTIVE throughout the instant's microsecond, UNAUTHORIZED exactly when they lead to one and the same
   * of SUSPENDED and REVOKED, and REVIEW otherwise.
   */
  lemma DecisionRefinesLifecycle(r: Record, events: seq<Event>, cutoff: Time, evidence: Evidence, t: Time)
    requires Built(events) && ProjectedGrants(r, events, cutoff).Some? && InScope(evidence, r)
    ensures var h := HistoryOf(r, events, cutoff);
      var d := Evaluated(evidence, ProjectedGrants(r, events, cutoff).value, t).decision;
      && (d == Authorized <==> StateAt(h, t) == Some(Active) && StateAt(h, t + LAST_NANOSECOND) == Some(Active))
      && (d == Unauthorized <==>
            StateAt(h, t) in {Some(Suspended), Some(Revoked)} && StateAt(h, t + LAST_NANOSECOND) == StateAt(h, t))
  {
    ProjectedHistoryValid(r, events, cutoff);
    var h := HistoryOf(r, events, cutoff);
    var gs := Intervals(r, h, |h|);
    GrantsRefineState(r, h, t);
    IntervalsInScope(r, h, |h|, evidence);
    assert forall g, s :: g in gs ==> (Backs(evidence, g, t, s) <==> Current(g, t) && g.state == s);
  }

  /** At microsecond-aligned instants the decision is a function of the lifecycle state alone. */
  lemma AlignedDecisionRefinesLifecycle(r: Record, events: seq<Event>, cutoff: Time, evidence: Evidence, t: Time)
    requires Built(events) && ProjectedGrants(r, events, cutoff).Some? && InScope(evidence, r)
    requires t % MICROSECOND == 0
    ensures StateAt(HistoryOf(r, events, cutoff), t).Some?
    ensures Evaluated(evidence, ProjectedGrants(r, events, cutoff).value, t).decision ==
      match StateAt(HistoryOf(r, events, cutoff), t).value {
        case Active => Authorized
        case Suspended => Unauthorized
        case Revoked => Unauthorized
        case _ => Review
      }
  {
    ProjectedHistoryValid(r, events, cutoff);
    AlignedStateLasts(HistoryOf(r, events, cutoff), t);
    StateAtDefined(HistoryOf(r, events, cutoff), t);
    DecisionRefinesLifecycle(r, events, cutoff, evidence, t);
  }

  // ---------------------------------------------------------------- grants tile time

  /** ACTIVATE has happened exactly in the four later states, EXPIRE exactly in EXPIRED. */
  lemma {:induction false} StateTells(h: seq<Event>)
    requires Replay(h).Some?
    ensures (exists e :: e in h && e.eventType == Activate) <==> Replay(h).value in {Active, Suspended, Revoked, Expired}
    ensures (exists e :: e in h && e.eventType == Expire) <==> Replay(h).value == Expired
    ensures (exists e :: e in h && Opener(e)) ==> Replay(h).value in {Active, Suspended, Revoked, Expired}
  {
    if h != [] {
      StateTells(h[..|h| - 1]);
      assert h == h[..|h| - 1] + [h[|h| - 1]];
    }
  }

  /** Once an interval has opened, the next one opens at the very event that closes it. */
  lemma OpenersAreConsecutive(h: seq<Event>, i: nat, k: nat)
    requires Replay(h).Some? && i < k < |h| && Opener(h[i])
    ensures Opener(h[k - 1])
  {
    ReplayPrefix(h, k);
    StateShows(h, k);
    assert h[..k][i] == h[i];
    StateTells(h[..k]);
  }

  predicate NonEmpty(g: Grant) {
    g.validUntil.Some? ==> g.validFrom <= g.validUntil.value
  }

  predicate Adjacent(g: Grant, next: Grant) {
    g.validUntil == Some(next.validFrom - MICROSECOND)
  }

  lemma IntervalNonEmpty(r: Record, h: seq<Event>, i: nat)
    requires ValidHistory(h) && i < |h| && Opener(h[i])
    ensures NonEmpty(IntervalGrant(r, h, i))
  {
    if i + 1 < |h| {
      assert Follows(h[i], h[i + 1]);
    }
  }

  lemma LastOpenedJustBefore(r: Record, h: seq<Event>, k: nat)
    requires ValidHistory(h) && k < |h| && Intervals(r, h, k) != []
    ensures k > 0 && Opener(h[k - 1])
  {
    var g := Intervals(r, h, k)[0];
    InIntervals(r, h, k, g);
    var i :| 0 <= i < k && Opener(h[i]) && g == IntervalGrant(r, h, i);
    OpenersAreConsecutive(h, i, k);
  }

  predicate Tiled(gs: seq<Grant>) {
    && (forall g :: g in gs ==> NonEmpty(g))
    && (forall m :: 0 < m < |gs| ==> Adjacent(gs[m - 1], gs[m]))
  }

  predicate DistinctIds(gs: seq<Grant>) {
    forall m, n :: 0 <= m < n < |gs| ==> gs[m].grantId != gs[n].grantId
  }

  lemma {:induction false} IntervalsTile(r: Record, h: seq<Event>, k: nat)
    requires ValidHistory(h) && k <= |h|
    ensures var gs := Intervals(r, h, k);
      Tiled(gs) && (k > 0 && Opener(h[k - 1]) ==> gs != [] && gs[|gs| - 1] == IntervalGrant(r, h, k - 1))
  {
    if k > 0 {
      IntervalsTile(r, h, k - 1);
      var before := Intervals(r, h, k - 1);
      if Opener(h[k - 1]) {
        IntervalNonEmpty(r, h, k - 1);
        if before != [] {
          LastOpenedJustBefore(r, h, k - 1);
        }
        TiledAppend(before, IntervalGrant(r, h, k - 1));
      } else {
        assert Intervals(r, h, k) == before;
      }
    }
  }

  lemma TiledAppend(gs: seq<Grant>, g: Grant)
    requires Tiled(gs) && NonEmpty(g) && (gs != [] ==> Adjacent(gs[|gs| - 1], g))
    ensures Tiled(gs + [g])
  {
  }

  lemma {:induction false} IntervalIdsDistinct(r: Record, h: seq<Event>, k: nat)
    requires ValidHistory(h) && k <= |h|
    ensures DistinctIds(Intervals(r, h, k))
  {
    if k > 0 {
      IntervalIdsDistinct(r, h, k - 1);
      var before := Intervals(r, h, k - 1);
      if Opener(h[k - 1]) {
        forall m | 0 <= m < |before| ensures before[m].grantId != IntervalGrant(r, h, k - 1).grantId {
          InIntervals(r, h, k - 1, before[m]);
          var i :| 0 <= i < k - 1 && Opener(h[i]) && before[m] == IntervalGrant(r, h, i);
          IdsDiffer(r.authorizationId + ":", h[i].eventId, h[k - 1].eventId);
        }
        assert Intervals(r, h, k) == before + [IntervalGrant(r, h, k - 1)];
      } else {
        assert Intervals(r, h, k) == before;
      }
    }
  }

  lemma IdsDiffer(prefix: string, a: string, b: string)
    requires a != b
    ensures prefix + a != prefix + b
  {
    assert (prefix + a)[|prefix|..] == a && (prefix + b)[|prefix|..] == b;
  }

  /**
   * The grants of one authorization are in order, non-empty, exactly adjacent and distinctly named, and at aligned
   * instants they cover exactly the time from activation on, up to expiry.
   */
  lemma GrantsTileTime(r: Record, events: seq<Event>, cutoff: Time)
    requires Built(events) && ProjectedGrants(r, events, cutoff).Some?
    ensures var gs, h := ProjectedGrants(r, events, cutoff).value, HistoryOf(r, events, cutoff);
      && Tiled(gs) && DistinctIds(gs)
      && (forall t :: t % MICROSECOND == 0 ==>
            ((exists g :: g in gs && Current(g, t)) <==>
              (exists e :: e in h && e.eventType == Activate && e.effectiveAt <= t) &&
              !(exists e :: e in h && e.eventType == Expire && e.effectiveAt <= t)))
  {
    ProjectedHistoryValid(r, events, cutoff);
    var h := HistoryOf(r, events, cutoff);
    IntervalsTile(r, h, |h|);
    IntervalIdsDistinct(r, h, |h|);
    forall t | t % MICROSECOND == 0
      ensures (exists g :: g in Intervals(r, h, |h|) && Current(g, t)) <==>
        (exists e :: e in h && e.eventType == Activate && e.effectiveAt <= t) &&
        !(exists e :: e in h && e.eventType == Expire && e.effectiveAt <= t)
    {
      CoveredSinceActivation(r, h, t);
    }
  }

  lemma CoveredSinceActivation(r: Record, h: seq<Event>, t: Time)
    requires ValidHistory(h) && t % MICROSECOND == 0
    ensures (exists g :: g in Intervals(r, h, |h|) && Current(g, t)) <==>
      (exists e :: e in h && e.eventType == Activate && e.effectiveAt <= t) &&
      !(exists e :: e in h && e.eventType == Expire && e.effectiveAt <= t)
  {
    GrantsRefineState(r, h, t);
    AlignedStateLasts(h, t);
    StateAtDefined(h, t);
    StateTells(EffectiveBy(h, t));
    forall e ensures e in EffectiveBy(h, t) <==> e in h && e.effectiveAt <= t {
      InEffectiveBy(h, t, e);
    }
    forall g | g in Intervals(r, h, |h|) ensures g.state in {GrantActive, GrantInactive} {
      InIntervals(r, h, |h|, g);
    }
  }

  lemma {:induction false} InEffectiveBy(h: seq<Event>, t: Time, e: Event)
    ensures e in EffectiveBy(h, t) <==> e in h && e.effectiveAt <= t
  {
    if h != [] {
      InEffectiveBy(h[..|h| - 1], t, e);
      assert h == h[..|h| - 1] + [h[|h| - 1]];
    }
  }

  // ---------------------------------------------------------------- change is local in time

  lemma {:induction false} SameElapsed(h: seq<Event>, g: seq<Event>, t: Time)
    requires |h| == |g|
    requires forall i :: 0 <= i < |h| ==>
      && h[i].eventType == g[i].eventType && h[i].conditionsSatisfied == g[i].conditionsSatisfied
      && (h[i].effectiveAt <= t <==> g[i].effectiveAt <= t)
    ensures |EffectiveBy(h, t)| == |EffectiveBy(g, t)| && StateAt(h, t) == StateAt(g, t)
  {
    if h != [] {
      var n := |h| - 1;
      SameElapsed(h[..n], g[..n], t);
      if h[n].effectiveAt <= t {
        ReplayStep(EffectiveBy(h[..n], t), h[n]);
        ReplayStep(EffectiveBy(g[..n], t), g[n]);
      } else {
        assert EffectiveBy(h, t) == EffectiveBy(h[..n], t) && EffectiveBy(g, t) == EffectiveBy(g[..n], t);
      }
    }
  }

  lemma AppendedHistory(r: Record, events: seq<Event>, e: Event, cutoff: Time)
    requires Built(events) && Accepts(events, e) && e.authorizationId == r.authorizationId && e.recordedAt <= cutoff
    requires ProjectedGrants(r, events, cutoff).Some? && ProjectedGrants(r, events + [e], cutoff).Some?
    ensures var before, after := HistoryOf(r, events, cutoff), HistoryOf(r, events + [e], cutoff);
      ViewStep(events, before, r.authorizationId, e) == Some(after)
  {
    AllKnown(events, e, cutoff);
    ViewExtends(events, e, r.authorizationId);
  }

  /** Appending a lifecycle event changes no decision at an aligned instant before it takes effect. */
  lemma AppendIsLocal(r: Record, events: seq<Event>, e: Event, cutoff: Time, evidence: Evidence, t: Time)
    requires Built(events) && Accepts(events, e) && e.authorizationId == r.authorizationId && e.recordedAt <= cutoff
    requires ProjectedGrants(r, events, cutoff).Some? && ProjectedGrants(r, events + [e], cutoff).Some?
    requires !IsCorrection(e) && InScope(evidence, r) && t % MICROSECOND == 0 && t < e.effectiveAt
    ensures Evaluated(evidence, ProjectedGrants(r, events + [e], cutoff).value, t).decision ==
            Evaluated(evidence, ProjectedGrants(r, events, cutoff).value, t).decision
  {
    AppendedHistory(r, events, e, cutoff);
    ExtendedStateAt(HistoryOf(r, events, cutoff), e, t);
    BuiltAppend(events, e);
    AlignedDecisionRefinesLifecycle(r, events, cutoff, evidence, t);
    AlignedDecisionRefinesLifecycle(r, events + [e], cutoff, evidence, t);
  }

  lemma ExtendedStateAt(h: seq<Event>, e: Event, t: Time)
    requires t < e.effectiveAt
    ensures StateAt(h + [e], t) == StateAt(h, t)
  {
    assert (h + [e])[..|h|] == h;
    assert EffectiveBy(h + [e], t) == EffectiveBy(h, t);
  }

  /**
   * A correction that moves an event from one time to another keeps every grant id and state, and changes decisions
   * only from the earlier of the two times up to the later one.
   */
  lemma CorrectionIsLocal(r: Record, events: seq<Event>, c: Event, cutoff: Time, evidence: Evidence, t: Time)
    requires Built(events) && Accepts(events, c) && c.authorizationId == r.authorizationId && c.recordedAt <= cutoff
    requires ProjectedGrants(r, events, cutoff).Some? && ProjectedGrants(r, events + [c], cutoff).Some?
    requires IsCorrection(c) && InScope(evidence, r) && t % MICROSECOND == 0
    ensures PositionOf(HistoryOf(r, events, cutoff), c.correctsEventId).Some?
    ensures var before, after := ProjectedGrants(r, events, cutoff).value, ProjectedGrants(r, events + [c], cutoff).value;
      |after| == |before| &&
      forall k :: 0 <= k < |before| ==> after[k].grantId == before[k].grantId && after[k].state == before[k].state
    ensures var h := HistoryOf(r, events, cutoff);
      var from := h[PositionOf(h, c.correctsEventId).value].effectiveAt;
      (t < from && t < c.effectiveAt) || (t >= from && t >= c.effectiveAt) ==>
      Evaluated(evidence, ProjectedGrants(r, events + [c], cutoff).value, t).decision ==
      Evaluated(evidence, ProjectedGrants(r, events, cutoff).value, t).decision
  {
    AppendedHistory(r, events, c, cutoff);
    var before, after := HistoryOf(r, events, cutoff), HistoryOf(r, events + [c], cutoff);
    var p := PositionOf(before, c.correctsEventId).value;
    var from := before[p].effectiveAt;
    BuiltAppend(events, c);
    SameEventsSameIds(r, before, after, |before|);
    if (t < from && t < c.effectiveAt) || (t >= from && t >= c.effectiveAt) {
      SameElapsed(before, after, t);
      AlignedDecisionRefinesLifecycle(r, events, cutoff, evidence, t);
      AlignedDecisionRefinesLifecycle(r, events + [c], cutoff, evidence, t);
    }
  }

  lemma {:induction false} SameEventsSameIds(r: Record, h: seq<Event>, g: seq<Event>, k: nat)
    requires k <= |h| == |g|
    requires forall i :: 0 <= i < |h| ==> h[i].eventType == g[i].eventType && h[i].eventId == g[i].eventId
    ensures var a, b := Intervals(r, h, k), Intervals(r, g, k);
      |a| == |b| && forall m :: 0 <= m < |a| ==> a[m].grantId == b[m].grantId && a[m].state == b[m].state
  {
    if k > 0 {
      SameEventsSameIds(r, h, g, k - 1);
    }
  }
}
