/**
 * The ids of grants: an authorization id, a colon and an event id, internal/authority/projection.go. Within one
 * authorization they are distinct; over a snapshot of several they need not be, because ids may hold colons themselves.
 */
module GrantIds {
  import opened Common
  import opened Lifecycle
  import opened Journal
  import opened Projection
  import opened AuthorityEvaluation
  import opened Refinement
  import opened Snapshot

  /** `b` goes on after `a` and a colon, and what it adds is where the event id `x` goes on before `y`. */
  predicate Splits(a: string, x: string, b: string, y: string) {
    a + ":" <= b && x == b[|a| + 1..] + ":" + y
  }

  /** Different pairs with one grant id. */
  predicate Ambiguous(a: string, x: string, b: string, y: string) {
    Splits(a, x, b, y) || Splits(b, y, a, x)
  }

  lemma SplitsCollide(a: string, x: string, b: string, y: string)
    requires Splits(a, x, b, y)
    ensures GrantId(a, x) == GrantId(b, y) && a != b
  {
    assert b == a + ":" + b[|a| + 1..];
  }

  lemma ShorterSplits(a: string, x: string, b: string, y: string)
    requires GrantId(a, x) == GrantId(b, y) && |a| < |b|
    ensures Splits(a, x, b, y)
  {
    var id := GrantId(a, x);
    assert id[..|a| + 1] == a + ":" && id[|a| + 1..] == x;
    assert id[..|b|] == b && id[..|b| + 1] == b + ":" && id[|b| + 1..] == y;
    assert b[..|a| + 1] == id[..|a| + 1];
    assert id[|a| + 1..] == id[|a| + 1..|b| + 1] + id[|b| + 1..];
    assert id[|a| + 1..|b| + 1] == (b + ":")[|a| + 1..];
  }

  /** Two grant ids are the same exactly when authorization and event are, or one authorization id continues the other. */
  lemma SameGrantId(a: string, x: string, b: string, y: string)
    ensures GrantId(a, x) == GrantId(b, y) <==> (a == b && x == y) || Ambiguous(a, x, b, y)
  {
    if Splits(a, x, b, y) {
      SplitsCollide(a, x, b, y);
    }
    if Splits(b, y, a, x) {
      SplitsCollide(b, y, a, x);
    }
    if GrantId(a, x) == GrantId(b, y) {
      if |a| < |b| {
        ShorterSplits(a, x, b, y);
      } else if |b| < |a| {
        ShorterSplits(b, y, a, x);
      } else {
        assert GrantId(a, x)[..|a|] == a && GrantId(b, y)[..|b|] == b;
        assert GrantId(a, x)[|a| + 1..] == x && GrantId(b, y)[|b| + 1..] == y;
      }
    }
  }

  // ---------------------------------------------------------------- over a snapshot

  /** The events of an entry that open an interval. */
  function Openings(v: EntryView, cutoff: Time): set<string> {
    set e | e in HistoryOf(v.record, v.events, cutoff) && Opener(e) :: e.eventId
  }

  /** No interval of one entry is named like one of another. */
  ghost predicate Unambiguous(entries: seq<EntryView>, cutoff: Time) {
    forall i, j :: 0 <= i < j < |entries| ==> Apart(entries[i], entries[j], cutoff)
  }

  ghost predicate Apart(v: EntryView, w: EntryView, cutoff: Time) {
    forall x, y :: x in Openings(v, cutoff) && y in Openings(w, cutoff) ==>
      !Ambiguous(v.record.authorizationId, x, w.record.authorizationId, y)
  }

  /** The ids of an entry's grants. */
  lemma EntryGrantIds(v: EntryView, cutoff: Time, id: string)
    requires Built(v.events) && ProjectedGrants(v.record, v.events, cutoff).Some?
    ensures (exists g :: g in ProjectedGrants(v.record, v.events, cutoff).value && g.grantId == id) <==>
      exists x :: x in Openings(v, cutoff) && id == GrantId(v.record.authorizationId, x)
  {
    var h := HistoryOf(v.record, v.events, cutoff);
    var gs := ProjectedGrants(v.record, v.events, cutoff).value;
    forall g | g in gs ensures exists x :: x in Openings(v, cutoff) && g.grantId == GrantId(v.record.authorizationId, x) {
      InIntervals(v.record, h, |h|, g);
      var i :| 0 <= i < |h| && Opener(h[i]) && g == IntervalGrant(v.record, h, i);
      assert h[i].eventId in Openings(v, cutoff);
    }
    forall x | x in Openings(v, cutoff) ensures exists g :: g in gs && g.grantId == GrantId(v.record.authorizationId, x) {
      var e :| e in h && Opener(e) && e.eventId == x;
      var i :| 0 <= i < |h| && h[i] == e;
      InIntervals(v.record, h, |h|, IntervalGrant(v.record, h, i));
    }
  }

  function IdsOf(gs: seq<Grant>): set<string> {
    set g | g in gs :: g.grantId
  }

  lemma DistinctAppend(a: seq<Grant>, b: seq<Grant>)
    ensures DistinctIds(a + b) <==> DistinctIds(a) && DistinctIds(b) && IdsOf(a) !! IdsOf(b)
  {
    if DistinctIds(a + b) {
      forall m, n | 0 <= m < n < |a| ensures a[m].grantId != a[n].grantId {
        assert (a + b)[m] == a[m] && (a + b)[n] == a[n];
      }
      forall m, n | 0 <= m < n < |b| ensures b[m].grantId != b[n].grantId {
        assert (a + b)[|a| + m] == b[m] && (a + b)[|a| + n] == b[n];
      }
      forall g, h | g in a && h in b ensures g.grantId != h.grantId {
        var m :| 0 <= m < |a| && a[m] == g;
        var n :| 0 <= n < |b| && b[n] == h;
        assert (a + b)[m] == g && (a + b)[|a| + n] == h;
      }
    }
    if DistinctIds(a) && DistinctIds(b) && IdsOf(a) !! IdsOf(b) {
      forall m, n | 0 <= m < n < |a + b| ensures (a + b)[m].grantId != (a + b)[n].grantId {
        if m < |a| <= n {
          assert a[m].grantId in IdsOf(a) && b[n - |a|].grantId in IdsOf(b);
        }
      }
    }
  }

  /** The ids two entries' grants have are disjoint exactly when the entries are apart. */
  lemma ApartExactly(v: EntryView, w: EntryView, cutoff: Time)
    requires Built(v.events) && ProjectedGrants(v.record, v.events, cutoff).Some?
    requires Built(w.events) && ProjectedGrants(w.record, w.events, cutoff).Some?
    requires v.record.authorizationId != w.record.authorizationId
    ensures var gs, hs := ProjectedGrants(v.record, v.events, cutoff).value, ProjectedGrants(w.record, w.events, cutoff).value;
      IdsOf(gs) !! IdsOf(hs) <==> Apart(v, w, cutoff)
  {
    hide Openings, ProjectedGrants, Ambiguous, GrantId;
    var gs, hs := ProjectedGrants(v.record, v.events, cutoff).value, ProjectedGrants(w.record, w.events, cutoff).value;
    var a, b := v.record.authorizationId, w.record.authorizationId;
    forall id
      ensures id in IdsOf(gs) <==> exists x :: x in Openings(v, cutoff) && id == GrantId(a, x)
      ensures id in IdsOf(hs) <==> exists y :: y in Openings(w, cutoff) && id == GrantId(b, y)
    {
      EntryGrantIds(v, cutoff, id);
      EntryGrantIds(w, cutoff, id);
    }
    forall x, y ensures GrantId(a, x) == GrantId(b, y) <==> Ambiguous(a, x, b, y) {
      SameGrantId(a, x, b, y);
    }
    if !(IdsOf(gs) !! IdsOf(hs)) {
      var id :| id in IdsOf(gs) && id in IdsOf(hs);
      var x :| x in Openings(v, cutoff) && id == GrantId(a, x);
      var y :| y in Openings(w, cutoff) && id == GrantId(b, y);
      assert Ambiguous(a, x, b, y);
    }
    if x, y :| x in Openings(v, cutoff) && y in Openings(w, cutoff) && Ambiguous(a, x, b, y) {
      assert GrantId(a, x) in IdsOf(gs) && GrantId(b, y) in IdsOf(hs);
    }
  }

  ghost predicate Projects(v: EntryView, cutoff: Time) {
    Built(v.events) && ProjectedGrants(v.record, v.events, cutoff).Some?
  }

  /** The ids before one entry are apart from its own exactly when each entry before it is. */
  lemma {:induction false} ApartFromAll(entries: seq<EntryView>, w: EntryView, cutoff: Time)
    requires forall v :: v in entries ==> Projects(v, cutoff) && v.record.authorizationId != w.record.authorizationId
    requires Projects(w, cutoff)
    ensures IdsOf(AllGrants(entries, cutoff)) !! IdsOf(ProjectedGrants(w.record, w.events, cutoff).value) <==>
      forall v :: v in entries ==> Apart(v, w, cutoff)
  {
    hide ProjectedGrants, Apart, IdsOf;
    if entries == [] {
      NoIds();
    } else {
      var n := |entries| - 1;
      var before, v := entries[..n], entries[n];
      assert entries == before + [v];
      ApartFromAll(before, w, cutoff);
      ApartExactly(v, w, cutoff);
      IdsTogether(AllGrants(before, cutoff), ProjectedGrants(v.record, v.events, cutoff).value);
    }
  }

  lemma NoIds()
    ensures IdsOf([]) == {}
  {
  }

  lemma IdsTogether(a: seq<Grant>, b: seq<Grant>)
    ensures IdsOf(a + b) == IdsOf(a) + IdsOf(b)
  {
  }

  /**
   * The grants of a snapshot have distinct ids exactly when no authorization id continues another one after a colon in such
   * a way that an event id of the other continues it in turn.
   */
  lemma {:induction false} DistinctOverSnapshot(entries: seq<EntryView>, cutoff: Time)
    requires SnapshotValid(entries, cutoff) && forall i :: 0 <= i < |entries| ==> Built(entries[i].events)
    ensures DistinctIds(AllGrants(entries, cutoff)) <==> Unambiguous(entries, cutoff)
  {
    hide ProjectedGrants, Apart, SnapshotValid, Unambiguous, DistinctIds, IdsOf, Built;
    if entries == [] {
      NothingAmbiguous(entries, cutoff);
    } else {
      var n := |entries| - 1;
      var before, w := entries[..n], entries[n];
      LastEntry(entries, cutoff);
      DistinctOverSnapshot(before, cutoff);
      ApartFromAll(before, w, cutoff);
      GrantsTileTime(w.record, w.events, cutoff);
      DistinctAppend(AllGrants(before, cutoff), ProjectedGrants(w.record, w.events, cutoff).value);
    }
  }

  /** A snapshot, apart from its last entry. */
  lemma LastEntry(entries: seq<EntryView>, cutoff: Time)
    requires entries != [] && SnapshotValid(entries, cutoff) && forall i :: 0 <= i < |entries| ==> Built(entries[i].events)
    ensures var before, w := entries[..|entries| - 1], entries[|entries| - 1];
      && SnapshotValid(before, cutoff) && Projects(w, cutoff)
      && (forall i :: 0 <= i < |before| ==> Built(before[i].events))
      && (forall v :: v in before ==> Projects(v, cutoff) && v.record.authorizationId != w.record.authorizationId)
      && (Unambiguous(entries, cutoff) <==> Unambiguous(before, cutoff) && forall v :: v in before ==> Apart(v, w, cutoff))
  {
    hide ProjectedGrants, Apart, EntryCoherent, Built;
    var n := |entries| - 1;
    assert forall i :: 0 <= i < n ==> entries[..n][i] == entries[i];
  }

  lemma NothingAmbiguous(entries: seq<EntryView>, cutoff: Time)
    requires entries == []
    ensures DistinctIds(AllGrants(entries, cutoff)) && Unambiguous(entries, cutoff)
  {
  }

  lemma SplitHasColon(a: string, x: string, b: string, y: string)
    requires Splits(a, x, b, y)
    ensures ':' in b
  {
    assert b[|a|] == (a + ":")[|a|];
  }

  /** In particular when no authorization id holds a colon. */
  lemma PlainIdsAreDistinct(entries: seq<EntryView>, cutoff: Time)
    requires SnapshotValid(entries, cutoff) && forall i :: 0 <= i < |entries| ==> Built(entries[i].events)
    requires forall i :: 0 <= i < |entries| ==> ':' !in entries[i].record.authorizationId
    ensures DistinctIds(AllGrants(entries, cutoff))
  {
    hide SnapshotValid, Openings;
    forall i, j | 0 <= i < j < |entries| ensures Apart(entries[i], entries[j], cutoff) {
      var a, b := entries[i].record.authorizationId, entries[j].record.authorizationId;
      forall x, y ensures !Ambiguous(a, x, b, y) {
        if Splits(a, x, b, y) {
          SplitHasColon(a, x, b, y);
        } else if Splits(b, y, a, x) {
          SplitHasColon(b, y, a, x);
        }
      }
    }
    DistinctOverSnapshot(entries, cutoff);
  }

  // ---------------------------------------------------------------- two authorizations with one grant id

  function EventOf(authorizationId: string, eventId: string, eventType: EventType): Event {
    Event(eventId, authorizationId, eventType, 1000, 1000, "maker", "evidence", true, "", "", "")
  }

  /** Submitted, approved and activated at once. */
  function Life(id: string, submitted: string, approved: string, activated: string): seq<Event> {
    [EventOf(id, submitted, Submit), EventOf(id, approved, Approve), EventOf(id, activated, Activate)]
  }

  function RecordOf(id: string): Record {
    Record(id, "issuer", "subject", "claim",
           Some(Adjudication("decision", id, "issuer", "subject", "claim", OutcomeApproved, "maker", "basis", "evidence", 1000, 1000)))
  }

  lemma LifeGrows(id: string, s: string, p: string, x: string)
    ensures var h := Life(id, s, p, x);
      h[..0] == [] && h[..1] == [h[0]] && h[..2] == [h[0], h[1]] && h[..1][..0] == [] && h[..2][..1] == h[..1] && h[..3] == h
  {
  }

  lemma LifeReplays(id: string, s: string, p: string, x: string)
    ensures var h := Life(id, s, p, x);
      && Replay(h[..1]) == Some(Pending) && Replay(h[..2]) == Some(Approved) && Replay(h) == Some(Active)
      && Recorded(h[..0], id, 1000) == h[..0] && Recorded(h[..1], id, 1000) == h[..1] && Recorded(h[..2], id, 1000) == h[..2]
  {
    LifeGrows(id, s, p, x);
    var h := Life(id, s, p, x);
    assert Replay(h[..1]) == Apply(Replay(h[..0]), h[0]);
    assert Replay(h[..2]) == Apply(Replay(h[..1]), h[1]);
    assert Replay(h) == Apply(Replay(h[..2]), h[2]);
    assert Recorded(h[..1], id, 1000) == Recorded(h[..0], id, 1000) + [h[0]];
    assert Recorded(h[..2], id, 1000) == Recorded(h[..1], id, 1000) + [h[1]];
  }

  lemma LifeIsBuilt(id: string, s: string, p: string, x: string)
    requires id != "" && s != "" && p != "" && x != "" && s != p && s != x && p != x
    ensures Built(Life(id, s, p, x))
  {
    LifeGrows(id, s, p, x);
    LifeReplays(id, s, p, x);
    var h := Life(id, s, p, x);
    hide Recorded, Replay;
    assert Replay(h[..0]) == Some(Requested) by {
      assert Replay([]) == Some(Requested) by { NothingReplays(); }
    }
    assert Accepts(h[..0], h[0]) && Accepts(h[..1], h[1]) && Accepts(h[..2], h[2]);
    assert Built(h[..1]);
    assert Built(h[..2]);
  }

  lemma NothingReplays()
    ensures Replay([]) == Some(Requested)
  {
  }

  lemma LifeIsEffective(id: string, s: string, p: string, x: string)
    requires id != ""
    ensures EffectiveHistory(Life(id, s, p, x), id, 1000) == Some(Life(id, s, p, x))
  {
    LifeGrows(id, s, p, x);
    LifeReplays(id, s, p, x);
    hide Recorded, Replay;
    var h := Life(id, s, p, x);
    assert KnownCount(h[..1], 1000) == 1 && KnownCount(h[..2], 1000) == 2 && KnownCount(h, 1000) == 3;
    assert [] + [h[0]] == h[..1] && h[..1] + [h[1]] == h[..2] && h[..2] + [h[2]] == h;
    assert View(h[..1], id) == Some(h[..1]) && View(h[..2], id) == Some(h[..2]) && View(h, id) == Some(h);
  }

  lemma LifeProjects(id: string, s: string, p: string, x: string)
    requires id != ""
    ensures ProjectedGrants(RecordOf(id), Life(id, s, p, x), 1000) ==
      Some([Grant(GrantId(id, x), "issuer", "claim", "subject", 1000, None, GrantActive)])
  {
    LifeIsEffective(id, s, p, x);
    hide EffectiveHistory;
    var h, r := Life(id, s, p, x), RecordOf(id);
    assert ApprovalMatches(h[1], r.adjudication.value);
    assert Intervals(r, h, 0) == [] && Intervals(r, h, 1) == [] && Intervals(r, h, 2) == [];
    assert Intervals(r, h, 3) == [IntervalGrant(r, h, 2)];
  }

  function OneLife(id: string, s: string, p: string, x: string): EntryView {
    EntryView(RecordOf(id), Life(id, s, p, x))
  }

  /** The snapshot of two authorizations, one with activation `x` and the other with `y`. */
  function TwoLives(a: string, x: string, b: string, y: string): seq<EntryView> {
    [OneLife(a, "submit", "approve", x), OneLife(b, "submit", "approve", y)]
  }

  predicate EventId(x: string) {
    x != "" && x != "submit" && x != "approve"
  }

  lemma TwoLivesProject(a: string, x: string, b: string, y: string)
    requires a != "" && b != "" && a != b && EventId(x) && EventId(y)
    ensures var entries := TwoLives(a, x, b, y);
      && SnapshotValid(entries, 1000) && (forall v :: v in entries ==> Built(v.events))
      && AllGrants(entries, 1000) ==
         [Grant(GrantId(a, x), "issuer", "claim", "subject", 1000, None, GrantActive),
          Grant(GrantId(b, y), "issuer", "claim", "subject", 1000, None, GrantActive)]
  {
    assert |"submit"| == 6 && |"approve"| == 7;
    LifeIsBuilt(a, "submit", "approve", x);
    LifeIsBuilt(b, "submit", "approve", y);
    LifeIsValid(a, "submit", "approve", x);
    LifeIsValid(b, "submit", "approve", y);
    hide OneLife, Built, ProjectedGrants, EntryValid, GrantId, SnapshotValid, AllGrants;
    TwoEntries(OneLife(a, "submit", "approve", x), OneLife(b, "submit", "approve", y), 1000);
  }

  /** Authorization "a" with event "b:c" and authorization "a:b" with event "c" both get the grant id "a:b:c". */
  lemma GrantIdsCollide()
    ensures var entries := TwoLives("a", "b:c", "a:b", "c");
      && SnapshotValid(entries, 1000) && (forall v :: v in entries ==> Built(v.events))
      && (var gs := AllGrants(entries, 1000); |gs| == 2 && gs[0].grantId == gs[1].grantId == "a:b:c" && !DistinctIds(gs))
  {
    assert |"a"| == 1 && |"a:b"| == 3 && |"b:c"| == 3 && |"c"| == 1 && |"submit"| == 6 && |"approve"| == 7;
    assert GrantId("a", "b:c") == "a:b:c" && GrantId("a:b", "c") == "a:b:c";
    hide TwoLives, Built, SnapshotValid, AllGrants, GrantId;
    TwoLivesProject("a", "b:c", "a:b", "c");
  }

  lemma LifeIsValid(id: string, s: string, p: string, x: string)
    requires id != ""
    ensures var v := OneLife(id, s, p, x);
      && EntryValid(v, 1000) && v.record.authorizationId == id && v.events == Life(id, s, p, x)
      && ProjectedGrants(v.record, v.events, 1000) == Some([Grant(GrantId(id, x), "issuer", "claim", "subject", 1000, None, GrantActive)])
  {
    hide ProjectedGrants;
    LifeProjects(id, s, p, x);
  }

  lemma TwoEntries(v: EntryView, w: EntryView, cutoff: Time)
    requires EntryValid(v, cutoff) && EntryValid(w, cutoff) && v.record.authorizationId != w.record.authorizationId
    ensures SnapshotValid([v, w], cutoff)
    ensures AllGrants([v, w], cutoff) ==
      ProjectedGrants(v.record, v.events, cutoff).value + ProjectedGrants(w.record, w.events, cutoff).value
  {
    hide EntryValid;
    ValidEntries(v, cutoff);
    ValidEntries(w, cutoff);
    hide ProjectedGrants;
    assert [v, w][..1] == [v] && [v][..0] == [];
    assert AllGrants([v], cutoff) == ProjectedGrants(v.record, v.events, cutoff).value;
  }

  lemma ValidEntries(v: EntryView, cutoff: Time)
    requires EntryValid(v, cutoff)
    ensures ProjectedGrants(v.record, v.events, cutoff).Some?
  {
  }
}
