/** The snapshot resolver of internal/authority/snapshot_resolver.go. */
module Snapshot {
  import opened Common
  import opened Lifecycle
  import opened Journal
  import opened Projection
  import opened AuthorityEvaluation
  import opened Refinement

  /** `AuthoritySnapshotEntry`: an authorization record and its journal. */
  datatype Entry = Entry(record: Record, journal: AuthorizationJournal)

  /** An entry with the journal's contents in place of the journal. */
  datatype EntryView = EntryView(record: Record, events: seq<Event>)

  ghost function Views(entries: seq<Entry>): (vs: seq<EntryView>)
    reads set e | e in entries :: e.journal
    ensures |vs| == |entries|
    ensures forall i :: 0 <= i < |entries| ==> vs[i] == EntryView(entries[i].record, entries[i].journal.events)
  {
    if entries == [] then []
    else
      var e := entries[|entries| - 1];
      Views(entries[..|entries| - 1]) + [EntryView(e.record, e.journal.events)]
  }

  // ---------------------------------------------------------------- what a resolver holds

  predicate EntryCoherent(v: EntryView, recordedThrough: Time) {
    forall e :: e in v.events ==>
      e.authorizationId == v.record.authorizationId && Canonical(e.recordedAt) && e.recordedAt <= recordedThrough
  }

  /** Every entry is coherent and projects, and no authorization appears twice. */
  predicate SnapshotValid(entries: seq<EntryView>, recordedThrough: Time) {
    && (forall i :: 0 <= i < |entries| ==> EntryValid(entries[i], recordedThrough))
    && (forall i, j :: 0 <= i < j < |entries| ==>
          entries[i].record.authorizationId != entries[j].record.authorizationId)
  }

  function Ids(entries: seq<EntryView>): set<string> {
    set v | v in entries :: v.record.authorizationId
  }

  predicate EntryValid(v: EntryView, recordedThrough: Time) {
    && v.record.authorizationId != "" && EntryCoherent(v, recordedThrough)
    && ProjectedGrants(v.record, v.events, recordedThrough).Some?
  }

  /** What one more entry needs, what it contributes, and that a snapshot is only valid if each of its prefixes is. */
  lemma ValidStep(entries: seq<EntryView>, i: nat, recordedThrough: Time)
    requires i < |entries| && SnapshotValid(entries[..i], recordedThrough)
    ensures var v := entries[i];
      var ok := EntryValid(v, recordedThrough) && v.record.authorizationId !in Ids(entries[..i]);
      && (SnapshotValid(entries[..i + 1], recordedThrough) <==> ok)
      && (!ok ==> !SnapshotValid(entries, recordedThrough))
      && Ids(entries[..i + 1]) == Ids(entries[..i]) + {v.record.authorizationId}
      && (ok ==>
            AllGrants(entries[..i + 1], recordedThrough) ==
            AllGrants(entries[..i], recordedThrough) + ProjectedGrants(v.record, v.events, recordedThrough).value)
  {
    var before, after := entries[..i], entries[..i + 1];
    assert after == before + [entries[i]] && after[..i] == before;
    assert forall k :: 0 <= k < i ==> before[k] == entries[k];
    if entries[i].record.authorizationId in Ids(before) {
      var k :| 0 <= k < i && before[k].record.authorizationId == entries[i].record.authorizationId;
      assert after[k] == before[k] && after[i] == entries[i];
    }
    assert after[i] == entries[i];
  }

  /** The grants of all entries, in entry order. */
  function AllGrants(entries: seq<EntryView>, recordedThrough: Time): seq<Grant> {
    if entries == [] then []
    else
      var v := entries[|entries| - 1];
      var projected := ProjectedGrants(v.record, v.events, recordedThrough);
      AllGrants(entries[..|entries| - 1], recordedThrough) + if projected.Some? then projected.value else []
  }

  /** The grants in a list with a given issuer and claim type. */
  function Applicable(grants: seq<Grant>, issuerId: string, claimType: string): (r: seq<Grant>)
    ensures forall g :: g in r <==> g in grants && g.issuerId == issuerId && g.claimType == claimType
  {
    if grants == [] then []
    else
      var g := grants[|grants| - 1];
      assert grants == grants[..|grants| - 1] + [g];
      Applicable(grants[..|grants| - 1], issuerId, claimType) +
      if g.issuerId == issuerId && g.claimType == claimType then [g] else []
  }

  // ---------------------------------------------------------------- the resolver

  class SnapshotAuthorityResolver {
    const grants: seq<Grant>

    constructor (grants: seq<Grant>)
      ensures this.grants == grants
    {
      this.grants := grants;
    }
  }

  /** `NewSnapshotAuthorityResolver`: all entries or nothing. */
  method NewSnapshotAuthorityResolver(complete: bool, recordedThrough: Time, entries: seq<Entry>)
    returns (r: SnapshotAuthorityResolver?)
    requires forall e :: e in entries ==> e.journal.Valid()
    ensures r != null <==> complete && Canonical(recordedThrough) && SnapshotValid(Views(entries), recordedThrough)
    ensures r != null ==> fresh(r) && r.grants == AllGrants(Views(entries), recordedThrough)
  {
    if !complete || !Canonical(recordedThrough) {
      return null;
    }
    if |entries| == 0 {
      r := new SnapshotAuthorityResolver([]);
      return;
    }
    ghost var views := Views(entries);
    var seen: set<string> := {};
    var grants: seq<Grant> := [];
    for i := 0 to |entries|
      invariant SnapshotValid(views[..i], recordedThrough)
      invariant seen == Ids(views[..i])
      invariant grants == AllGrants(views[..i], recordedThrough)
    {
      var entry := entries[i];
      var id := entry.record.authorizationId;
      ValidStep(views, i, recordedThrough);
      if id == "" || id in seen {
        return null;
      }
      seen := seen + {id};
      var coherent := JournalCoherent(entry, recordedThrough);
      if !coherent {
        return null;
      }
      var projected := ProjectAuthorityGrants(entry.record, entry.journal, recordedThrough);
      if projected.None? {
        return null;
      }
      grants := grants + projected.value;
    }
    assert views[..|entries|] == views;
    r := new SnapshotAuthorityResolver(grants);
  }

  /** The inner loop of `NewSnapshotAuthorityResolver`. */
  method JournalCoherent(entry: Entry, recordedThrough: Time) returns (ok: bool)
    ensures ok == EntryCoherent(EntryView(entry.record, entry.journal.events), recordedThrough)
  {
    var events := entry.journal.Events();
    for k := 0 to |events|
      invariant EntryCoherent(EntryView(entry.record, events[..k]), recordedThrough)
    {
      assert events[..k + 1] == events[..k] + [events[k]];
      if events[k].authorizationId != entry.record.authorizationId ||
         !Canonical(events[k].recordedAt) || events[k].recordedAt > recordedThrough
      {
        return false;
      }
    }
    assert events[..|events|] == events;
    return true;
  }

  /** `ResolveAuthorityGrants`, on a possibly nil resolver and a possibly cancelled context. */
  method ResolveAuthorityGrants(resolver: SnapshotAuthorityResolver?, cancelled: bool, issuerId: string, claimType: string)
    returns (r: Option<seq<Grant>>)
    ensures r == if cancelled || resolver == null then None
                 else Some(Applicable(resolver.grants, issuerId, claimType))
  {
    if cancelled {
      return None;
    }
    if resolver == null {
      return None;
    }
    var matching: seq<Grant> := [];
    for i := 0 to |resolver.grants|
      invariant matching == Applicable(resolver.grants[..i], issuerId, claimType)
    {
      var grant := resolver.grants[i];
      assert resolver.grants[..i + 1][..i] == resolver.grants[..i];
      if grant.issuerId != issuerId || grant.claimType != claimType {
        continue;
      }
      matching := matching + [grant];
    }
    assert resolver.grants[..|resolver.grants|] == resolver.grants;
    return Some(matching);
  }

  // ---------------------------------------------------------------- the decision over a snapshot

  /**
   * Some authorization in the evidence's scope is in a given lifecycle state at `t` and through the rest of the
   * microsecond that begins there.
   */
  ghost predicate SomeInState(entries: seq<EntryView>, recordedThrough: Time, evidence: Evidence, t: Time, s: State) {
    exists i :: 0 <= i < |entries| && InScope(evidence, entries[i].record) && StaysIn(entries[i], recordedThrough, t, s)
  }

  ghost predicate StaysIn(v: EntryView, recordedThrough: Time, t: Time, s: State) {
    var h := HistoryOf(v.record, v.events, recordedThrough);
    StateAt(h, t) == Some(s) && StateAt(h, t + LAST_NANOSECOND) == Some(s)
  }

  /** At an aligned instant that is the state at the instant itself. */
  lemma AlignedStaysIn(v: EntryView, recordedThrough: Time, t: Time, s: State)
    requires Built(v.events) && ProjectedGrants(v.record, v.events, recordedThrough).Some? && t % MICROSECOND == 0
    ensures StaysIn(v, recordedThrough, t, s) <==> StateAt(HistoryOf(v.record, v.events, recordedThrough), t) == Some(s)
  {
    ProjectedHistoryValid(v.record, v.events, recordedThrough);
    AlignedStateLasts(HistoryOf(v.record, v.events, recordedThrough), t);
  }

  lemma {:induction false} InAllGrants(entries: seq<EntryView>, recordedThrough: Time, g: Grant)
    ensures g in AllGrants(entries, recordedThrough) <==>
      exists i :: 0 <= i < |entries| &&
        ProjectedGrants(entries[i].record, entries[i].events, recordedThrough).Some? &&
        g in ProjectedGrants(entries[i].record, entries[i].events, recordedThrough).value
  {
    if entries != [] {
      var n := |entries| - 1;
      InAllGrants(entries[..n], recordedThrough, g);
      assert forall i :: 0 <= i < n ==> entries[..n][i] == entries[i];
    }
  }

  /** One entry backs the evidence through an active grant iff it is in scope and stays ACTIVE; likewise inactive. */
  lemma EntryBacks(v: EntryView, recordedThrough: Time, evidence: Evidence, t: Time)
    requires Built(v.events)
    requires ProjectedGrants(v.record, v.events, recordedThrough).Some?
    ensures var gs := ProjectedGrants(v.record, v.events, recordedThrough).value;
      && (SomeBacks(evidence, gs, t, GrantActive) <==>
            InScope(evidence, v.record) && StaysIn(v, recordedThrough, t, Active))
      && (SomeBacks(evidence, gs, t, GrantInactive) <==>
            InScope(evidence, v.record) &&
            (StaysIn(v, recordedThrough, t, Suspended) || StaysIn(v, recordedThrough, t, Revoked)))
  {
    ProjectedHistoryValid(v.record, v.events, recordedThrough);
    var h := HistoryOf(v.record, v.events, recordedThrough);
    GrantsRefineState(v.record, h, t);
    IntervalsInScope(v.record, h, |h|, evidence);
    assert forall g, s :: g in Intervals(v.record, h, |h|) ==>
      (Backs(evidence, g, t, s) <==> InScope(evidence, v.record) && Current(g, t) && g.state == s);
  }

  lemma SnapshotBacks(entries: seq<EntryView>, recordedThrough: Time, evidence: Evidence, t: Time)
    requires SnapshotValid(entries, recordedThrough)
    requires forall i :: 0 <= i < |entries| ==> Built(entries[i].events)
    ensures var gs := AllGrants(entries, recordedThrough);
      && (SomeBacks(evidence, gs, t, GrantActive) <==>
            SomeInState(entries, recordedThrough, evidence, t, Active))
      && (SomeBacks(evidence, gs, t, GrantInactive) <==>
            SomeInState(entries, recordedThrough, evidence, t, Suspended) ||
            SomeInState(entries, recordedThrough, evidence, t, Revoked))
  {
    hide StaysIn, InScope, Backs;
    var gs := AllGrants(entries, recordedThrough);
    forall i | 0 <= i < |entries|
      ensures forall g :: g in ProjectedGrants(entries[i].record, entries[i].events, recordedThrough).value ==> g in gs
    {
      forall g | g in ProjectedGrants(entries[i].record, entries[i].events, recordedThrough).value ensures g in gs {
        InAllGrants(entries, recordedThrough, g);
      }
      EntryBacks(entries[i], recordedThrough, evidence, t);
    }
    forall i | 0 <= i < |entries| {
      EntryBacks(entries[i], recordedThrough, evidence, t);
    }
    forall g | g in gs
      ensures exists i :: 0 <= i < |entries| && g in ProjectedGrants(entries[i].record, entries[i].events, recordedThrough).value
    {
      InAllGrants(entries, recordedThrough, g);
    }
  }

  /** Resolving by issuer and claim type loses no grant that could back the evidence. */
  lemma ResolvedBacks(evidence: Evidence, gs: seq<Grant>, t: Time, s: GrantState)
    ensures var resolved := Applicable(gs, evidence.issuerId, evidence.claimType);
      SomeBacks(evidence, resolved, t, s) <==> SomeBacks(evidence, gs, t, s)
  {
    var resolved := Applicable(gs, evidence.issuerId, evidence.claimType);
    if g :| g in gs && Backs(evidence, g, t, s) {
      assert g in resolved && Backs(evidence, g, t, s);
    }
  }

  /**
   * Over a snapshot of any number of authorizations and at any instant: AUTHORIZED exactly when some authorization of
   * the evidence's issuer, claim type and employer is ACTIVE throughout the microsecond, and otherwise UNAUTHORIZED
   * exactly when some such authorization is SUSPENDED or REVOKED throughout it.
   */
  lemma SnapshotDecision(entries: seq<EntryView>, recordedThrough: Time, evidence: Evidence, t: Time)
    requires SnapshotValid(entries, recordedThrough)
    requires forall i :: 0 <= i < |entries| ==> Built(entries[i].events)
    ensures var resolved := Applicable(AllGrants(entries, recordedThrough), evidence.issuerId, evidence.claimType);
      Evaluated(evidence, resolved, t).decision ==
      if SomeInState(entries, recordedThrough, evidence, t, Active) then Authorized
      else if SomeInState(entries, recordedThrough, evidence, t, Suspended) ||
              SomeInState(entries, recordedThrough, evidence, t, Revoked) then Unauthorized
      else Review
  {
    SnapshotBacks(entries, recordedThrough, evidence, t);
    ResolvedBacks(evidence, AllGrants(entries, recordedThrough), t, GrantActive);
    ResolvedBacks(evidence, AllGrants(entries, recordedThrough), t, GrantInactive);
  }
}
