/**
 * What the authority tables accept and what they lead to, told row by row: internal/db/authority_repository.go with the
 * constraints of migrations 000002 to 000012, over all runs of the recording protocol.
 */
module RecordingSafety {
  import opened Common
  import opened Lifecycle
  import opened LifecycleLanguage
  import opened Sorting
  import Text
  import opened Journal
  import opened Projection
  import opened AuthorityEvaluation
  import opened Snapshot
  import opened AuthoritySafety
  import opened Registry
  import opened RecordingProtocol
  import opened AuthorityRepository

  // ---------------------------------------------------------------- what is accepted

  /** The row of an authorization. */
  predicate Holds(t: Tables, id: string) {
    exists row :: row in t.records && row.record.authorizationId == id
  }

  lemma HoldsExactly(t: Tables, id: string)
    ensures HasRecord(t, id) <==> Holds(t, id)
  {
    if Holds(t, id) {
      var row :| row in t.records && row.record.authorizationId == id;
      var i :| 0 <= i < |t.records| && t.records[i] == row;
    }
    if i :| 0 <= i < |t.records| && t.records[i].record.authorizationId == id {
      assert t.records[i] in t.records;
    }
  }

  /** An authorization is recorded exactly when it is filled in and has no row yet. */
  lemma AuthorizationsAccepted(t: Tables, r: Record)
    ensures Admissible(NewRecord(r)) && Insertable(t, NewRecord(r)) <==>
      && r.authorizationId != "" && r.issuerId != "" && r.subjectId != "" && r.claimType != ""
      && !Holds(t, r.authorizationId)
  {
    HoldsExactly(t, r.authorizationId);
  }

  /**
   * An adjudication is recorded exactly when it is filled in, approves or rejects, was decided at a whole microsecond not
   * after the one it is recorded at, has a new id, and names an authorization with the same issuer, subject and claim type.
   */
  lemma AdjudicationsAccepted(t: Tables, a: Adjudication)
    ensures Admissible(NewAdjudication(a)) && Insertable(t, NewAdjudication(a)) <==>
      && a.decisionId != "" && a.authorizationId != "" && a.issuerId != "" && a.subjectId != "" && a.claimType != ""
      && a.decisionMakerId != "" && a.authorityBasis != "" && a.evidenceRef != ""
      && a.outcome in {OutcomeApproved, OutcomeRejected}
      && a.decidedAt != 0 && a.decidedAt % 1000 == 0 && a.recordedAt != 0 && a.recordedAt % 1000 == 0
      && a.decidedAt <= a.recordedAt
      && (exists row ::
            && row in t.records && row.record.authorizationId == a.authorizationId && row.record.issuerId == a.issuerId
            && row.record.subjectId == a.subjectId && row.record.claimType == a.claimType)
      && (forall row :: row in t.adjudications ==> row.adjudication.decisionId != a.decisionId)
  {
    assert forall i :: 0 <= i < |t.records| ==> t.records[i] in t.records;
    assert forall i :: 0 <= i < |t.adjudications| ==> t.adjudications[i] in t.adjudications;
    if row :| row in t.records && row.record.authorizationId == a.authorizationId && row.record.issuerId == a.issuerId
              && row.record.subjectId == a.subjectId && row.record.claimType == a.claimType
    {
      var i :| 0 <= i < |t.records| && t.records[i] == row;
      assert HasScope(t, a);
    }
    if row :| row in t.adjudications && row.adjudication.decisionId == a.decisionId {
      var i :| 0 <= i < |t.adjudications| && t.adjudications[i] == row;
      assert HasDecision(t, a.decisionId);
    }
  }

  /**
   * An event is recorded exactly when its authorization has a row, its type is known, its id is new to all journals, only a
   * correction carries a correction reason and field, and that is EffectiveAt, and the journal's `Append` accepts it.
   */
  lemma EventsAccepted(t: Tables, e: Event)
    requires Sound(t)
    ensures Admissible(NewEvent(e)) && Insertable(t, NewEvent(e)) <==>
      && e.eventId != "" && e.authorizationId != "" && e.actorId != "" && e.evidenceRef != ""
      && e.effectiveAt != 0 && e.effectiveAt % 1000 == 0 && e.recordedAt != 0 && e.recordedAt % 1000 == 0
      && Holds(t, e.authorizationId) && !e.eventType.Unrecognized?
      && (forall row :: row in t.events ==> row.event.eventId != e.eventId)
      && (forall x :: x in JournalRows(t.events, e.authorizationId) ==> x.recordedAt <= e.recordedAt)
      && (if e.correctsEventId != "" then
            && e.correctionReason != "" && e.correctedField == "EffectiveAt"
            && exists x :: x in JournalRows(t.events, e.authorizationId) && x.eventId == e.correctsEventId
          else
            && e.correctionReason == "" && e.correctedField == "" && e.conditionsSatisfied
            && IsLifecycle(OwnTypes(JournalRows(t.events, e.authorizationId), e.authorizationId) + [e.eventType]))
  {
    HoldsExactly(t, e.authorizationId);
    AppendsToJournal(t, e);
    NewToRows(t.events, e.eventId);
    assert |"EffectiveAt"| == 11;
    hide Sound, Accepts, IsLifecycle, OwnTypes, JournalRows, HasRecord, Holds;
  }

  lemma NewToRows(rows: seq<EventRow>, eventId: string)
    ensures (forall row :: row in rows ==> row.event.eventId != eventId) <==>
      forall i :: 0 <= i < |rows| ==> rows[i].event.eventId != eventId
  {
    assert forall i :: 0 <= i < |rows| ==> rows[i] in rows;
  }

  /** What `Append` accepts on the reloaded journal; an event id that is new to all rows is new to it. */
  lemma AppendsToJournal(t: Tables, e: Event)
    requires Sound(t)
    ensures (forall row :: row in t.events ==> row.event.eventId != e.eventId) ==> (Accepts(JournalRows(t.events, e.authorizationId), e) <==>
      && e.eventId != "" && e.authorizationId != "" && e.actorId != "" && e.evidenceRef != ""
      && e.effectiveAt != 0 && e.effectiveAt % 1000 == 0 && e.recordedAt != 0 && e.recordedAt % 1000 == 0
      && (forall x :: x in JournalRows(t.events, e.authorizationId) ==> x.recordedAt <= e.recordedAt)
      && (if e.correctsEventId != "" then
            && e.correctionReason != "" && e.correctedField != ""
            && exists x :: x in JournalRows(t.events, e.authorizationId) && x.eventId == e.correctsEventId
          else
            e.conditionsSatisfied
            && IsLifecycle(OwnTypes(JournalRows(t.events, e.authorizationId), e.authorizationId) + [e.eventType])))
  {
    var journal := JournalRows(t.events, e.authorizationId);
    AppendsExactly(journal, e) by { ReloadsBuilt(t, e.authorizationId); }
    RowsOf(t.events, e.authorizationId);
    hide Sound, Accepts, IsLifecycle, OwnTypes, JournalRows;
    assert forall i :: 0 <= i < |journal| ==> journal[i] in journal;
    forall x | x in journal ensures exists i :: 0 <= i < |journal| && journal[i] == x {
    }
  }

  /** The journal of an authorization is the events of its rows. */
  lemma {:induction false} RowsOf(rows: seq<EventRow>, id: string)
    ensures forall x :: x in JournalRows(rows, id) <==>
      exists row :: row in rows && row.event == x && x.authorizationId == id
  {
    if rows != [] {
      var n := |rows| - 1;
      RowsOf(rows[..n], id);
      assert rows == rows[..n] + [rows[n]];
    }
  }

  // ---------------------------------------------------------------- what a load takes from the rows

  predicate VisibleBy(p: RecordingPositions.Position, position: int) {
    p.Some? && p.value <= position
  }

  /** The entries of a load are those of the visible records, one for each, and whatever they carry comes from visible rows. */
  lemma {:induction false} EntryFrom(t: Tables, records: seq<Record>, position: int, k: nat)
    requires EntriesFor(t, records, position).Some? && k < |records|
    ensures |EntriesFor(t, records, position).value| == |records|
    ensures EntryAt(t, records[k], position) == Some(EntriesFor(t, records, position).value[k])
  {
    if k < |records| - 1 {
      EntryFrom(t, records[..|records| - 1], position, k);
    }
    EntriesCount(t, records, position);
  }

  lemma {:induction false} EntriesCount(t: Tables, records: seq<Record>, position: int)
    requires EntriesFor(t, records, position).Some?
    ensures |EntriesFor(t, records, position).value| == |records|
  {
    if records != [] {
      EntriesCount(t, records[..|records| - 1], position);
    }
  }

  /** The adjudication that is loaded is that of any visible row of the authorization. */
  lemma {:induction false} SoleIsThatRow(rows: seq<AdjudicationRow>, id: string, position: int, j: nat)
    requires AdjudicationAt(rows, id, position).Sole? && j < |rows|
    requires rows[j].adjudication.authorizationId == id && VisibleBy(rows[j].position, position)
    ensures AdjudicationAt(rows, id, position).adjudication == rows[j].adjudication
  {
    var n := |rows| - 1;
    if j < n {
      if AdjudicationAt(rows[..n], id, position).NoneYet? {
        NoneYetHasNone(rows[..n], id, position, j);
      } else {
        SoleIsThatRow(rows[..n], id, position, j);
      }
    }
  }

  lemma {:induction false} NoneYetHasNone(rows: seq<AdjudicationRow>, id: string, position: int, j: nat)
    requires AdjudicationAt(rows, id, position).NoneYet? && j < |rows|
    ensures !(rows[j].adjudication.authorizationId == id && VisibleBy(rows[j].position, position))
  {
    if j < |rows| - 1 {
      NoneYetHasNone(rows[..|rows| - 1], id, position, j);
    }
  }

  lemma {:induction false} SoleHasRow(rows: seq<AdjudicationRow>, id: string, position: int) returns (j: nat)
    requires AdjudicationAt(rows, id, position).Sole?
    ensures j < |rows| && rows[j].adjudication == AdjudicationAt(rows, id, position).adjudication
    ensures rows[j].adjudication.authorizationId == id && VisibleBy(rows[j].position, position)
  {
    var n := |rows| - 1;
    if AdjudicationAt(rows[..n], id, position).Sole? && AdjudicationAt(rows[..n], id, position) == AdjudicationAt(rows, id, position) {
      j := SoleHasRow(rows[..n], id, position);
    } else {
      j := n;
    }
  }

  lemma {:induction false} LoadedEventHasRow(rows: seq<EventRow>, id: string, position: int, e: Event) returns (j: nat)
    requires EventsAt(rows, id, position).Some? && e in EventsAt(rows, id, position).value
    ensures j < |rows| && rows[j].event == e && e.authorizationId == id && VisibleBy(rows[j].position, position)
  {
    var n := |rows| - 1;
    var before := EventsAt(rows[..n], id, position).value;
    if e in before {
      j := LoadedEventHasRow(rows[..n], id, position, e);
    } else {
      j := n;
    }
  }

  /** The entries of a load as a resolver gets them. */
  function ViewsOf(loaded: seq<LoadedEntry>): (vs: seq<EntryView>)
    ensures |vs| == |loaded| && forall i :: 0 <= i < |vs| ==> vs[i] == EntryView(loaded[i].record, loaded[i].events)
  {
    seq(|loaded|, i requires 0 <= i < |loaded| => EntryView(loaded[i].record, loaded[i].events))
  }

  lemma RecordLeIsPreorder()
    ensures TotalPreorder(RecordLe)
  {
    Text.StringLeIsTotalOrder();
  }

  /** The entries are in the order of their authorization ids. */
  lemma EntriesInOrder(t: Tables, position: int, i: nat, j: nat)
    requires EntriesAt(t, position).Some? && i < j < |EntriesAt(t, position).value|
    ensures var loaded := EntriesAt(t, position).value;
      Text.StringLe(loaded[i].record.authorizationId, loaded[j].record.authorizationId)
  {
    hide EntriesFor, Sort, RecordsAt;
    var records := Sort(RecordLe, RecordsAt(t.records, position).value);
    RecordLeIsPreorder();
    SortSorts(RecordLe, RecordsAt(t.records, position).value);
    EntriesCount(t, records, position);
    EntryFrom(t, records, position, i);
    EntryFrom(t, records, position, j);
    assert RecordLe(records[i], records[j]);
  }

  /** On committed tables a journal loads exactly for a given authorization at a position that is not negative. */
  lemma JournalsLoadExactly(t: Tables, id: string, position: int)
    requires Sound(t)
    ensures JournalAt(t.events, id, position).Some? <==> id != "" && position >= 0
    ensures EntriesAt(t, position).Some? ==> position >= 0
  {
    hide Sound;
    if id != "" && position >= 0 {
      JournalsAlwaysReload(t, id, position);
    }
  }

  /** A row without a position fails every load that it belongs to. */
  lemma UnpositionedFails(t: Tables, i: nat, id: string, position: int)
    ensures i < |t.records| && t.records[i].position == None ==> RecordsAt(t.records, position) == None
    ensures i < |t.adjudications| && t.adjudications[i].position == None && t.adjudications[i].adjudication.authorizationId == id ==>
      AdjudicationAt(t.adjudications, id, position) == Unusable
    ensures i < |t.events| && t.events[i].position == None && t.events[i].event.authorizationId == id ==>
      JournalAt(t.events, id, position) == None
  {
    hide RecordsAt, AdjudicationAt, EventsAt;
    if i < |t.records| && t.records[i].position == None {
      UnpositionedRecords(t.records, i, position);
    }
    if i < |t.adjudications| && t.adjudications[i].position == None && t.adjudications[i].adjudication.authorizationId == id {
      UnpositionedAdjudications(t.adjudications, i, id, position);
    }
    if i < |t.events| && t.events[i].position == None && t.events[i].event.authorizationId == id {
      UnpositionedEvents(t.events, i, id, position);
    }
  }

  lemma {:induction false} UnpositionedRecords(rows: seq<RecordRow>, i: nat, position: int)
    requires i < |rows| && rows[i].position == None
    ensures RecordsAt(rows, position) == None
  {
    if i < |rows| - 1 {
      UnpositionedRecords(rows[..|rows| - 1], i, position);
    }
  }

  lemma {:induction false} UnpositionedAdjudications(rows: seq<AdjudicationRow>, i: nat, id: string, position: int)
    requires i < |rows| && rows[i].position == None && rows[i].adjudication.authorizationId == id
    ensures AdjudicationAt(rows, id, position) == Unusable
  {
    if i < |rows| - 1 {
      UnpositionedAdjudications(rows[..|rows| - 1], i, id, position);
    }
  }

  lemma {:induction false} UnpositionedEvents(rows: seq<EventRow>, i: nat, id: string, position: int)
    requires i < |rows| && rows[i].position == None && rows[i].event.authorizationId == id
    ensures EventsAt(rows, id, position) == None
  {
    if i < |rows| - 1 {
      UnpositionedEvents(rows[..|rows| - 1], i, id, position);
    }
  }

  // ---------------------------------------------------------------- a rejected authorization

  /** The entry of a visible record in a load that succeeds. */
  lemma EntryOfRow(t: Tables, i: nat, position: int) returns (k: nat)
    requires Sound(t) && EntriesAt(t, position).Some? && i < |t.records| && VisibleBy(t.records[i].position, position)
    ensures k < |EntriesAt(t, position).value|
    ensures EntryAt(t, t.records[i].record, position) == Some(EntriesAt(t, position).value[k])
  {
    hide EntryAt, EntriesFor, Sort, RecordsAt;
    assert forall m :: 0 <= m < |t.records| ==> t.records[m].position.Some?;
    LoadedRecords(t.records, position, t.records[i].record);
    var records := Sort(RecordLe, RecordsAt(t.records, position).value);
    k :| 0 <= k < |records| && records[k] == t.records[i].record;
    EntryFrom(t, records, position, k);
  }

  /**
   * While the tables show an authorization with an adjudication that does not approve it, no load resolves: it fails, or
   * the resolver refuses what it loaded, at every cutoff.
   */
  lemma UnapprovedNeverResolves(t: Tables, i: nat, j: nat, position: int, cutoff: Time)
    requires Sound(t) && EntriesAt(t, position).Some?
    requires i < |t.records| && VisibleBy(t.records[i].position, position)
    requires j < |t.adjudications| && VisibleBy(t.adjudications[j].position, position)
    requires t.adjudications[j].adjudication.authorizationId == t.records[i].record.authorizationId
    requires t.adjudications[j].adjudication.outcome != OutcomeApproved
    ensures !SnapshotValid(ViewsOf(EntriesAt(t, position).value), cutoff)
  {
    var k := EntryOfRow(t, i, position);
    var id := t.records[i].record.authorizationId;
    SoleIsThatRow(t.adjudications, id, position, j);
    var v := ViewsOf(EntriesAt(t, position).value)[k];
    assert JournalAt(t.events, id, position).Some? && Built(v.events);
    hide Sound, EntriesAt, JournalAt, Built, AdjudicationAt, ProjectedGrants, EntryCoherent;
    ProjectsExactly(v.record, v.events, cutoff);
    assert !EntryValid(v, cutoff);
  }

  /**
   * A rejection is final: once a run has recorded one, no snapshot that contains the authorization resolves in any
   * continuation of the run, at any later position and any cutoff.
   */
  lemma RejectionIsFinal(actions: seq<Action>, n: nat, i: nat, j: nat, position: int, cutoff: Time)
    requires n <= |actions| && Run(actions).Some? && Run(actions[..n]).Some?
    requires var t := Run(actions[..n]).value.tables;
      && i < |t.records| && VisibleBy(t.records[i].position, position)
      && j < |t.adjudications| && VisibleBy(t.adjudications[j].position, position)
      && t.adjudications[j].adjudication.authorizationId == t.records[i].record.authorizationId
      && t.adjudications[j].adjudication.outcome == OutcomeRejected
    ensures var loaded := EntriesAt(Run(actions).value.tables, position);
      loaded.None? || !SnapshotValid(ViewsOf(loaded.value), cutoff)
  {
    hide Run, EntriesAt, SnapshotValid, Sound;
    RunGrows(actions, n);
    InvariantOfRuns(actions);
    var t, now := Run(actions[..n]).value.tables, Run(actions).value.tables;
    assert now.records[i] == t.records[i] && now.adjudications[j] == t.adjudications[j];
    if EntriesAt(now, position).Some? {
      UnapprovedNeverResolves(now, i, j, position, cutoff);
    }
  }

  // ---------------------------------------------------------------- what an authorization rests on

  /** The rows that stand behind an authorized issuer: its record, its approving adjudication, and the approval itself. */
  ghost predicate RestsOn(t: Tables, position: int, evidence: AuthorityEvaluation.Evidence, cutoff: Time, i: nat, j: nat, m: nat) {
    && i < |t.records| && j < |t.adjudications| && m < |t.events|
    && VisibleBy(t.records[i].position, position) && VisibleBy(t.adjudications[j].position, position)
    && VisibleBy(t.events[m].position, position)
    && var r, a, e := t.records[i].record, t.adjudications[j].adjudication, t.events[m].event;
    && r.issuerId == evidence.issuerId && r.claimType == evidence.claimType && r.subjectId == evidence.employerId
    && a.authorizationId == r.authorizationId && a.outcome == OutcomeApproved
    && a.issuerId == r.issuerId && a.subjectId == r.subjectId && a.claimType == r.claimType
    && a.decidedAt <= a.recordedAt <= cutoff
    && e.authorizationId == r.authorizationId && e.eventType == Approve
    && e.actorId == a.decisionMakerId && e.evidenceRef == a.evidenceRef && a.recordedAt <= e.recordedAt <= cutoff
  }

  /**
   * From the tables to the decision, over all runs: when a snapshot loaded at any position authorizes an issuer, the rows
   * visible there hold an authorization of that issuer for that claim type and employer, the adjudication that approved it,
   * and the approval by the same decision maker on the same evidence.
   */
  lemma AuthorizedWasRecorded(actions: seq<Action>, position: int, cutoff: Time, evidence: AuthorityEvaluation.Evidence, now: Time)
    requires Run(actions).Some?
    requires var loaded := EntriesAt(Run(actions).value.tables, position);
      && loaded.Some? && SnapshotValid(ViewsOf(loaded.value), cutoff)
      && Evaluated(evidence, Applicable(AllGrants(ViewsOf(loaded.value), cutoff), evidence.issuerId, evidence.claimType), now)
           .decision == Authorized
    ensures exists i: nat, j: nat, m: nat :: RestsOn(Run(actions).value.tables, position, evidence, cutoff, i, j, m)
  {
    InvariantOfRuns(actions);
    hide Run, EntriesAt, Evaluated, Applicable, AllGrants, SnapshotValid, Sound, RestsOn;
    AuthorizedRests(Run(actions).value.tables, position, cutoff, evidence, now);
  }

  lemma AuthorizedRests(t: Tables, position: int, cutoff: Time, evidence: AuthorityEvaluation.Evidence, now: Time)
    requires Sound(t) && EntriesAt(t, position).Some?
    requires var vs := ViewsOf(EntriesAt(t, position).value);
      && SnapshotValid(vs, cutoff)
      && Evaluated(evidence, Applicable(AllGrants(vs, cutoff), evidence.issuerId, evidence.claimType), now).decision == Authorized
    ensures exists i: nat, j: nat, m: nat :: RestsOn(t, position, evidence, cutoff, i, j, m)
  {
    hide EntriesAt, Evaluated, Applicable, AllGrants, SnapshotValid, Sound, Built, Speaks, ApprovedByAdjudication,
         ApprovedInJournal, EntryAt, RestsOn;
    var vs := ViewsOf(EntriesAt(t, position).value);
    LoadedAreBuilt(t, position);
    AuthorizedIsApproved(vs, cutoff, evidence, now);
    var v, x: nat :| v in vs && Speaks(v, cutoff, evidence, now, x, Activate, Reinstate)
      && ApprovedByAdjudication(v.record, cutoff) && ApprovedInJournal(v.record, v.events, cutoff);
    SpeaksConcerns(v, cutoff, evidence, now, x);
    var k: nat :| k < |vs| && vs[k] == v;
    var i := RowOfEntry(t, position, k);
    RowsBehind(t, position, evidence, cutoff, i, v);
  }

  lemma SpeaksConcerns(v: EntryView, cutoff: Time, evidence: AuthorityEvaluation.Evidence, now: Time, x: nat)
    requires Speaks(v, cutoff, evidence, now, x, Activate, Reinstate)
    ensures Concerns(v, evidence)
  {
  }

  lemma LoadedAreBuilt(t: Tables, position: int)
    requires Sound(t) && EntriesAt(t, position).Some?
    ensures forall v :: v in ViewsOf(EntriesAt(t, position).value) ==> Built(v.events)
  {
    hide EntriesAt, Sound, Built, EntryAt;
    var vs := ViewsOf(EntriesAt(t, position).value);
    forall v | v in vs ensures Built(v.events) {
      var k: nat :| k < |vs| && vs[k] == v;
      var i := RowOfEntry(t, position, k);
    }
  }

  /** The visible record that an entry of a load was made of. */
  lemma RowOfEntry(t: Tables, position: int, k: nat) returns (i: nat)
    requires Sound(t) && EntriesAt(t, position).Some? && k < |EntriesAt(t, position).value|
    ensures i < |t.records| && VisibleBy(t.records[i].position, position)
    ensures EntryAt(t, t.records[i].record, position) == Some(EntriesAt(t, position).value[k])
    ensures Built(EntriesAt(t, position).value[k].events)
  {
    assert forall m :: 0 <= m < |t.records| ==> t.records[m].position.Some?;
    hide EntryAt, EntriesFor, Sort, RecordsAt, Sound;
    var records := Sort(RecordLe, RecordsAt(t.records, position).value);
    EntriesCount(t, records, position);
    EntryFrom(t, records, position, k);
    LoadedRecords(t.records, position, records[k]);
    i :| 0 <= i < |t.records| && t.records[i].record == records[k] && t.records[i].position.value <= position;
    BuiltEntry(t, records[k], position);
  }

  lemma BuiltEntry(t: Tables, r: Record, position: int)
    requires EntryAt(t, r, position).Some?
    ensures Built(EntryAt(t, r, position).value.events)
  {
    hide Accepts;
  }

  /** The adjudication and the approval of an entry have visible rows too. */
  lemma RowsBehind(t: Tables, position: int, evidence: AuthorityEvaluation.Evidence, cutoff: Time, i: nat, v: EntryView)
    requires i < |t.records| && VisibleBy(t.records[i].position, position)
    requires EntryAt(t, t.records[i].record, position) == Some(LoadedEntry(v.record, v.events))
    requires Concerns(v, evidence) && ApprovedByAdjudication(v.record, cutoff) && ApprovedInJournal(v.record, v.events, cutoff)
    ensures exists j: nat, m: nat :: RestsOn(t, position, evidence, cutoff, i, j, m)
  {
    var id := t.records[i].record.authorizationId;
    var j := SoleHasRow(t.adjudications, id, position);
    var e :| e in v.events && Approves(e, v.record, v.record.adjudication.value, cutoff);
    var m := LoadedEventHasRow(t.events, id, position, e);
    hide Built, AdjudicationAt, EventsAt;
    assert RestsOn(t, position, evidence, cutoff, i, j, m);
  }
}
