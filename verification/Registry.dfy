/** The persisted authority evidence of internal/db/authority_repository.go and how it is read back at a position. */
module Registry {
  import opened Common
  import opened Text
  import opened Sorting
  import opened Journal
  import opened JournalReplay
  import opened Projection
  import opened RecordingPositions

  datatype RecordRow = RecordRow(record: Record, position: Position)
  datatype AdjudicationRow = AdjudicationRow(adjudication: Adjudication, position: Position)
  datatype EventRow = EventRow(event: Event, position: Position)

  /** The committed tables, each in the order of insertion, and the committed recording boundary. */
  datatype Tables = Tables(
    boundary: int,
    records: seq<RecordRow>,
    adjudications: seq<AdjudicationRow>,
    events: seq<EventRow>)

  datatype Evidence =
    | NewRecord(record: Record)
    | NewAdjudication(adjudication: Adjudication)
    | NewEvent(event: Event)

  function RecordPositions(rows: seq<RecordRow>): seq<Position> {
    seq(|rows|, i requires 0 <= i < |rows| => rows[i].position)
  }

  function AdjudicationPositions(rows: seq<AdjudicationRow>): seq<Position> {
    seq(|rows|, i requires 0 <= i < |rows| => rows[i].position)
  }

  function EventPositions(rows: seq<EventRow>): seq<Position> {
    seq(|rows|, i requires 0 <= i < |rows| => rows[i].position)
  }

  /** The positions of all evidence rows. */
  function Positions(t: Tables): seq<Position> {
    RecordPositions(t.records) + AdjudicationPositions(t.adjudications) + EventPositions(t.events)
  }

  // ---------------------------------------------------------------- loading at a position

  /** The authorizations recorded by a position; a row without a position fails the load. */
  function RecordsAt(rows: seq<RecordRow>, position: int): Option<seq<Record>> {
    if rows == [] then Some([])
    else
      var before, row := RecordsAt(rows[..|rows| - 1], position), rows[|rows| - 1];
      if before.None? || row.position.None? then None
      else if row.position.value <= position then Some(before.value + [row.record])
      else before
  }

  function RecordLe(a: Record, b: Record): bool {
    StringLe(a.authorizationId, b.authorizationId)
  }

  datatype AdjudicationLoad = NoneYet | Sole(adjudication: Adjudication) | Unusable

  /** The only adjudication of an authorization recorded by a position. */
  function AdjudicationAt(rows: seq<AdjudicationRow>, id: string, position: int): AdjudicationLoad {
    if rows == [] then NoneYet
    else
      var before, row := AdjudicationAt(rows[..|rows| - 1], id, position), rows[|rows| - 1];
      if before.Unusable? || row.adjudication.authorizationId != id then before
      else if row.position.None? then Unusable
      else if row.position.value > position then before
      else if before.Sole? then Unusable
      else Sole(row.adjudication)
  }

  /** The events of an authorization recorded by a position, in journal order. */
  function EventsAt(rows: seq<EventRow>, id: string, position: int): Option<seq<Event>> {
    if rows == [] then Some([])
    else
      var before, row := EventsAt(rows[..|rows| - 1], id, position), rows[|rows| - 1];
      if before.None? || row.event.authorizationId != id then before
      else if row.position.None? then None
      else if row.position.value <= position then Some(before.value + [row.event])
      else before
  }

  /** `loadAuthorizationJournalAtPosition`: those events, if `Append` accepts them one after the other. */
  function JournalAt(rows: seq<EventRow>, id: string, position: int): Option<seq<Event>> {
    if id == "" || position < 0 then None
    else
      var events := EventsAt(rows, id, position);
      if events.Some? && Built(events.value) then events else None
  }

  datatype LoadedEntry = LoadedEntry(record: Record, events: seq<Event>)

  function EntryAt(t: Tables, record: Record, position: int): Option<LoadedEntry> {
    var decision := AdjudicationAt(t.adjudications, record.authorizationId, position);
    var journal := JournalAt(t.events, record.authorizationId, position);
    if !decision.Sole? || journal.None? then None
    else Some(LoadedEntry(record.(adjudication := Some(decision.adjudication)), journal.value))
  }

  function EntriesFor(t: Tables, records: seq<Record>, position: int): Option<seq<LoadedEntry>> {
    if records == [] then Some([])
    else
      var before := EntriesFor(t, records[..|records| - 1], position);
      var entry := EntryAt(t, records[|records| - 1], position);
      if before.None? || entry.None? then None else Some(before.value + [entry.value])
  }

  /** `loadAuthoritySnapshotEntriesAtPosition`: authorizations by id, each with its adjudication and journal. */
  function EntriesAt(t: Tables, position: int): Option<seq<LoadedEntry>> {
    var records := RecordsAt(t.records, position);
    if position < 0 || records.None? then None
    else EntriesFor(t, Sort(RecordLe, records.value), position)
  }

  lemma {:induction false} EventsFailureSticks(rows: seq<EventRow>, k: nat, id: string, position: int)
    requires k <= |rows|
    ensures EventsAt(rows[..k], id, position).None? ==> EventsAt(rows, id, position).None?
    ensures EventsAt(rows, id, position).Some? ==>
      EventsAt(rows[..k], id, position).Some? &&
      EventsAt(rows[..k], id, position).value <= EventsAt(rows, id, position).value
  {
    if k == |rows| {
      assert rows[..k] == rows;
    } else {
      assert rows[..|rows| - 1][..k] == rows[..k];
      EventsFailureSticks(rows[..|rows| - 1], k, id, position);
    }
  }

  lemma UnbuiltSticks(shorter: seq<Event>, longer: seq<Event>)
    requires shorter <= longer && Built(longer)
    ensures Built(shorter)
  {
    BuiltPrefix(longer, |shorter|);
    assert longer[..|shorter|] == shorter;
  }

  /** Once `Append` has refused an event, no journal that continues with it can be built. */
  lemma RefusedStaysUnbuilt(before: seq<Event>, e: Event, longer: seq<Event>)
    requires before + [e] <= longer && !Accepts(before, e)
    ensures !Built(longer)
  {
    assert (before + [e])[..|before|] == before;
    if Built(longer) {
      UnbuiltSticks(before + [e], longer);
    }
  }

  lemma EventsAtStep(rows: seq<EventRow>, i: nat, id: string, position: int)
    requires i < |rows| && EventsAt(rows[..i], id, position).Some?
    ensures var before, row := EventsAt(rows[..i], id, position), rows[i];
      EventsAt(rows[..i + 1], id, position) ==
      if row.event.authorizationId != id then before
      else if row.position.None? then None
      else if row.position.value <= position then Some(before.value + [row.event])
      else before
  {
    assert rows[..i + 1][..i] == rows[..i];
  }

  /** The loading loop: each row goes through `Append` again. */
  method LoadJournalAtPosition(rows: seq<EventRow>, id: string, position: int) returns (journal: AuthorizationJournal?)
    ensures journal != null <==> JournalAt(rows, id, position).Some?
    ensures journal != null ==> fresh(journal) && journal.Valid() && Some(journal.events) == JournalAt(rows, id, position)
  {
    hide Built, Accepts, EventsAt;
    if id == "" || position < 0 {
      return null;
    }
    var loaded := new AuthorizationJournal();
    NoEventsAt(id, position);
    for i := 0 to |rows|
      invariant fresh(loaded) && loaded.Valid()
      invariant EventsAt(rows[..i], id, position) == Some(loaded.events)
    {
      var row := rows[i];
      EventsAtStep(rows, i, id, position);
      EventsFailureSticks(rows, i + 1, id, position);
      if row.event.authorizationId != id {
        continue;
      }
      if row.position.None? {
        return null;
      }
      if row.position.value > position {
        continue;
      }
      ghost var before := loaded.events;
      var ok := loaded.Append(row.event);
      if !ok {
        if EventsAt(rows, id, position).Some? {
          RefusedStaysUnbuilt(before, row.event, EventsAt(rows, id, position).value);
        }
        return null;
      }
    }
    assert rows[..|rows|] == rows;
    return loaded;
  }

  lemma NoEventsAt(id: string, position: int)
    ensures EventsAt([], id, position) == Some([])
  {
  }

  lemma {:induction false} UnusableSticks(rows: seq<AdjudicationRow>, k: nat, id: string, position: int)
    requires k <= |rows| && AdjudicationAt(rows[..k], id, position).Unusable?
    ensures AdjudicationAt(rows, id, position).Unusable?
  {
    if k == |rows| {
      assert rows[..k] == rows;
    } else {
      assert rows[..|rows| - 1][..k] == rows[..k];
      UnusableSticks(rows[..|rows| - 1], k, id, position);
    }
  }

  /** `loadAuthorityAdjudicationAtPosition`: missing and competing decisions both fail. */
  method LoadAdjudicationAtPosition(rows: seq<AdjudicationRow>, id: string, position: int) returns (r: Option<Adjudication>)
    ensures r.Some? <==> id != "" && position >= 0 && AdjudicationAt(rows, id, position).Sole?
    ensures r.Some? ==> r.value == AdjudicationAt(rows, id, position).adjudication
  {
    if id == "" || position < 0 {
      return None;
    }
    var decision: Option<Adjudication> := None;
    for i := 0 to |rows|
      invariant AdjudicationAt(rows[..i], id, position) == if decision.None? then NoneYet else Sole(decision.value)
    {
      var row := rows[i];
      assert rows[..i + 1][..i] == rows[..i];
      if row.adjudication.authorizationId != id {
        continue;
      }
      if row.position.None? {
        UnusableSticks(rows, i + 1, id, position);
        return None;
      }
      if row.position.value > position {
        continue;
      }
      if decision.Some? {
        UnusableSticks(rows, i + 1, id, position);
        return None;
      }
      decision := Some(row.adjudication);
    }
    assert rows[..|rows|] == rows;
    return decision;
  }

  // ---------------------------------------------------------------- recording

  /** The whole journal of an authorization, as `loadAuthorizationJournal` reads it under the lock. */
  function JournalRows(rows: seq<EventRow>, id: string): seq<Event> {
    if rows == [] then []
    else
      var row := rows[|rows| - 1];
      JournalRows(rows[..|rows| - 1], id) + if row.event.authorizationId == id then [row.event] else []
  }

  predicate HasRecord(t: Tables, id: string) {
    exists i :: 0 <= i < |t.records| && t.records[i].record.authorizationId == id
  }

  /** What a writer checks before it opens a transaction. */
  predicate Admissible(e: Evidence) {
    match e
    case NewRecord(r) => RecordComplete(r)
    case NewAdjudication(a) =>
      && a.decisionId != "" && a.authorizationId != "" && a.issuerId != "" && a.subjectId != "" && a.claimType != ""
      && a.decisionMakerId != "" && a.authorityBasis != "" && a.evidenceRef != ""
      && (a.outcome == OutcomeApproved || a.outcome == OutcomeRejected)
      && Canonical(a.decidedAt) && Canonical(a.recordedAt) && a.decidedAt <= a.recordedAt
    case NewEvent(event) => event.authorizationId != ""
  }

  /** The authorization an adjudication names exists with the same issuer, subject and claim type. */
  predicate HasScope(t: Tables, a: Adjudication) {
    exists i :: 0 <= i < |t.records| &&
      var r := t.records[i].record;
      r.authorizationId == a.authorizationId && r.issuerId == a.issuerId && r.subjectId == a.subjectId && r.claimType == a.claimType
  }

  predicate HasDecision(t: Tables, decisionId: string) {
    exists i :: 0 <= i < |t.adjudications| && t.adjudications[i].adjudication.decisionId == decisionId
  }

  /** The table constraints on an event that `Append` does not enforce. */
  predicate Storable(t: Tables, e: Event) {
    && !e.eventType.Unrecognized?
    && (if IsCorrection(e) then e.correctedField == "EffectiveAt" else e.correctionReason == "" && e.correctedField == "")
    && forall i :: 0 <= i < |t.events| ==> t.events[i].event.eventId != e.eventId
  }

  /** Whether the insert goes through: the table constraints hold, and for an event the reloaded journal accepts it. */
  predicate Insertable(t: Tables, e: Evidence) {
    match e
    case NewRecord(r) => RecordComplete(r) && !HasRecord(t, r.authorizationId)
    case NewAdjudication(a) =>
      HasScope(t, a) && !HasDecision(t, a.decisionId)
    case NewEvent(event) =>
      && HasRecord(t, event.authorizationId)
      && Accepts(JournalRows(t.events, event.authorizationId), event)
      && Storable(t, event)
  }

  /** The tables once a transaction that allocated the next position has committed. */
  function WithEvidence(t: Tables, e: Evidence): Tables {
    var p := Some(t.boundary + 1);
    match e
    case NewRecord(r) =>
      t.(boundary := t.boundary + 1, records := t.records + [RecordRow(r.(adjudication := None), p)])
    case NewAdjudication(a) =>
      t.(boundary := t.boundary + 1, adjudications := t.adjudications + [AdjudicationRow(a, p)])
    case NewEvent(event) =>
      t.(boundary := t.boundary + 1, events := t.events + [EventRow(event, p)])
  }

  predicate Within(p: Position, boundary: int) {
    p.Some? && p.value <= boundary
  }

  /** Every row has a position within the boundary, and journal order is position order. */
  ghost predicate Positioned(t: Tables) {
    && (forall i :: 0 <= i < |t.records| ==> Within(t.records[i].position, t.boundary))
    && (forall i :: 0 <= i < |t.adjudications| ==> Within(t.adjudications[i].position, t.boundary))
    && (forall i :: 0 <= i < |t.events| ==> Within(t.events[i].position, t.boundary))
    && (forall i, j :: 0 <= i < j < |t.events| ==> t.events[i].position.value < t.events[j].position.value)
  }

  /** The authorizations have ids, each its own. */
  ghost predicate Identified(t: Tables) {
    && (forall i :: 0 <= i < |t.records| ==> t.records[i].record.authorizationId != "")
    && (forall i, j :: 0 <= i < j < |t.records| ==> t.records[i].record.authorizationId != t.records[j].record.authorizationId)
  }

  ghost predicate JournalsBuilt(t: Tables) {
    forall id :: Built(JournalRows(t.events, id))
  }

  /** What every committed state satisfies. */
  ghost predicate Sound(t: Tables) {
    t.boundary >= 0 && Exactly(Positions(t), t.boundary) && Positioned(t) && Identified(t) && JournalsBuilt(t)
  }

  lemma SoundAtFirst()
    ensures Sound(Tables(0, [], [], []))
  {
  }

  lemma PositionsRecorded(t: Tables, e: Evidence)
    ensures multiset(Positions(WithEvidence(t, e))) == multiset(Positions(t)) + multiset{Some(t.boundary + 1)}
  {
    var p, after := Some(t.boundary + 1), WithEvidence(t, e);
    var a, b, c := RecordPositions(t.records), AdjudicationPositions(t.adjudications), EventPositions(t.events);
    match e {
      case NewRecord(r) => AppendedPosition(a, RecordPositions(after.records), p);
      case NewAdjudication(_) => AppendedPosition(b, AdjudicationPositions(after.adjudications), p);
      case NewEvent(_) => AppendedPosition(c, EventPositions(after.events), p);
    }
    hide RecordPositions, AdjudicationPositions, EventPositions;
    ThreeTogether(a, b, c);
    ThreeTogether(RecordPositions(after.records), AdjudicationPositions(after.adjudications), EventPositions(after.events));
  }

  lemma ThreeTogether(a: seq<Position>, b: seq<Position>, c: seq<Position>)
    ensures multiset(a + b + c) == multiset(a) + multiset(b) + multiset(c)
  {
  }

  lemma AppendedPosition(before: seq<Position>, after: seq<Position>, p: Position)
    requires |after| == |before| + 1 && after[|before|] == p && forall i :: 0 <= i < |before| ==> after[i] == before[i]
    ensures multiset(after) == multiset(before) + multiset{p}
  {
    assert after == before + [p];
  }

  lemma JournalRowsRecorded(t: Tables, e: Evidence, id: string)
    ensures JournalRows(WithEvidence(t, e).events, id) ==
            JournalRows(t.events, id) + if e.NewEvent? && e.event.authorizationId == id then [e.event] else []
  {
    if e.NewEvent? {
      assert WithEvidence(t, e).events[..|t.events|] == t.events;
    }
  }

  /** Committing an insert keeps the tables sound; in particular every journal still reloads through `Append`. */
  lemma RecordedSound(t: Tables, e: Evidence)
    requires Sound(t) && Insertable(t, e)
    ensures Sound(WithEvidence(t, e))
  {
    hide Exactly, Positions, Positioned, Identified, JournalsBuilt, Accepts, Storable, HasScope, HasRecord;
    PositionsRecorded(t, e);
    RecordNext(Positions(t), Positions(WithEvidence(t, e)), t.boundary);
    StaysPositioned(t, e);
    StaysIdentified(t, e);
    JournalsStayBuilt(t, e);
  }

  lemma StaysPositioned(t: Tables, e: Evidence)
    requires Positioned(t)
    ensures Positioned(WithEvidence(t, e))
  {
  }

  lemma StaysIdentified(t: Tables, e: Evidence)
    requires Identified(t) && Insertable(t, e)
    ensures Identified(WithEvidence(t, e))
  {
    hide Accepts, Storable, HasScope, JournalRows;
  }

  lemma JournalsStayBuilt(t: Tables, e: Evidence)
    requires JournalsBuilt(t) && Insertable(t, e)
    ensures JournalsBuilt(WithEvidence(t, e))
  {
    forall id ensures Built(JournalRows(WithEvidence(t, e).events, id)) {
      var journal := JournalRows(t.events, id);
      JournalRowsRecorded(t, e, id);
      assert journal + [] == journal;
      if e.NewEvent? && e.event.authorizationId == id {
        assert (journal + [e.event])[..|journal|] == journal;
      }
    }
  }

  // ---------------------------------------------------------------- time travel

  /** Two registries look the same from a position: to each of the three loaders, and to the load of all entries. */
  ghost predicate SameView(a: Tables, b: Tables, position: int) {
    && RecordsAt(a.records, position) == RecordsAt(b.records, position)
    && (forall id :: AdjudicationAt(a.adjudications, id, position) == AdjudicationAt(b.adjudications, id, position))
    && (forall id :: JournalAt(a.events, id, position) == JournalAt(b.events, id, position))
    && EntriesAt(a, position) == EntriesAt(b, position)
  }

  lemma LaterRecord(rows: seq<RecordRow>, row: RecordRow, position: int)
    requires row.position.Some? && position < row.position.value
    ensures RecordsAt(rows + [row], position) == RecordsAt(rows, position)
  {
    assert (rows + [row])[..|rows|] == rows;
  }

  lemma LaterAdjudication(rows: seq<AdjudicationRow>, row: AdjudicationRow, id: string, position: int)
    requires row.position.Some? && position < row.position.value
    ensures AdjudicationAt(rows + [row], id, position) == AdjudicationAt(rows, id, position)
  {
    assert (rows + [row])[..|rows|] == rows;
  }

  lemma LaterEvent(rows: seq<EventRow>, row: EventRow, id: string, position: int)
    requires row.position.Some? && position < row.position.value
    ensures JournalAt(rows + [row], id, position) == JournalAt(rows, id, position)
  {
    assert (rows + [row])[..|rows|] == rows;
  }

  /** A row recorded after a position is invisible at it. */
  lemma LaterIsInvisible(t: Tables, e: Evidence, position: int)
    requires Sound(t) && position <= t.boundary
    ensures SameView(WithEvidence(t, e), t, position)
  {
    hide Sound, RecordsAt, AdjudicationAt, JournalAt;
    var after, p := WithEvidence(t, e), Some(t.boundary + 1);
    if e.NewRecord? {
      LaterRecord(t.records, RecordRow(e.record.(adjudication := None), p), position);
    }
    forall id
      ensures AdjudicationAt(after.adjudications, id, position) == AdjudicationAt(t.adjudications, id, position)
      ensures JournalAt(after.events, id, position) == JournalAt(t.events, id, position)
    {
      if e.NewAdjudication? {
        LaterAdjudication(t.adjudications, AdjudicationRow(e.adjudication, p), id, position);
      } else if e.NewEvent? {
        LaterEvent(t.events, EventRow(e.event, p), id, position);
      }
    }
    if RecordsAt(t.records, position).Some? {
      SameEntries(t, after, Sort(RecordLe, RecordsAt(t.records, position).value), position);
    }
  }

  function AllRecords(rows: seq<RecordRow>): seq<Record> {
    seq(|rows|, i requires 0 <= i < |rows| => rows[i].record)
  }

  /** Every adjudication of an authorization. */
  function DecisionsOf(rows: seq<AdjudicationRow>, id: string): seq<Adjudication> {
    if rows == [] then []
    else
      var row := rows[|rows| - 1];
      DecisionsOf(rows[..|rows| - 1], id) + if row.adjudication.authorizationId == id then [row.adjudication] else []
  }

  /** The loaders see every row there is: all records, the only adjudication, the whole journal. */
  ghost predicate SeesAll(t: Tables, position: int) {
    && RecordsAt(t.records, position) == Some(AllRecords(t.records))
    && (forall id ::
          var decisions := DecisionsOf(t.adjudications, id);
          AdjudicationAt(t.adjudications, id, position) ==
          if decisions == [] then NoneYet else if |decisions| == 1 then Sole(decisions[0]) else Unusable)
    && (forall id :: id != "" ==> JournalAt(t.events, id, position) == Some(JournalRows(t.events, id)))
  }

  lemma {:induction false} AllRecordsSeen(rows: seq<RecordRow>, position: int)
    requires forall i :: 0 <= i < |rows| ==> Within(rows[i].position, position)
    ensures RecordsAt(rows, position) == Some(AllRecords(rows))
  {
    if rows != [] {
      AllRecordsSeen(rows[..|rows| - 1], position);
      assert AllRecords(rows) == AllRecords(rows[..|rows| - 1]) + [rows[|rows| - 1].record];
    }
  }

  lemma {:induction false} AllDecisionsSeen(rows: seq<AdjudicationRow>, id: string, position: int)
    requires forall i :: 0 <= i < |rows| ==> Within(rows[i].position, position)
    ensures var decisions := DecisionsOf(rows, id);
      AdjudicationAt(rows, id, position) ==
      if decisions == [] then NoneYet else if |decisions| == 1 then Sole(decisions[0]) else Unusable
  {
    if rows != [] {
      AllDecisionsSeen(rows[..|rows| - 1], id, position);
    }
  }

  /** At its boundary a registry shows all of its rows. */
  lemma BoundarySeesAll(t: Tables)
    requires Sound(t) && t.boundary >= 0
    ensures SeesAll(t, t.boundary)
  {
    hide Exactly, JournalRows, JournalAt, RecordsAt, AdjudicationAt, DecisionsOf, AllRecords;
    AllRecordsSeen(t.records, t.boundary);
    forall id
      ensures var decisions := DecisionsOf(t.adjudications, id);
        AdjudicationAt(t.adjudications, id, t.boundary) ==
        if decisions == [] then NoneYet else if |decisions| == 1 then Sole(decisions[0]) else Unusable
    {
      AllDecisionsSeen(t.adjudications, id, t.boundary);
    }
    forall id | id != "" ensures JournalAt(t.events, id, t.boundary) == Some(JournalRows(t.events, id)) {
      JournalsAlwaysReload(t, id, t.boundary);
    }
  }

  lemma {:induction false} SameEntries(t: Tables, after: Tables, records: seq<Record>, position: int)
    requires forall id :: AdjudicationAt(after.adjudications, id, position) == AdjudicationAt(t.adjudications, id, position)
    requires forall id :: JournalAt(after.events, id, position) == JournalAt(t.events, id, position)
    ensures EntriesFor(after, records, position) == EntriesFor(t, records, position)
  {
    if records != [] {
      SameEntries(t, after, records[..|records| - 1], position);
    }
  }

  /** Rows that all have a position, in rising order. */
  ghost predicate Rising(rows: seq<EventRow>) {
    && (forall i :: 0 <= i < |rows| ==> rows[i].position.Some?)
    && (forall i, j :: 0 <= i < j < |rows| ==> rows[i].position.value < rows[j].position.value)
  }

  /** At any position the visible events of an authorization are the first so many of its journal. */
  lemma {:induction false} EventsAtIsPrefix(rows: seq<EventRow>, id: string, position: int)
    requires Rising(rows)
    ensures EventsAt(rows, id, position).Some? && EventsAt(rows, id, position).value <= JournalRows(rows, id)
    ensures (rows != [] ==> rows[|rows| - 1].position.value <= position) ==>
      EventsAt(rows, id, position).value == JournalRows(rows, id)
  {
    if rows != [] {
      var n := |rows| - 1;
      assert Rising(rows[..n]) && rows[n].position.Some? && (n > 0 ==> rows[n - 1].position.value < rows[n].position.value);
      hide Rising;
      EventsAtIsPrefix(rows[..n], id, position);
      assert JournalRows(rows[..n], id) + [] == JournalRows(rows[..n], id);
    }
  }

  /** Every persisted journal reloads through `Append`, at every position. */
  lemma JournalsAlwaysReload(t: Tables, id: string, position: int)
    requires Sound(t) && id != "" && position >= 0
    ensures JournalAt(t.events, id, position).Some? && JournalAt(t.events, id, position).value <= JournalRows(t.events, id)
    ensures position >= t.boundary ==> JournalAt(t.events, id, position).value == JournalRows(t.events, id)
  {
    hide Exactly;
    EventsAtIsPrefix(t.events, id, position);
    UnbuiltSticks(EventsAt(t.events, id, position).value, JournalRows(t.events, id));
  }

  // ---------------------------------------------------------------- when a snapshot loads

  /** How many adjudications of an authorization are recorded by a position. */
  function DecisionCount(rows: seq<AdjudicationRow>, id: string, position: int): nat {
    if rows == [] then 0
    else
      var row := rows[|rows| - 1];
      DecisionCount(rows[..|rows| - 1], id, position) +
      if row.adjudication.authorizationId == id && row.position.Some? && row.position.value <= position then 1 else 0
  }

  lemma {:induction false} SoleIsOne(rows: seq<AdjudicationRow>, id: string, position: int)
    requires forall i :: 0 <= i < |rows| ==> rows[i].position.Some?
    ensures AdjudicationAt(rows, id, position).Sole? <==> DecisionCount(rows, id, position) == 1
    ensures AdjudicationAt(rows, id, position).NoneYet? <==> DecisionCount(rows, id, position) == 0
  {
    if rows != [] {
      SoleIsOne(rows[..|rows| - 1], id, position);
    }
  }

  lemma {:induction false} InRecordsAt(rows: seq<RecordRow>, position: int, r: Record)
    requires forall i :: 0 <= i < |rows| ==> rows[i].position.Some?
    ensures RecordsAt(rows, position).Some?
    ensures r in RecordsAt(rows, position).value <==>
      exists i :: 0 <= i < |rows| && rows[i].record == r && rows[i].position.value <= position
  {
    if rows != [] {
      var n := |rows| - 1;
      InRecordsAt(rows[..n], position, r);
      assert forall i :: 0 <= i < n ==> rows[..n][i] == rows[i];
    }
  }

  lemma {:induction false} EntriesForAll(t: Tables, records: seq<Record>, position: int)
    ensures EntriesFor(t, records, position).Some? <==> forall r :: r in records ==> EntryAt(t, r, position).Some?
  {
    if records != [] {
      var n := |records| - 1;
      EntriesForAll(t, records[..n], position);
      assert records == records[..n] + [records[n]];
    }
  }

  lemma EntryLoads(t: Tables, r: Record, position: int)
    requires Sound(t) && position >= 0 && r.authorizationId != ""
    ensures EntryAt(t, r, position).Some? <==> DecisionCount(t.adjudications, r.authorizationId, position) == 1
  {
    hide Exactly, JournalAt, AdjudicationAt;
    JournalsAlwaysReload(t, r.authorizationId, position);
    SoleIsOne(t.adjudications, r.authorizationId, position);
  }

  /** The records a load goes through, in any order, are those of the visible rows. */
  lemma LoadedRecords(rows: seq<RecordRow>, position: int, r: Record)
    requires forall i :: 0 <= i < |rows| ==> rows[i].position.Some?
    ensures RecordsAt(rows, position).Some?
    ensures r in Sort(RecordLe, RecordsAt(rows, position).value) <==>
      exists i :: 0 <= i < |rows| && rows[i].record == r && rows[i].position.value <= position
  {
    InRecordsAt(rows, position, r);
    var before := RecordsAt(rows, position).value;
    assert r in before <==> r in multiset(before);
    assert r in Sort(RecordLe, before) <==> r in multiset(Sort(RecordLe, before));
  }

  /**
   * The journals never stand in the way of a load. What does is an authorization that has no adjudication yet, or more
   * than one: a single such authorization makes the snapshot of all of them fail.
   */
  lemma LoadsExactly(t: Tables, position: int)
    requires Sound(t) && position >= 0
    ensures EntriesAt(t, position).Some? <==>
      forall i :: 0 <= i < |t.records| && t.records[i].position.value <= position ==>
        DecisionCount(t.adjudications, t.records[i].record.authorizationId, position) == 1
  {
    hide Exactly, Positions, JournalsBuilt, DecisionCount, RecordsAt, EntryAt, EntriesFor, Sort, RecordLe;
    LoadedRecords(t.records, position, Record("", "", "", "", None));
    var records := Sort(RecordLe, RecordsAt(t.records, position).value);
    EntriesForAll(t, records, position);
    forall i | 0 <= i < |t.records|
      ensures t.records[i].record in records <==> t.records[i].position.value <= position
      ensures EntryAt(t, t.records[i].record, position).Some? <==>
              DecisionCount(t.adjudications, t.records[i].record.authorizationId, position) == 1
    {
      LoadedRecords(t.records, position, t.records[i].record);
      EntryLoads(t, t.records[i].record, position);
    }
    forall r | r in records ensures exists i :: 0 <= i < |t.records| && t.records[i].record == r {
      LoadedRecords(t.records, position, r);
    }
  }

  lemma {:induction false} DecisionsStay(rows: seq<AdjudicationRow>, id: string, p: int, q: int)
    requires p <= q
    ensures DecisionCount(rows, id, p) <= DecisionCount(rows, id, q)
  {
    if rows != [] {
      DecisionsStay(rows[..|rows| - 1], id, p, q);
    }
  }

  /** Rows are only ever added. */
  predicate Grown(before: Tables, after: Tables) {
    && before.boundary <= after.boundary && before.records <= after.records
    && before.adjudications <= after.adjudications && before.events <= after.events
  }

  lemma {:induction false} DecisionsGrow(rows: seq<AdjudicationRow>, more: seq<AdjudicationRow>, id: string, p: int)
    requires rows <= more
    ensures DecisionCount(rows, id, p) <= DecisionCount(more, id, p)
    decreases |more|
  {
    if |rows| == |more| {
      assert rows == more;
    } else {
      DecisionsGrow(rows, more[..|more| - 1], id, p);
    }
  }

  /** A second adjudication of one authorization makes every load fail from then on, whatever is recorded later. */
  lemma CompetingDecisionsArePermanent(t: Tables, later: Tables, i: nat, p: int, q: int)
    requires Sound(later) && Grown(t, later) && i < |t.records| && Within(t.records[i].position, p) && p <= q
    requires DecisionCount(t.adjudications, t.records[i].record.authorizationId, p) >= 2
    ensures EntriesAt(later, q).None?
  {
    hide Exactly, JournalsBuilt, EntriesAt;
    var id := t.records[i].record.authorizationId;
    assert later.records[i] == t.records[i];
    PositionPositive(later, i);
    DecisionsGrow(t.adjudications, later.adjudications, id, p);
    DecisionsStay(later.adjudications, id, p, q);
    LoadsExactly(later, q);
  }

  lemma {:induction false} AllDecisionsCounted(rows: seq<AdjudicationRow>, id: string, p: int, q: int)
    requires p <= q && forall i :: 0 <= i < |rows| ==> Within(rows[i].position, p)
    ensures DecisionCount(rows, id, q) == DecisionCount(rows, id, p)
  {
    if rows != [] {
      AllDecisionsCounted(rows[..|rows| - 1], id, p, q);
    }
  }

  /** The tables accept it: nothing but the scope and the decision id is checked. */
  lemma SecondAdjudicationIsRecorded(t: Tables, a: Adjudication)
    requires Sound(t) && HasScope(t, a) && !HasDecision(t, a.decisionId)
    requires DecisionCount(t.adjudications, a.authorizationId, t.boundary) == 1
    ensures Insertable(t, NewAdjudication(a))
    ensures var after := WithEvidence(t, NewAdjudication(a));
      && DecisionCount(after.adjudications, a.authorizationId, after.boundary) == 2
      && forall q :: q >= after.boundary ==> EntriesAt(after, q).None?
  {
    hide Exactly, Positions, JournalsBuilt, EntriesAt;
    var after := WithEvidence(t, NewAdjudication(a));
    AllDecisionsCounted(t.adjudications, a.authorizationId, t.boundary, after.boundary);
    assert after.adjudications[..|t.adjudications|] == t.adjudications;
    RecordedSound(t, NewAdjudication(a));
    var i :| 0 <= i < |t.records| && t.records[i].record.authorizationId == a.authorizationId;
    assert Within(after.records[i].position, after.boundary);
    forall q | q >= after.boundary ensures EntriesAt(after, q).None? {
      CompetingDecisionsArePermanent(after, after, i, after.boundary, q);
    }
  }

  lemma PositionPositive(t: Tables, i: nat)
    requires Sound(t) && i < |t.records|
    ensures t.records[i].position.value >= 1
  {
    var p := t.records[i].position;
    assert RecordPositions(t.records)[i] == p;
    assert Positions(t)[i] == p;
    assert p in multiset(Positions(t)) && p == Some(p.value);
  }

  // ---------------------------------------------------------------- corrections that cannot be projected

  lemma {:induction false} JournalRowsIn(rows: seq<EventRow>, id: string, e: Event)
    ensures e in JournalRows(rows, id) <==> e.authorizationId == id && exists i :: 0 <= i < |rows| && rows[i].event == e
  {
    if rows != [] {
      var n := |rows| - 1;
      JournalRowsIn(rows[..n], id, e);
      assert forall i :: 0 <= i < n ==> rows[..n][i] == rows[i];
    }
  }

  /**
   * Neither `Append` nor the tables refuse a correction of a correction. Once it is recorded the effective history of the
   * authorization fails at every later cutoff, and with it every snapshot.
   */
  lemma CorrectionOfCorrectionIsRecorded(t: Tables, c: Event, again: Event)
    requires Sound(t) && HasRecord(t, again.authorizationId)
    requires c in JournalRows(t.events, again.authorizationId) && IsCorrection(c)
    requires WellFormed(again) && !again.eventType.Unrecognized? && IsCorrection(again) && again.correctsEventId == c.eventId
    requires again.correctionReason != "" && again.correctedField == "EffectiveAt"
    requires forall i :: 0 <= i < |t.events| ==>
      t.events[i].event.eventId != again.eventId && t.events[i].event.recordedAt <= again.recordedAt
    ensures Insertable(t, NewEvent(again))
    ensures var journal := JournalRows(WithEvidence(t, NewEvent(again)).events, again.authorizationId);
      forall cutoff :: again.recordedAt <= cutoff ==> EffectiveHistory(journal, again.authorizationId, cutoff).None?
  {
    hide Sound, Insertable, WithEvidence, JournalRows, EffectiveHistory, CorrectionsSound, WellFormed, HasRecord, Canonical;
    var id := again.authorizationId;
    var journal := JournalRows(t.events, id);
    CorrectionAccepted(t, c, again);
    var grown := journal + [again];
    JournalRowsRecorded(t, NewEvent(again), id);
    RecordedSound(t, NewEvent(again));
    ReloadsBuilt(WithEvidence(t, NewEvent(again)), id);
    assert !CorrectionsSound(grown, id) by { TargetIsCorrection(journal, c, again); }
    forall cutoff | again.recordedAt <= cutoff ensures EffectiveHistory(grown, id, cutoff).None? {
      UnsoundCorrectionIsPermanent(grown, grown, id, cutoff);
    }
  }

  lemma ReloadsBuilt(t: Tables, id: string)
    requires Sound(t)
    ensures Built(JournalRows(t.events, id))
  {
  }

  lemma CorrectionAccepted(t: Tables, c: Event, again: Event)
    requires HasRecord(t, again.authorizationId) && c in JournalRows(t.events, again.authorizationId) && IsCorrection(c)
    requires WellFormed(again) && !again.eventType.Unrecognized? && IsCorrection(again) && again.correctsEventId == c.eventId
    requires again.correctionReason != "" && again.correctedField == "EffectiveAt"
    requires forall i :: 0 <= i < |t.events| ==>
      t.events[i].event.eventId != again.eventId && t.events[i].event.recordedAt <= again.recordedAt
    ensures Insertable(t, NewEvent(again))
  {
    hide WellFormed, Reconstruction;
    var id := again.authorizationId;
    var journal := JournalRows(t.events, id);
    forall e | e in journal ensures e.eventId != again.eventId && e.recordedAt <= again.recordedAt {
      JournalRowsIn(t.events, id, e);
    }
    JournalRowsIn(t.events, id, c);
    var i :| 0 <= i < |journal| && journal[i] == c;
    assert journal[i].eventId == again.correctsEventId && journal[i].authorizationId == id;
  }

  lemma TargetIsCorrection(journal: seq<Event>, c: Event, again: Event)
    requires Built(journal + [again]) && c in journal && IsCorrection(c) && IsCorrection(again) && again.correctsEventId == c.eventId
    ensures !CorrectionsSound(journal + [again], again.authorizationId)
  {
    hide Accepts;
    var grown := journal + [again];
    BuiltShape(grown);
    assert grown[..|journal|] == journal && grown[|journal|] == again;
    var i :| 0 <= i < |journal| && journal[i] == c;
    assert grown[i] == c;
  }
}
