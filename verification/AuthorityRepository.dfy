/**
 * The repository operations of internal/db/authority_repository.go, each as the one transaction it runs in: the recording
 * counter is locked first, so authority writers commit one after the other.
 */
module AuthorityRepository {
  import opened Common
  import opened Sorting
  import opened Journal
  import opened Projection
  import opened RecordingPositions
  import opened Registry
  import opened Snapshot

  lemma {:induction false} JournalRowsGrow(rows: seq<EventRow>, k: nat, id: string)
    requires k <= |rows|
    ensures JournalRows(rows[..k], id) <= JournalRows(rows, id)
  {
    if k == |rows| {
      assert rows[..k] == rows;
    } else {
      assert rows[..|rows| - 1][..k] == rows[..k];
      JournalRowsGrow(rows[..|rows| - 1], k, id);
    }
  }

  lemma JournalRowsStep(rows: seq<EventRow>, i: nat, id: string)
    requires i < |rows|
    ensures JournalRows(rows[..i + 1], id) ==
            if rows[i].event.authorizationId == id then JournalRows(rows[..i], id) + [rows[i].event] else JournalRows(rows[..i], id)
  {
    assert rows[..i + 1][..i] == rows[..i];
    assert JournalRows(rows[..i], id) + [] == JournalRows(rows[..i], id);
  }

  /** `loadAuthorizationJournal`: the whole journal of an authorization, through `Append`. */
  method LoadJournal(rows: seq<EventRow>, id: string) returns (journal: AuthorizationJournal?)
    ensures journal != null <==> Built(JournalRows(rows, id))
    ensures journal != null ==> fresh(journal) && journal.Valid() && journal.events == JournalRows(rows, id)
  {
    hide JournalRows, Built, Accepts;
    var loaded := new AuthorizationJournal();
    NoRows(id);
    for i := 0 to |rows|
      invariant fresh(loaded) && loaded.Valid() && loaded.events == JournalRows(rows[..i], id)
    {
      JournalRowsStep(rows, i, id);
      if rows[i].event.authorizationId != id {
        continue;
      }
      ghost var before := loaded.events;
      var ok := loaded.Append(rows[i].event);
      if !ok {
        JournalRowsGrow(rows, i + 1, id);
        RefusedStaysUnbuilt(before, rows[i].event, JournalRows(rows, id));
        return null;
      }
    }
    assert rows[..|rows|] == rows;
    return loaded;
  }

  lemma NoRows(id: string)
    ensures JournalRows([], id) == []
  {
  }

  class AuthorityRepository {
    var tables: Tables

    ghost predicate Valid()
      reads this
    {
      Sound(tables)
    }

    constructor ()
      ensures Valid() && tables == Tables(0, [], [], [])
    {
      tables := Tables(0, [], [], []);
      SoundAtFirst();
    }

    /** `CreateAuthorization`: the scope is inserted and the position advanced, or neither. */
    method CreateAuthorization(record: Record) returns (ok: bool)
      requires Valid()
      modifies this
      ensures Valid()
      ensures ok == (Admissible(NewRecord(record)) && Insertable(old(tables), NewRecord(record)))
      ensures tables == if ok then WithEvidence(old(tables), NewRecord(record)) else old(tables)
    {
      hide Sound, HasRecord;
      if record.authorizationId == "" || record.issuerId == "" || record.subjectId == "" || record.claimType == "" {
        return false;
      }
      if HasRecord(tables, record.authorizationId) {
        return false;
      }
      RecordedSound(tables, NewRecord(record));
      var position := tables.boundary + 1;
      tables := tables.(boundary := position,
                        records := tables.records + [RecordRow(record.(adjudication := None), Some(position))]);
      return true;
    }

    /** `CreateAdjudication`. */
    method CreateAdjudication(decision: Adjudication) returns (ok: bool)
      requires Valid()
      modifies this
      ensures Valid()
      ensures ok == (Admissible(NewAdjudication(decision)) && Insertable(old(tables), NewAdjudication(decision)))
      ensures tables == if ok then WithEvidence(old(tables), NewAdjudication(decision)) else old(tables)
    {
      hide Sound, HasScope, HasDecision;
      if !Admissible(NewAdjudication(decision)) {
        return false;
      }
      if !HasScope(tables, decision) || HasDecision(tables, decision.decisionId) {
        return false;
      }
      RecordedSound(tables, NewAdjudication(decision));
      var position := tables.boundary + 1;
      tables := tables.(boundary := position,
                        adjudications := tables.adjudications + [AdjudicationRow(decision, Some(position))]);
      return true;
    }

    /** `AppendJournalEvent`: under the locks, the journal is reloaded, `Append` decides, and the row is written. */
    method AppendJournalEvent(event: Event) returns (ok: bool)
      requires Valid()
      modifies this
      ensures Valid()
      ensures ok == (Admissible(NewEvent(event)) && Insertable(old(tables), NewEvent(event)))
      ensures tables == if ok then WithEvidence(old(tables), NewEvent(event)) else old(tables)
    {
      hide Sound, Accepts, Built, HasRecord, Storable, JournalRows;
      if event.authorizationId == "" {
        return false;
      }
      if !HasRecord(tables, event.authorizationId) {
        return false;
      }
      var journal := LoadJournal(tables.events, event.authorizationId);
      if journal == null {
        ReloadsBuilt(tables, event.authorizationId);
        assert false;
      }
      var accepted := journal.Append(event);
      if !accepted || !Storable(tables, event) {
        return false;
      }
      RecordedSound(tables, NewEvent(event));
      var position := tables.boundary + 1;
      tables := tables.(boundary := position, events := tables.events + [EventRow(event, Some(position))]);
      return true;
    }

    /** `loadAuthoritySnapshotEntriesAtPosition`. */
    method LoadEntriesAtPosition(position: int) returns (r: Option<seq<Entry>>)
      ensures r.Some? <==> EntriesAt(tables, position).Some?
      ensures r.Some? ==> Matches(r.value, EntriesAt(tables, position).value)
    {
      hide Sort, JournalAt, AdjudicationAt, EntryAt;
      if position < 0 {
        return None;
      }
      var visible := RecordsAt(tables.records, position);
      if visible.None? {
        return None;
      }
      var records := Sort(RecordLe, visible.value);
      var entries: seq<Entry> := [];
      for i := 0 to |records|
        invariant EntriesFor(tables, records[..i], position).Some?
        invariant Matches(entries, EntriesFor(tables, records[..i], position).value)
      {
        var record := records[i];
        assert records[..i + 1][..i] == records[..i];
        if EntryAt(tables, record, position).None? {
          EntriesFailureSticks(tables, records, i + 1, position);
        }
        EntryParts(tables, record, position);
        var decision := LoadAdjudicationAtPosition(tables.adjudications, record.authorizationId, position);
        if decision.None? {
          return None;
        }
        var journal := LoadJournalAtPosition(tables.events, record.authorizationId, position);
        if journal == null {
          return None;
        }
        entries := entries + [Entry(record.(adjudication := decision), journal)];
      }
      assert records[..|records|] == records;
      return Some(entries);
    }

    /**
     * `LoadAuthoritativeSnapshot`: the entries at the committed boundary, once the positions are known to be complete and
     * the candidate resolves. Its completeness check cannot fail here.
     */
    method LoadAuthoritativeSnapshot(observedAt: Time) returns (r: Option<seq<Entry>>)
      requires Valid()
      ensures r.Some? ==> EntriesAt(tables, tables.boundary).Some?
      ensures r.Some? ==> Matches(r.value, EntriesAt(tables, tables.boundary).value)
      ensures r.Some? ==> Canonical(observedAt) && SnapshotValid(Views(r.value), observedAt)
      ensures r.None? && EntriesAt(tables, tables.boundary).Some? && Canonical(observedAt) ==>
        exists vs :: MatchesViews(vs, EntriesAt(tables, tables.boundary).value) && !SnapshotValid(vs, observedAt)
    {
      CompletenessExactly(Positions(tables), tables.boundary);
      if !Canonical(observedAt) {
        return None;
      }
      if !CompletenessAccepts(Positions(tables), tables.boundary) {
        return None;
      }
      var entries := LoadEntriesAtPosition(tables.boundary);
      if entries.None? {
        return None;
      }
      var resolver := NewSnapshotAuthorityResolver(true, observedAt, entries.value);
      if resolver == null {
        assert MatchesViews(Views(entries.value), EntriesAt(tables, tables.boundary).value);
        return None;
      }
      return entries;
    }
  }

  /** An entry loads when its adjudication and its journal do. */
  lemma EntryParts(t: Tables, record: Record, position: int)
    ensures var decision := AdjudicationAt(t.adjudications, record.authorizationId, position);
      var journal := JournalAt(t.events, record.authorizationId, position);
      EntryAt(t, record, position) ==
      if !decision.Sole? || journal.None? then None
      else Some(LoadedEntry(record.(adjudication := Some(decision.adjudication)), journal.value))
    ensures JournalAt(t.events, record.authorizationId, position).Some? ==> record.authorizationId != ""
  {
  }

  ghost predicate MatchesViews(vs: seq<EntryView>, loaded: seq<LoadedEntry>) {
    |vs| == |loaded| && forall i :: 0 <= i < |vs| ==> vs[i] == EntryView(loaded[i].record, loaded[i].events)
  }

  /** The entries carry the loaded records and journals. */
  ghost predicate Matches(entries: seq<Entry>, loaded: seq<LoadedEntry>)
    reads set e | e in entries :: e.journal
  {
    && |entries| == |loaded|
    && forall i :: 0 <= i < |entries| ==>
         entries[i].record == loaded[i].record && entries[i].journal.events == loaded[i].events && entries[i].journal.Valid()
  }

  lemma {:induction false} EntriesFailureSticks(t: Tables, records: seq<Record>, k: nat, position: int)
    requires 0 < k <= |records| && EntryAt(t, records[k - 1], position).None?
    ensures EntriesFor(t, records, position).None?
  {
    if k < |records| {
      EntriesFailureSticks(t, records[..|records| - 1], k, position);
    }
  }
}
