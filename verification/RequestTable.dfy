/** The operations of internal/evt/repo.go on the tables they write. */
module RequestTable {
  import opened Common
  import opened RequestWorkflow
  import Assignments

  datatype LogRow = LogRow(id: nat, event: Event)

  datatype Tables = Tables(rows: map<nat, Row>, log: seq<LogRow>, config: map<string, Dispatch>)

  function Tag(id: nat, events: seq<Event>): seq<LogRow> {
    seq(|events|, i requires 0 <= i < |events| => LogRow(id, events[i]))
  }

  /** The events of one request, in the order they were logged. */
  function LogOf(log: seq<LogRow>, id: nat): seq<Event> {
    if log == [] then []
    else LogOf(log[..|log| - 1], id) + if log[|log| - 1].id == id then [log[|log| - 1].event] else []
  }

  /** Every request is what its own events tell. */
  ghost predicate Sound(t: Tables) {
    && (forall id :: id in t.rows ==> Consistent(t.rows[id], LogOf(t.log, id)))
    && (forall id: nat :: id !in t.rows ==> LogOf(t.log, id) == [])
  }

  /** A transaction that ran a command on a request, whatever its outcome. */
  ghost predicate Performed(before: Tables, after: Tables, id: nat, command: Command, outcome: Outcome) {
    if id !in before.rows then
      after == before && outcome == if command.UpdateDraft? then Conflict else NotFound
    else
      var r := Perform(before.rows[id], command);
      outcome == r.outcome && after == before.(rows := before.rows[id := r.row], log := before.log + Tag(id, r.events))
  }

  lemma {:induction false} LogOfTagged(log: seq<LogRow>, id: nat, events: seq<Event>, x: nat)
    ensures LogOf(log + Tag(id, events), x) == LogOf(log, x) + if x == id then events else []
  {
    if events == [] {
      assert log + Tag(id, events) == log;
      assert LogOf(log, x) + [] == LogOf(log, x);
    } else {
      var n := |events| - 1;
      LogOfTagged(log, id, events[..n], x);
      var grown := log + Tag(id, events);
      assert grown[..|grown| - 1] == log + Tag(id, events[..n]);
      assert grown[|grown| - 1] == LogRow(id, events[n]);
      assert events[..n] + [events[n]] == events;
      assert LogOf(log, x) + events[..n] + [events[n]] == LogOf(log, x) + events;
    }
  }

  /** Soundness is an invariant of the table. */
  lemma PerformedKeeps(before: Tables, after: Tables, id: nat, command: Command, outcome: Outcome)
    requires Sound(before) && Performed(before, after, id, command, outcome)
    ensures Sound(after)
  {
    hide Consistent, Perform, LogOf, Tag;
    if id in before.rows {
      var r := Perform(before.rows[id], command);
      PerformKeeps(before.rows[id], LogOf(before.log, id), command);
      forall x: nat ensures LogOf(after.log, x) == LogOf(before.log, x) + if x == id then r.events else [] {
        LogOfTagged(before.log, id, r.events, x);
      }
      assert forall x: nat :: LogOf(before.log, x) + [] == LogOf(before.log, x);
    }
  }

  class Repo {
    var rows: map<nat, Row>
    var log: seq<LogRow>
    var config: map<string, Dispatch>

    ghost predicate Valid()
      reads this
    {
      Sound(Now())
    }

    function Now(): Tables
      reads this
    {
      Tables(rows, log, config)
    }

    constructor ()
      ensures Valid() && Now() == Tables(map[], [], map[])
    {
      rows, log, config := map[], [], map[];
    }

    method InsertEvent(id: nat, kind: EventType, before: Option<Status>, after: Status)
      modifies `log
      ensures log == old(log) + [LogRow(id, Event(kind, before, after))]
    {
      log := log + [LogRow(id, Event(kind, before, after))];
    }

    /** `CandidateCreateDraft`; `id` is the new row's. */
    method CandidateCreateDraft(id: nat, candidate: string, employer: string, claim: string)
      requires Valid() && id !in rows
      modifies this
      ensures Valid()
      ensures rows == old(rows)[id := NewDraft(candidate, employer, claim)] && log == old(log) + [LogRow(id, CREATED)]
      ensures config == if employer in old(config) then old(config) else old(config)[employer := Auto]
    {
      hide Consistent;
      if employer !in config {
        config := config[employer := Auto];
      }
      rows := rows[id := NewDraft(candidate, employer, claim)];
      InsertEvent(id, DraftCreated, None, Draft);
      CreationIsConsistent(candidate, employer, claim);
      ghost var before := old(log);
      assert log == before + Tag(id, [CREATED]);
      forall x: nat ensures LogOf(log, x) == LogOf(before, x) + if x == id then [CREATED] else [] {
        LogOfTagged(before, id, [CREATED], x);
      }
      assert forall x: nat :: LogOf(before, x) + [] == LogOf(before, x);
      assert [] + [CREATED] == [CREATED];
    }

    method CandidateUpdateDraft(id: nat, candidate: string, expectedVersion: int, claim: string) returns (outcome: Outcome)
      requires Valid()
      modifies `rows, `log
      ensures Valid() && Performed(old(Now()), Now(), id, UpdateDraft(candidate, expectedVersion, claim), outcome)
    {
      hide Sound;
      ghost var before := Now();
      if id in rows && rows[id].candidate == candidate && rows[id].status.Draft? && rows[id].version == expectedVersion {
        rows := rows[id := rows[id].(claim := claim, version := rows[id].version + 1)];
        InsertEvent(id, DraftUpdated, Some(Draft), Draft);
        outcome := Done;
      } else {
        Unwritten(before, id);
        outcome := Conflict;
      }
      PerformedKeeps(before, Now(), id, UpdateDraft(candidate, expectedVersion, claim), outcome);
    }

    method CandidateSubmit(id: nat, candidate: string) returns (outcome: Outcome, finalStatus: Status)
      requires Valid()
      modifies `rows, `log
      ensures Valid()
      ensures var mode := if id in old(rows) && old(rows)[id].employer in config then Some(config[old(rows)[id].employer]) else None;
        Performed(old(Now()), Now(), id, Submit(candidate, mode), outcome)
      ensures outcome == Done ==> id in rows && finalStatus == rows[id].status
    {
      hide Sound;
      ghost var before := Now();
      ghost var mode := if id in rows && rows[id].employer in config then Some(config[rows[id].employer]) else None;
      outcome, finalStatus := Done, Draft;
      Unwritten(before, id);
      if id !in rows || rows[id].candidate != candidate {
        outcome := NotFound;
      } else if !rows[id].status.Draft? {
        outcome := Conflict;
      } else if rows[id].employer !in config {
        outcome := Failed;
      } else {
        rows := rows[id := rows[id].(status := Submitted, version := rows[id].version + 1)];
        InsertEvent(id, RequestSubmitted, Some(Draft), Submitted);
        finalStatus := Submitted;
        if config[rows[id].employer].Auto? {
          rows := rows[id := rows[id].(status := AttestationPending, version := rows[id].version + 1)];
          InsertEvent(id, AttestationDispatched, Some(Submitted), AttestationPending);
          finalStatus := AttestationPending;
        } else {
          InsertEvent(id, DispatchGuardBlocked, Some(Submitted), Submitted);
        }
      }
      PerformedKeeps(before, Now(), id, Submit(candidate, mode), outcome);
    }

    method CandidateCancel(id: nat, candidate: string) returns (outcome: Outcome)
      requires Valid()
      modifies `rows, `log
      ensures Valid() && Performed(old(Now()), Now(), id, Cancel(candidate), outcome)
    {
      hide Sound;
      ghost var before := Now();
      Unwritten(before, id);
      outcome := Done;
      if id !in rows || rows[id].candidate != candidate {
        outcome := NotFound;
      } else if !rows[id].status.Draft? && !rows[id].status.Submitted? {
        outcome := Conflict;
      } else {
        var current := rows[id].status;
        rows := rows[id := rows[id].(status := Canceled, version := rows[id].version + 1)];
        InsertEvent(id, RequestCanceled, Some(current), Canceled);
      }
      PerformedKeeps(before, Now(), id, Cancel(candidate), outcome);
    }

    /**
     * `EmployerAttestServerSigned`, which authorizes the reviewer against the assignment tables first; `signature` is what
     * the signer returns, if it is configured and succeeds.
     */
    method EmployerAttest(access: Assignments.AssignmentTables, principal: string, id: nat, employer: string,
                          response: ResponseType, signature: Option<string>)
      returns (outcome: Outcome)
      requires Valid()
      modifies `rows, `log
      ensures var authorized := Assignments.Allowed(access.Now(), principal, employer);
        Valid() && Performed(old(Now()), Now(), id, Attest(employer, authorized, response, signature), outcome)
    {
      hide Sound;
      var authorized := access.Authorize(principal, employer);
      ghost var before := Now();
      Unwritten(before, id);
      outcome := Done;
      if !authorized {
        outcome := NotFound;
      } else if id !in rows || rows[id].employer != employer {
        outcome := NotFound;
      } else if !rows[id].status.AttestationPending? {
        outcome := Conflict;
      } else {
        var row := rows[id];
        var toStatus := if Rejecting(response) then Rejected else Attested;
        if toStatus.Attested? {
          if !response.FullMatch? && !response.PartialMatch? {
            outcome := Conflict;
          } else if signature.None? {
            outcome := Failed;
          } else {
            rows := rows[id := row.(status := Attested, response := Some(response), jws := signature, version := row.version + 1)];
          }
        } else {
          rows := rows[id := row.(status := Rejected, response := Some(response), version := row.version + 1)];
        }
        if outcome == Done {
          InsertEvent(id, HrAttested, Some(row.status), toStatus);
        }
      }
      PerformedKeeps(before, Now(), id, Attest(employer, authorized, response, signature), outcome);
    }

    method InternalVerify(id: nat, trust: TrustResult) returns (outcome: Outcome)
      requires Valid()
      modifies `rows, `log
      ensures Valid() && Performed(old(Now()), Now(), id, Verify(trust), outcome)
    {
      hide Sound;
      ghost var before := Now();
      Unwritten(before, id);
      outcome := Done;
      if id !in rows {
        outcome := NotFound;
      } else if !rows[id].status.Attested? {
        outcome := Conflict;
      } else {
        var toStatus := if trust.TrustUnverified? then Unverified else Verified;
        rows := rows[id := rows[id].(status := toStatus, trustResult := Some(trust), version := rows[id].version + 1)];
        InsertEvent(id, TrustEvaluated, Some(Attested), toStatus);
      }
      PerformedKeeps(before, Now(), id, Verify(trust), outcome);
    }

    method InternalClose(id: nat) returns (outcome: Outcome)
      requires Valid()
      modifies `rows, `log
      ensures Valid() && Performed(old(Now()), Now(), id, Close, outcome)
    {
      hide Sound;
      ghost var before := Now();
      Unwritten(before, id);
      outcome := Done;
      if id !in rows {
        outcome := NotFound;
      } else if !rows[id].status.Consumed? {
        outcome := Conflict;
      } else {
        rows := rows[id := rows[id].(status := Closed, version := rows[id].version + 1)];
        InsertEvent(id, RequestClosed, Some(Consumed), Closed);
      }
      PerformedKeeps(before, Now(), id, Close, outcome);
    }

    method RecruiterConsume(id: nat) returns (outcome: Outcome)
      requires Valid()
      modifies `rows, `log
      ensures Valid() && Performed(old(Now()), Now(), id, Consume, outcome)
    {
      hide Sound;
      ghost var before := Now();
      Unwritten(before, id);
      outcome := Done;
      if id !in rows {
        outcome := NotFound;
      } else if !rows[id].status.Verified? && !rows[id].status.Unverified? && !rows[id].status.Consumed? {
        outcome := Conflict;
      } else {
        var current := rows[id].status;
        rows := rows[id := rows[id].(consumptions := rows[id].consumptions + 1)];
        if !current.Consumed? {
          rows := rows[id := rows[id].(status := Consumed, version := rows[id].version + 1)];
          InsertEvent(id, TokenConsumed, Some(current), Consumed);
        }
      }
      PerformedKeeps(before, Now(), id, Consume, outcome);
    }
  }

  /** Writing back a row and no events changes nothing. */
  lemma Unwritten(t: Tables, id: nat)
    ensures t.log + Tag(id, []) == t.log
    ensures id in t.rows ==> t.rows[id := t.rows[id]] == t.rows
  {
  }
}
