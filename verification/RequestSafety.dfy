/**
 * Who moves a request and what the move leaves, told field by field, and what a request says of itself after any history:
 * internal/evt/repo.go.
 */
module RequestSafety {
  import opened Common
  import opened RequestWorkflow

  // ---------------------------------------------------------------- each command

  /** The command is refused with this outcome, and leaves the request as it was. */
  predicate Refused(row: Row, command: Command, outcome: Outcome) {
    Perform(row, command) == Result(outcome, row, [])
  }

  predicate Goes(row: Row, command: Command, after: Row, events: seq<Event>) {
    Perform(row, command) == Result(Done, after, events)
  }

  /** A draft is updated by its candidate at the expected version, and otherwise in conflict, whoever asks. */
  lemma UpdatesExactly(row: Row, candidate: string, version: int, claim: string)
    ensures var command := UpdateDraft(candidate, version, claim);
      if row.candidate == candidate && row.status == Draft && row.version == version then
        Goes(row, command,
              Row(row.candidate, row.employer, Draft, version + 1, claim, row.response, row.jws, row.trustResult, row.consumptions),
              [Event(DraftUpdated, Some(Draft), Draft)])
      else Refused(row, command, Conflict)
  {
  }

  /** A draft is submitted by its candidate, and in AUTO mode passed on to the employer at once. */
  lemma SubmitsExactly(row: Row, candidate: string, mode: Option<Dispatch>)
    ensures var command := Submit(candidate, mode);
      var submitted := Event(RequestSubmitted, Some(Draft), Submitted);
      if row.candidate != candidate then Refused(row, command, NotFound)
      else if row.status != Draft then Refused(row, command, Conflict)
      else if mode == None then Refused(row, command, Failed)
      else if mode == Some(Auto) then
        Goes(row, command,
              Row(candidate, row.employer, AttestationPending, row.version + 2, row.claim, row.response, row.jws, row.trustResult,
                  row.consumptions),
              [submitted, Event(AttestationDispatched, Some(Submitted), AttestationPending)])
      else
        Goes(row, command,
              Row(candidate, row.employer, Submitted, row.version + 1, row.claim, row.response, row.jws, row.trustResult,
                  row.consumptions),
              [submitted, Event(DispatchGuardBlocked, Some(Submitted), Submitted)])
  {
  }

  /** Only its candidate cancels a request, and only before it has gone to the employer. */
  lemma CancelsExactly(row: Row, candidate: string)
    ensures if row.candidate != candidate then Refused(row, Cancel(candidate), NotFound)
      else if row.status !in {Draft, Submitted} then Refused(row, Cancel(candidate), Conflict)
      else
        Goes(row, Cancel(candidate),
              Row(candidate, row.employer, Canceled, row.version + 1, row.claim, row.response, row.jws, row.trustResult,
                  row.consumptions),
              [Event(RequestCanceled, Some(row.status), Canceled)])
  {
  }

  /**
   * Only an authorized reviewer of its employer answers a pending request: a full or a partial match attests it with a
   * signature, without which it fails; a rejection needs none and leaves none; any other answer is in conflict.
   */
  lemma AttestsExactly(row: Row, employer: string, authorized: bool, response: ResponseType, signature: Option<string>)
    ensures var command := Attest(employer, authorized, response, signature);
      if !authorized || row.employer != employer then Refused(row, command, NotFound)
      else if row.status != AttestationPending then Refused(row, command, Conflict)
      else if response in {RejectedNoRecord, RejectedPolicy} then
        Goes(row, command,
              Row(row.candidate, employer, Rejected, row.version + 1, row.claim, Some(response), row.jws, row.trustResult,
                  row.consumptions),
              [Event(HrAttested, Some(AttestationPending), Rejected)])
      else if response !in {FullMatch, PartialMatch} then Refused(row, command, Conflict)
      else if signature == None then Refused(row, command, Failed)
      else
        Goes(row, command,
              Row(row.candidate, employer, Attested, row.version + 1, row.claim, Some(response), signature, row.trustResult,
                  row.consumptions),
              [Event(HrAttested, Some(AttestationPending), Attested)])
  {
  }

  /** Verification, reading and closing ask for the status alone. */
  lemma FollowsExactly(row: Row, trust: TrustResult)
    ensures if row.status != Attested then Refused(row, Verify(trust), Conflict)
      else
        var after := if trust == TrustUnverified then Unverified else Verified;
        Goes(row, Verify(trust),
              Row(row.candidate, row.employer, after, row.version + 1, row.claim, row.response, row.jws, Some(trust),
                  row.consumptions),
              [Event(TrustEvaluated, Some(Attested), after)])
    ensures var read := row.consumptions + 1;
      if row.status == Consumed then
        Goes(row, Consume,
              Row(row.candidate, row.employer, Consumed, row.version, row.claim, row.response, row.jws, row.trustResult, read), [])
      else if row.status !in {Verified, Unverified} then Refused(row, Consume, Conflict)
      else
        Goes(row, Consume,
              Row(row.candidate, row.employer, Consumed, row.version + 1, row.claim, row.response, row.jws, row.trustResult, read),
              [Event(TokenConsumed, Some(row.status), Consumed)])
    ensures if row.status != Consumed then Refused(row, Close, Conflict)
      else
        Goes(row, Close,
              Row(row.candidate, row.employer, Closed, row.version + 1, row.claim, row.response, row.jws, row.trustResult,
                  row.consumptions),
              [Event(RequestClosed, Some(Consumed), Closed)])
  {
  }

  // ---------------------------------------------------------------- whole histories

  /** A request keeps its candidate and its employer for good. */
  lemma {:induction false} PartiesStay(created: Row, commands: seq<Command>)
    ensures var row := History(created, commands).0; row.candidate == created.candidate && row.employer == created.employer
  {
    if commands != [] {
      PartiesStay(created, commands[..|commands| - 1]);
    }
  }

  /** Whoever is not its candidate, or not an authorized reviewer of its employer, changes nothing about a request. */
  lemma OnlyItsParties(created: Row, commands: seq<Command>, k: nat)
    requires k < |commands| && Perform(History(created, commands[..k]).0, commands[k]).outcome == Done
    ensures MayDo(created.candidate, created.employer, commands[k])
  {
    PartiesStay(created, commands[..k]);
    DoneByParties(History(created, commands[..k]).0, commands[k]);
    hide History, Perform, MayDo;
  }

  predicate MayDo(candidate: string, employer: string, command: Command) {
    match command
    case UpdateDraft(c, _, _) => c == candidate
    case Submit(c, _) => c == candidate
    case Cancel(c) => c == candidate
    case Attest(e, authorized, _, _) => authorized && e == employer
    case _ => true
  }

  lemma DoneByParties(row: Row, command: Command)
    requires Perform(row, command).outcome == Done
    ensures MayDo(row.candidate, row.employer, command)
  {
  }

  /** What a status implies about the fields that a later command fills. */
  lemma {:induction false} Unfilled(candidate: string, employer: string, claim: string, commands: seq<Command>)
    ensures var row := History(NewDraft(candidate, employer, claim), commands).0;
      row.status in {Draft, Submitted, AttestationPending, Canceled} ==> row.jws == None && row.response == None
  {
    if commands != [] {
      Unfilled(candidate, employer, claim, commands[..|commands| - 1]);
    }
  }

  /** The command is an attestation that went through, with this response and signature. */
  predicate AttestedBy(row: Row, command: Command, response: ResponseType, signature: string) {
    && row.status == AttestationPending && response in {FullMatch, PartialMatch}
    && command == Attest(row.employer, true, response, Some(signature))
  }

  /**
   * A request carries a signature exactly as an authorized reviewer of its employer attested it: there is a command in its
   * history that did so, with that signature and the response it carries, while the request was pending.
   */
  lemma {:induction false} SignedByAttestation(candidate: string, employer: string, claim: string, commands: seq<Command>)
    ensures var created := NewDraft(candidate, employer, claim);
      var row := History(created, commands).0;
      row.jws.Some? ==>
        && row.response.Some?
        && exists k :: 0 <= k < |commands| &&
             AttestedBy(History(created, commands[..k]).0, commands[k], row.response.value, row.jws.value)
  {
    var created := NewDraft(candidate, employer, claim);
    if commands != [] {
      var n := |commands| - 1;
      var before, after := History(created, commands[..n]).0, History(created, commands).0;
      assert after == Perform(before, commands[n]).row;
      SignedByAttestation(candidate, employer, claim, commands[..n]);
      Unfilled(candidate, employer, claim, commands[..n]);
      KeepsResponse(before, commands[n]);
      JwsChanges(before, commands[n]);
      hide History, Perform;
      if after.jws.Some? {
        if before.jws == after.jws {
          var k :| 0 <= k < n &&
            AttestedBy(History(created, commands[..n][..k]).0, commands[..n][k], before.response.value, before.jws.value);
          assert commands[..n][..k] == commands[..k] && commands[..n][k] == commands[k];
        }
      }
    }
  }

  lemma JwsChanges(row: Row, command: Command)
    ensures var after := Perform(row, command).row;
      after.jws != row.jws ==>
        after.jws.Some? && after.response.Some? && AttestedBy(row, command, after.response.value, after.jws.value)
  {
  }

  lemma KeepsResponse(row: Row, command: Command)
    requires row.jws.Some? ==> row.status !in {Draft, Submitted, AttestationPending, Canceled}
    ensures row.jws.Some? ==> Perform(row, command).row.jws == row.jws && Perform(row, command).row.response == row.response
  {
  }

  /** Once it has left the draft, what a request claims never changes. */
  lemma {:induction false} ClaimIsFrozen(created: Row, commands: seq<Command>, k: nat)
    requires k <= |commands| && History(created, commands[..k]).0.status != Draft
    ensures History(created, commands).0.claim == History(created, commands[..k]).0.claim
    ensures History(created, commands).0.status != Draft
    decreases |commands|
  {
    if k == |commands| {
      assert commands[..k] == commands;
    } else {
      var n := |commands| - 1;
      assert commands[..n][..k] == commands[..k];
      ClaimIsFrozen(created, commands[..n], k);
      FrozenStep(History(created, commands[..n]).0, commands[n]);
      hide Perform;
    }
  }

  lemma FrozenStep(row: Row, command: Command)
    requires row.status != Draft
    ensures Perform(row, command).row.claim == row.claim && Perform(row, command).row.status != Draft
  {
  }

  /** And while it is a draft it claims what its candidate wrote last. */
  lemma {:induction false} ClaimWasWritten(created: Row, commands: seq<Command>)
    ensures var row := History(created, commands).0;
      || row.claim == created.claim
      || exists k, version :: 0 <= k < |commands| && commands[k] == UpdateDraft(created.candidate, version, row.claim)
  {
    if commands != [] {
      var n := |commands| - 1;
      ClaimWasWritten(created, commands[..n]);
      PartiesStay(created, commands[..n]);
      var before, after := History(created, commands[..n]).0, History(created, commands).0;
      assert after == Perform(before, commands[n]).row;
      hide History;
      if before.claim == after.claim {
        assert forall k :: 0 <= k < n ==> commands[..n][k] == commands[k];
      } else {
        assert commands[n] == UpdateDraft(created.candidate, commands[n].expectedVersion, after.claim);
      }
    }
  }
}
