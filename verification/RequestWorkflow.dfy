/**
 * The request workflow of internal/evt/repo.go: candidate, employer, internal and recruiter transitions of one request,
 * and the event log written with them. Each operation is one transaction that locks the request's row, so operations on a
 * request follow one another; an event that cannot be inserted aborts the transaction.
 */
module RequestWorkflow {
  import opened Common

  datatype Status =
    | Draft | Submitted | AttestationPending | Attested | Verified | Unverified | Rejected | Canceled | Consumed | Closed

  /** The labels of the trust contract, and any other the database enumeration may hold. */
  datatype TrustResult = TrustVerified | TrustVerifiedWithFlags | TrustUnverified | TrustOther(name: string)

  datatype ResponseType = FullMatch | PartialMatch | RejectedNoRecord | RejectedPolicy | ResponseOther(name: string)

  datatype Dispatch = Auto | Manual(mode: string)

  datatype EventType =
    | DraftCreated | DraftUpdated | RequestSubmitted | AttestationDispatched | DispatchGuardBlocked
    | HrAttested | RequestCanceled | TrustEvaluated | TokenConsumed | RequestClosed

  /** An `evt_request_events` row. */
  datatype Event = Event(kind: EventType, before: Option<Status>, after: Status)

  /** An `evt_requests` row, with the number of its rows in `evt_token_consumptions`. */
  datatype Row = Row(
    candidate: string,
    employer: string,
    status: Status,
    version: int,
    claim: string,
    response: Option<ResponseType>,
    jws: Option<string>,
    trustResult: Option<TrustResult>,
    consumptions: nat)

  datatype Command =
    | UpdateDraft(candidate: string, expectedVersion: int, claim: string)
    | Submit(candidate: string, mode: Option<Dispatch>)
    | Cancel(candidate: string)
    | Attest(employer: string, authorized: bool, response: ResponseType, signature: Option<string>)
    | Verify(trust: TrustResult)
    | Consume
    | Close

  datatype Outcome = Done | NotFound | Conflict | Failed

  /** A new draft and its first event; `version` starts at the column default. */
  function NewDraft(candidate: string, employer: string, claim: string): Row {
    Row(candidate, employer, Draft, 1, claim, None, None, None, 0)
  }

  const CREATED: Event := Event(DraftCreated, None, Draft)

  function Logged(kind: EventType, before: Status, after: Status): Event {
    Event(kind, Some(before), after)
  }

  predicate Rejecting(response: ResponseType) {
    response.RejectedNoRecord? || response.RejectedPolicy?
  }

  datatype Result = Result(outcome: Outcome, row: Row, events: seq<Event>)

  function Refuse(row: Row, outcome: Outcome): Result {
    Result(outcome, row, [])
  }

  function Move(row: Row, kind: EventType, after: Status): Result {
    Result(Done, row.(status := after, version := row.version + 1), [Logged(kind, row.status, after)])
  }

  /** What a command does to an existing request. */
  function Perform(row: Row, command: Command): Result {
    match command
    case UpdateDraft(candidate, expectedVersion, claim) =>
      if row.candidate != candidate || !row.status.Draft? || row.version != expectedVersion then Refuse(row, Conflict)
      else Move(row.(claim := claim), DraftUpdated, Draft)
    case Submit(candidate, mode) =>
      if row.candidate != candidate then Refuse(row, NotFound)
      else if !row.status.Draft? then Refuse(row, Conflict)
      else if mode.None? then Refuse(row, Failed)
      else if mode.value.Auto? then
        Result(Done, row.(status := AttestationPending, version := row.version + 2),
               [Logged(RequestSubmitted, Draft, Submitted), Logged(AttestationDispatched, Submitted, AttestationPending)])
      else
        Result(Done, row.(status := Submitted, version := row.version + 1),
               [Logged(RequestSubmitted, Draft, Submitted), Logged(DispatchGuardBlocked, Submitted, Submitted)])
    case Cancel(candidate) =>
      if row.candidate != candidate then Refuse(row, NotFound)
      else if !row.status.Draft? && !row.status.Submitted? then Refuse(row, Conflict)
      else Move(row, RequestCanceled, Canceled)
    case Attest(employer, authorized, response, signature) =>
      if !authorized || row.employer != employer then Refuse(row, NotFound)
      else if !row.status.AttestationPending? then Refuse(row, Conflict)
      else if Rejecting(response) then Move(row.(response := Some(response)), HrAttested, Rejected)
      else if response.ResponseOther? then Refuse(row, Conflict)
      else if signature.None? then Refuse(row, Failed)
      else Move(row.(response := Some(response), jws := signature), HrAttested, Attested)
    case Verify(trust) =>
      if !row.status.Attested? then Refuse(row, Conflict)
      else Move(row.(trustResult := Some(trust)), TrustEvaluated, if trust.TrustUnverified? then Unverified else Verified)
    case Consume =>
      if row.status.Consumed? then Result(Done, row.(consumptions := row.consumptions + 1), [])
      else if !row.status.Verified? && !row.status.Unverified? then Refuse(row, Conflict)
      else Move(row.(consumptions := row.consumptions + 1), TokenConsumed, Consumed)
    case Close => if !row.status.Consumed? then Refuse(row, Conflict) else Move(row, RequestClosed, Closed)
  }

  // ---------------------------------------------------------------- what the log says about the row

  /** The edges of the workflow, by event. */
  predicate Edge(e: Event) {
    match e.kind
    case DraftCreated => e.before.None? && e.after.Draft?
    case DraftUpdated => e.before == Some(Draft) && e.after.Draft?
    case RequestSubmitted => e.before == Some(Draft) && e.after.Submitted?
    case AttestationDispatched => e.before == Some(Submitted) && e.after.AttestationPending?
    case DispatchGuardBlocked => e.before == Some(Submitted) && e.after.Submitted?
    case HrAttested => e.before == Some(AttestationPending) && (e.after.Attested? || e.after.Rejected?)
    case RequestCanceled => (e.before == Some(Draft) || e.before == Some(Submitted)) && e.after.Canceled?
    case TrustEvaluated => e.before == Some(Attested) && (e.after.Verified? || e.after.Unverified?)
    case TokenConsumed => (e.before == Some(Verified) || e.before == Some(Unverified)) && e.after.Consumed?
    case RequestClosed => e.before == Some(Consumed) && e.after.Closed?
  }

  /** The status a log leads to, if it is a chain of workflow edges from nothing. */
  function Replay(log: seq<Event>): Option<Status> {
    if log == [] then None
    else
      var before, e := log[..|log| - 1], log[|log| - 1];
      if Replay(before) == e.before && Edge(e) && (before == [] || e.before.Some?) then Some(e.after) else None
  }

  /** The logged events that come with a version increment. */
  function Increments(log: seq<Event>): nat {
    if log == [] then 0
    else
      var e := log[|log| - 1];
      Increments(log[..|log| - 1]) + if e.kind.DraftCreated? || e.kind.DispatchGuardBlocked? then 0 else 1
  }

  predicate Passed(log: seq<Event>, status: Status) {
    exists i :: 0 <= i < |log| && log[i].after == status
  }

  /** The row is what its log tells. */
  ghost predicate Consistent(row: Row, log: seq<Event>) {
    && Replay(log) == Some(row.status)
    && row.version == 1 + Increments(log)
    && (row.jws.Some? <==> Passed(log, Attested))
    && (row.response.Some? <==> Passed(log, Attested) || Passed(log, Rejected))
    && (row.trustResult.Some? <==> Passed(log, Verified) || Passed(log, Unverified))
    && (row.trustResult == Some(TrustUnverified) <==> Passed(log, Unverified))
    && (row.consumptions > 0 <==> Passed(log, Consumed))
  }

  /** How far a status is along the workflow. */
  function Rank(s: Status): nat {
    match s
    case Draft => 0
    case Submitted => 1
    case AttestationPending => 2
    case Attested => 3
    case Rejected => 3
    case Verified => 4
    case Unverified => 4
    case Consumed => 5
    case Closed => 6
    case Canceled => 7
  }

  /** The workflow only moves forward. */
  lemma {:induction false} RanksRise(log: seq<Event>, i: nat)
    requires Replay(log).Some? && i < |log|
    ensures Rank(log[i].after) <= Rank(Replay(log).value)
    ensures Rank(log[i].after) == Rank(Replay(log).value) ==> log[i].after == Replay(log).value
  {
    if i < |log| - 1 {
      RanksRise(log[..|log| - 1], i);
    }
  }

  lemma NotPassed(log: seq<Event>, status: Status)
    requires Replay(log).Some? && Rank(status) >= Rank(Replay(log).value) && status != Replay(log).value
    ensures !Passed(log, status)
  {
    forall i | 0 <= i < |log| ensures log[i].after != status {
      RanksRise(log, i);
    }
  }

  lemma LogStep(log: seq<Event>, e: Event)
    ensures forall x :: Passed(log + [e], x) <==> Passed(log, x) || e.after == x
    ensures Increments(log + [e]) == Increments(log) + if e.kind.DraftCreated? || e.kind.DispatchGuardBlocked? then 0 else 1
    ensures Replay(log) == e.before && Edge(e) && (log == [] || e.before.Some?) ==> Replay(log + [e]) == Some(e.after)
  {
    var grown := log + [e];
    assert grown[..|log|] == log;
    forall x ensures Passed(grown, x) <==> Passed(log, x) || e.after == x {
      if Passed(log, x) {
        var i :| 0 <= i < |log| && log[i].after == x;
        assert grown[i].after == x;
      }
      assert grown[|log|].after == e.after;
    }
  }

  lemma EventKeeps(row: Row, log: seq<Event>, next: Row, e: Event)
    requires Consistent(row, log) && e.before == Some(row.status) && Edge(e) && next.status == e.after
    requires next.version == row.version + if e.kind.DispatchGuardBlocked? then 0 else 1
    requires next.jws.Some? <==> row.jws.Some? || e.after.Attested?
    requires next.response.Some? <==> row.response.Some? || e.after.Attested? || e.after.Rejected?
    requires next.trustResult.Some? <==> row.trustResult.Some? || e.after.Verified? || e.after.Unverified?
    requires next.trustResult == Some(TrustUnverified) <==> row.trustResult == Some(TrustUnverified) || e.after.Unverified?
    requires next.consumptions > 0 <==> row.consumptions > 0 || e.after.Consumed?
    ensures Consistent(next, log + [e])
  {
    hide Passed, Replay, Increments;
    LogStep(log, e);
  }

  /** What has not happened to an attested request, and what has to a consumed one. */
  lemma StatusTells(row: Row, log: seq<Event>)
    requires Consistent(row, log)
    ensures row.status.Attested? ==> row.trustResult.None?
    ensures row.status.Consumed? ==> row.consumptions > 0
  {
    hide Passed, Replay, Increments;
    LastPassed(log);
    if row.status.Attested? {
      NotPassed(log, Verified);
      NotPassed(log, Unverified);
    }
  }

  /** Every command keeps the row and its log in step. */
  lemma PerformKeeps(row: Row, log: seq<Event>, command: Command)
    requires Consistent(row, log)
    ensures Consistent(Perform(row, command).row, log + Perform(row, command).events)
  {
    hide Consistent;
    var r := Perform(row, command);
    StatusTells(row, log);
    if r.events == [] {
      assert log + r.events == log;
      MoreReads(row, log, r.row.consumptions);
    } else if |r.events| == 1 {
      EventKeeps(row, log, r.row, r.events[0]);
      assert log + r.events == log + [r.events[0]];
    } else {
      var between := row.(status := Submitted, version := row.version + 1);
      EventKeeps(row, log, between, r.events[0]);
      EventKeeps(between, log + [r.events[0]], r.row, r.events[1]);
      assert log + r.events == log + [r.events[0]] + [r.events[1]];
    }
  }

  lemma MoreReads(row: Row, log: seq<Event>, n: nat)
    requires Consistent(row, log) && (n > 0 <==> row.consumptions > 0)
    ensures Consistent(row.(consumptions := n), log)
  {
  }

  lemma LastPassed(log: seq<Event>)
    requires Replay(log).Some?
    ensures log != [] && log[|log| - 1].after == Replay(log).value && Passed(log, Replay(log).value)
  {
  }

  // ---------------------------------------------------------------- every history of one request

  /** The row and log of a request after some commands. */
  function History(created: Row, commands: seq<Command>): (Row, seq<Event>) {
    if commands == [] then (created, [CREATED])
    else
      var (row, log) := History(created, commands[..|commands| - 1]);
      var r := Perform(row, commands[|commands| - 1]);
      (r.row, log + r.events)
  }

  /**
   * In every reachable state the log is a chain of workflow edges that leads to the row's status, the version has grown
   * once for each event other than the creation and a blocked dispatch, and a signature is present exactly when the
   * request has been attested.
   */
  lemma {:induction false} HistoryIsConsistent(candidate: string, employer: string, claim: string, commands: seq<Command>)
    ensures var (row, log) := History(NewDraft(candidate, employer, claim), commands); Consistent(row, log)
  {
    hide Consistent, Perform;
    if commands == [] {
      CreationIsConsistent(candidate, employer, claim);
    } else {
      HistoryIsConsistent(candidate, employer, claim, commands[..|commands| - 1]);
      var (row, log) := History(NewDraft(candidate, employer, claim), commands[..|commands| - 1]);
      PerformKeeps(row, log, commands[|commands| - 1]);
    }
  }

  lemma CreationIsConsistent(candidate: string, employer: string, claim: string)
    ensures Consistent(NewDraft(candidate, employer, claim), [CREATED])
  {
    LogStep([], CREATED);
    assert [] + [CREATED] == [CREATED];
  }

  /** Consecutive events of a log that replays fit together. */
  lemma {:induction false} LogIsChain(log: seq<Event>, i: nat)
    requires Replay(log).Some? && i < |log|
    ensures log[i].before == if i == 0 then None else Some(log[i - 1].after)
    ensures log[|log| - 1].after == Replay(log).value
  {
    if i < |log| - 1 {
      LogIsChain(log[..|log| - 1], i);
    }
  }

  predicate Terminal(s: Status) {
    s.Rejected? || s.Canceled? || s.Closed?
  }

  lemma TerminalRefuses(row: Row, command: Command)
    requires Terminal(row.status)
    ensures Perform(row, command).row == row && Perform(row, command).events == []
  {
  }

  /** A rejected, canceled or closed request never changes again. */
  lemma {:induction false} TerminalForGood(created: Row, commands: seq<Command>, k: nat)
    requires k <= |commands| && Terminal(History(created, commands[..k]).0.status)
    ensures History(created, commands) == History(created, commands[..k])
    decreases |commands|
  {
    hide Perform, Terminal;
    if k == |commands| {
      assert commands[..k] == commands;
    } else {
      var n := |commands| - 1;
      assert commands[..n][..k] == commands[..k];
      TerminalForGood(created, commands[..n], k);
      TerminalRefuses(History(created, commands[..n]).0, commands[n]);
      assert History(created, commands[..n]).1 + [] == History(created, commands[..n]).1;
    }
  }

  /** Two rows differ in nothing but the record of reads. */
  predicate SameButReads(a: Row, b: Row) {
    a.(consumptions := 0) == b.(consumptions := 0)
  }

  lemma {:induction false} VersionTells(created: Row, commands: seq<Command>, k: nat)
    requires k <= |commands|
    ensures var past, now := History(created, commands[..k]).0, History(created, commands).0;
      past.version <= now.version && (past.version == now.version ==> SameButReads(past, now))
    decreases |commands|
  {
    hide SameButReads, Perform;
    if k == |commands| {
      assert commands[..k] == commands;
      var now := History(created, commands).0;
      SameThrough(now, now, now);
    } else {
      var n := |commands| - 1;
      assert commands[..n][..k] == commands[..k];
      VersionTells(created, commands[..n], k);
      PerformVersion(History(created, commands[..n]).0, commands[n]);
      SameThrough(History(created, commands[..k]).0, History(created, commands[..n]).0, History(created, commands).0);
    }
  }

  lemma PerformVersion(row: Row, command: Command)
    ensures var after := Perform(row, command).row;
      row.version <= after.version && (row.version == after.version ==> SameButReads(row, after))
  {
  }

  lemma SameThrough(a: Row, b: Row, c: Row)
    ensures SameButReads(a, a)
    ensures SameButReads(a, b) && SameButReads(b, c) ==> SameButReads(a, c)
  {
  }

  /**
   * No lost update: a draft update that succeeds with the version read at an earlier point finds the row exactly as it was
   * read there.
   */
  lemma NoLostUpdate(created: Row, commands: seq<Command>, k: nat, candidate: string, claim: string)
    requires k <= |commands|
    requires var now := History(created, commands).0;
      var read := History(created, commands[..k]).0;
      Perform(now, UpdateDraft(candidate, read.version, claim)).outcome == Done
    ensures SameButReads(History(created, commands[..k]).0, History(created, commands).0)
  {
    VersionTells(created, commands, k);
  }

  // ---------------------------------------------------------------- the listed verification state

  datatype VerificationState = ListedVerified | ListedUnverified | ListedPending | ListedUnknown

  /** The classification the recruiter's list shows. */
  function Listed(row: Row): VerificationState {
    match row.status
    case Verified => ListedVerified
    case Unverified => ListedUnverified
    case Rejected => ListedUnverified
    case Draft => ListedPending
    case Submitted => ListedPending
    case AttestationPending => ListedPending
    case Attested => ListedPending
    case Canceled => ListedUnknown
    case _ =>
      if row.trustResult == Some(TrustVerified) || row.trustResult == Some(TrustVerifiedWithFlags) then ListedVerified
      else if row.trustResult == Some(TrustUnverified) then ListedUnverified
      else ListedUnknown
  }

  /**
   * Consuming or closing a request keeps its listed state, for every trust result of the trust contract. Any further
   * label of the enumeration is listed as verified and, once consumed, as unknown.
   */
  lemma ConsumeAndCloseKeepListing(created: Row, commands: seq<Command>, last: Command)
    requires created == NewDraft(created.candidate, created.employer, created.claim)
    requires last.Consume? || last.Close?
    requires Perform(History(created, commands).0, last).outcome == Done
    ensures var row := History(created, commands).0;
      row.trustResult.Some? &&
      (Listed(Perform(row, last).row) == Listed(row) <==> !(row.status.Verified? && row.trustResult.value.TrustOther?))
  {
    HistoryIsConsistent(created.candidate, created.employer, created.claim, commands);
    var (row, log) := History(created, commands);
    PassedBefore(row, log);
  }

  /** What the status alone tells about the trust result. */
  lemma PassedBefore(row: Row, log: seq<Event>)
    requires Consistent(row, log)
    ensures row.status.Verified? || row.status.Unverified? || row.status.Consumed? || row.status.Closed? ==> row.trustResult.Some?
    ensures row.status.Verified? ==> row.trustResult != Some(TrustUnverified)
    ensures row.status.Unverified? ==> row.trustResult == Some(TrustUnverified)
  {
    LastPassed(log);
    if row.status.Verified? {
      NotPassed(log, Unverified);
    }
    if row.status.Consumed? {
      ConsumedPassed(log, |log| - 1);
    }
    if row.status.Closed? {
      LogIsChain(log, |log| - 2);
      ConsumedPassed(log, |log| - 2);
    }
  }

  lemma ConsumedPassed(log: seq<Event>, i: nat)
    requires Replay(log).Some? && i < |log| && log[i].after.Consumed?
    ensures Passed(log, Verified) || Passed(log, Unverified)
  {
  }

  /**
   * A history that reaches the exception: a trust result outside the contract is listed as verified, and as unknown once
   * the request is consumed.
   */
  lemma ForeignTrustResultIsReached(candidate: string, employer: string, claim: string, signature: string, other: string)
    ensures var created := NewDraft(candidate, employer, claim);
      var commands := [Submit(candidate, Some(Auto)), Attest(employer, true, FullMatch, Some(signature)), Verify(TrustOther(other))];
      var row := History(created, commands).0;
      && row.status == Verified && Listed(row) == ListedVerified
      && Perform(row, Consume).outcome == Done && Listed(Perform(row, Consume).row) == ListedUnknown
  {
    var created := NewDraft(candidate, employer, claim);
    var submit, attest, verify :=
      Submit(candidate, Some(Auto)), Attest(employer, true, FullMatch, Some(signature)), Verify(TrustOther(other));
    HistoryStep(created, [], submit);
    HistoryStep(created, [submit], attest);
    HistoryStep(created, [submit] + [attest], verify);
    assert [] + [submit] == [submit];
    assert [submit] + [attest] + [verify] == [submit, attest, verify];
  }

  lemma HistoryStep(created: Row, commands: seq<Command>, last: Command)
    ensures History(created, commands + [last]).0 == Perform(History(created, commands).0, last).row
    ensures History(created, commands + [last]).1 == History(created, commands).1 + Perform(History(created, commands).0, last).events
  {
    assert (commands + [last])[..|commands|] == commands;
  }

  // ---------------------------------------------------------------- dispatch

  lemma SubmittedStep(row: Row, command: Command)
    ensures row.status.Submitted? ==>
      var after := Perform(row, command).row.status; after.Submitted? || after.Canceled?
    ensures row.status.Canceled? ==> Perform(row, command).row.status.Canceled?
  {
  }

  /** A request that was submitted and not dispatched stays SUBMITTED until it is canceled: nothing dispatches it later. */
  lemma {:induction false} SubmittedUntilCanceled(created: Row, commands: seq<Command>, k: nat)
    requires k <= |commands| && History(created, commands[..k]).0.status.Submitted?
    ensures var status := History(created, commands).0.status; status.Submitted? || status.Canceled?
    decreases |commands|
  {
    hide Perform;
    if k == |commands| {
      assert commands[..k] == commands;
    } else {
      var n := |commands| - 1;
      assert commands[..n][..k] == commands[..k];
      SubmittedUntilCanceled(created, commands[..n], k);
      SubmittedStep(History(created, commands[..n]).0, commands[n]);
    }
  }

  /** The command is a submit that went through, with this dispatch mode. */
  predicate SubmitsIn(row: Row, command: Command, mode: Dispatch) {
    command.Submit? && command.mode == Some(mode) && Perform(row, command).outcome == Done
  }

  lemma DispatchStep(row: Row, log: seq<Event>, command: Command)
    ensures var r := Perform(row, command);
      Passed(log + r.events, AttestationPending) <==> Passed(log, AttestationPending) || SubmitsIn(row, command, Auto)
  {
    hide Replay, Increments, Passed;
    var r := Perform(row, command);
    if r.events == [] {
      assert log + r.events == log;
    } else if |r.events| == 1 {
      LogStep(log, r.events[0]);
      assert log + r.events == log + [r.events[0]];
    } else {
      LogStep(log, r.events[0]);
      LogStep(log + [r.events[0]], r.events[1]);
      assert log + r.events == log + [r.events[0]] + [r.events[1]];
    }
  }

  /** Some submit in the list went through in AUTO mode. */
  predicate AutoSubmitted(created: Row, commands: seq<Command>) {
    exists i :: 0 <= i < |commands| && SubmitsIn(History(created, commands[..i]).0, commands[i], Auto)
  }

  lemma AutoSubmittedStep(created: Row, commands: seq<Command>)
    requires commands != []
    ensures var n := |commands| - 1;
      AutoSubmitted(created, commands) <==>
      AutoSubmitted(created, commands[..n]) || SubmitsIn(History(created, commands[..n]).0, commands[n], Auto)
  {
    hide History, SubmitsIn;
    var n := |commands| - 1;
    var before := commands[..n];
    forall i | 0 <= i < n ensures before[i] == commands[i] && before[..i] == commands[..i] {
    }
    if AutoSubmitted(created, before) {
      var i :| 0 <= i < n && SubmitsIn(History(created, before[..i]).0, before[i], Auto);
      assert SubmitsIn(History(created, commands[..i]).0, commands[i], Auto);
    }
    if AutoSubmitted(created, commands) {
      var i :| 0 <= i < |commands| && SubmitsIn(History(created, commands[..i]).0, commands[i], Auto);
      assert i < n ==> SubmitsIn(History(created, before[..i]).0, before[i], Auto);
    }
  }

  /** A request is dispatched for attestation exactly when the submit that went through ran in AUTO mode. */
  lemma {:induction false} DispatchedIffAuto(candidate: string, employer: string, claim: string, commands: seq<Command>)
    ensures var created := NewDraft(candidate, employer, claim);
      Passed(History(created, commands).1, AttestationPending) <==> AutoSubmitted(created, commands)
  {
    hide Perform, SubmitsIn, Passed, AutoSubmitted;
    var created := NewDraft(candidate, employer, claim);
    if commands == [] {
      CreatedIsNotDispatched();
      assert !AutoSubmitted(created, []) by {
        NothingSubmitted(created);
      }
    } else {
      var n := |commands| - 1;
      DispatchedIffAuto(candidate, employer, claim, commands[..n]);
      DispatchStep(History(created, commands[..n]).0, History(created, commands[..n]).1, commands[n]);
      AutoSubmittedStep(created, commands);
    }
  }

  lemma NothingSubmitted(created: Row)
    ensures !AutoSubmitted(created, [])
  {
  }

  lemma CreatedIsNotDispatched()
    ensures !Passed([CREATED], AttestationPending)
  {
  }

  /** At most one submit goes through, so its mode is the one that counts. */
  lemma SubmittedOnce(created: Row, commands: seq<Command>, i: nat, j: nat, a: Dispatch, b: Dispatch)
    requires i < j < |commands|
    requires SubmitsIn(History(created, commands[..i]).0, commands[i], a)
    ensures !SubmitsIn(History(created, commands[..j]).0, commands[j], b)
  {
    var k := i + 1;
    assert commands[..k][..i] == commands[..i];
    HistoryStep(created, commands[..i], commands[i]);
    assert commands[..i] + [commands[i]] == commands[..k];
    assert commands[..j][..k] == commands[..k];
    LeftDraft(created, commands[..j], k);
  }

  lemma {:induction false} LeftDraft(created: Row, commands: seq<Command>, k: nat)
    requires k <= |commands| && !History(created, commands[..k]).0.status.Draft?
    ensures !History(created, commands).0.status.Draft?
    decreases |commands|
  {
    if k == |commands| {
      assert commands[..k] == commands;
    } else {
      var n := |commands| - 1;
      assert commands[..n][..k] == commands[..k];
      LeftDraft(created, commands[..n], k);
    }
  }
}
