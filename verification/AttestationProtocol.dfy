/**
 * Attestations among grants and revocations: `EmployerAttestServerSigned` of internal/evt/repo.go authorizes its reviewer
 * first, then locks the request's row, decides and commits, all in one transaction that keeps the shared lock of
 * `Authorize` to its end. Here that transaction runs interleaved with every other one of the assignment protocol.
 */
module AttestationProtocol {
  import opened Common
  import opened Assignments
  import opened AssignmentProtocol
  import opened RequestWorkflow

  /** An attestation under way: the request it has locked, and what it is about to write once it has decided. */
  datatype Ticket = Ticket(id: nat, decision: Option<Decision>)

  datatype Decision = Decision(response: ResponseType, signature: Option<string>)

  /** A committed attestation. */
  datatype Attestation = Attestation(principal: string, employer: string, id: nat)

  datatype Joint = Joint(access: System, rows: map<nat, Row>, tickets: map<nat, Ticket>, attested: seq<Attestation>)

  datatype Move =
    | Access(step: Step)
    | LockRequest(id: nat)
    | Decide(decision: Decision)
    | Other(id: nat, command: Command)
    | Create(id: nat, candidate: string, employer: string, claim: string)

  datatype Doing = Doing(client: nat, move: Move)

  function Start(): Joint {
    Joint(AssignmentProtocol.Initial(), map[], map[], [])
  }

  function AttestBy(employer: string, decision: Decision): Command {
    Attest(employer, true, decision.response, decision.signature)
  }

  predicate Locked(j: Joint, id: nat) {
    exists c :: c in j.tickets && j.tickets[c].id == id
  }

  predicate Possible(j: Joint, c: nat, move: Move) {
    var phase := PhaseOf(j.access, c);
    match move
    case Access(step) => Enabled(j.access, c, step)
    case LockRequest(id) =>
      phase.Authorized? && c !in j.tickets && id in j.rows && j.rows[id].employer == phase.employer && !Locked(j, id)
    case Decide(decision) =>
      phase.Authorized? && c in j.tickets && j.tickets[c].decision.None? && j.tickets[c].id in j.rows &&
      Perform(j.rows[j.tickets[c].id], AttestBy(phase.employer, decision)).outcome == Done
    case Other(id, command) => id in j.rows && !Locked(j, id) && !command.Attest?
    case Create(id, _, _, _) => id !in j.rows
  }

  /** The client is about to commit a decided attestation. */
  predicate Attesting(j: Joint, c: nat) {
    c in j.tickets && j.tickets[c].decision.Some? && j.tickets[c].id in j.rows && PhaseOf(j.access, c).Authorized?
  }

  function Next(j: Joint, c: nat, move: Move): Joint
    requires Possible(j, c, move)
  {
    var phase := PhaseOf(j.access, c);
    match move
    case Access(step) =>
      var access := Apply(j.access, c, step);
      if step.Commit? && Attesting(j, c) then
        var ticket := j.tickets[c];
        Joint(access, j.rows[ticket.id := Perform(j.rows[ticket.id], AttestBy(phase.employer, ticket.decision.value)).row],
              j.tickets - {c}, j.attested + [Attestation(phase.principal, phase.employer, ticket.id)])
      else if step.Commit? || step.Abort? then j.(access := access, tickets := j.tickets - {c})
      else j.(access := access)
    case LockRequest(id) => j.(tickets := j.tickets[c := Ticket(id, None)])
    case Decide(decision) => j.(tickets := j.tickets[c := j.tickets[c].(decision := Some(decision))])
    case Other(id, command) => j.(rows := j.rows[id := Perform(j.rows[id], command).row])
    case Create(id, candidate, employer, claim) => j.(rows := j.rows[id := NewDraft(candidate, employer, claim)])
  }

  /** The joint state after some moves, or `None` if one of them was not possible. */
  function Course(doings: seq<Doing>): Option<Joint> {
    if doings == [] then Some(Start())
    else
      var j := Course(doings[..|doings| - 1]);
      var d := doings[|doings| - 1];
      if j.None? || !Possible(j.value, d.client, d.move) then None else Some(Next(j.value, d.client, d.move))
  }

  lemma CourseStep(doings: seq<Doing>, d: Doing)
    ensures Course(doings + [d]) ==
      if Course(doings).None? || !Possible(Course(doings).value, d.client, d.move) then None
      else Some(Next(Course(doings).value, d.client, d.move))
  {
    assert (doings + [d])[..|doings|] == doings;
  }

  // ---------------------------------------------------------------- the part the assignment protocol sees

  function AccessOnly(doings: seq<Doing>): seq<Action> {
    if doings == [] then []
    else
      var d := doings[|doings| - 1];
      AccessOnly(doings[..|doings| - 1]) + if d.move.Access? then [Action(d.client, d.move.step)] else []
  }

  lemma {:induction false} AccessIsRun(doings: seq<Doing>)
    requires Course(doings).Some?
    ensures Run(AccessOnly(doings)) == Some(Course(doings).value.access)
  {
    hide Enabled, Apply, Perform, Locked, Attesting;
    if doings != [] {
      var n := |doings| - 1;
      AccessIsRun(doings[..n]);
      if doings[n].move.Access? {
        RunStep(AccessOnly(doings[..n]), Action(doings[n].client, doings[n].move.step));
      } else {
        assert AccessOnly(doings[..n]) + [] == AccessOnly(doings[..n]);
      }
    }
  }

  lemma {:induction false} AccessOfMore(doings: seq<Doing>, more: seq<Doing>)
    ensures AccessOnly(doings + more) == AccessOnly(doings) + AccessOnly(more)
  {
    if more == [] {
      assert doings + more == doings && AccessOnly(doings) + [] == AccessOnly(doings);
    } else {
      var n := |more| - 1;
      AccessOfMore(doings, more[..n]);
      assert (doings + more)[..|doings| + n] == doings + more[..n] && (doings + more)[|doings| + n] == more[n];
      assert |doings + more| - 1 == |doings| + n;
    }
  }

  // ---------------------------------------------------------------- what an attestation relies on

  /** A client with a request locked is still authorized for its employer, and a decision still fits the request. */
  ghost predicate TicketHolds(j: Joint, c: nat) {
    c in j.tickets ==>
      var phase, ticket := PhaseOf(j.access, c), j.tickets[c];
      && phase.Authorized? && ticket.id in j.rows && j.rows[ticket.id].employer == phase.employer
      && (ticket.decision.Some? ==>
            Perform(j.rows[ticket.id], AttestBy(phase.employer, ticket.decision.value)).outcome == Done)
  }

  ghost predicate Alone(j: Joint) {
    forall c, d :: c in j.tickets && d in j.tickets && c != d ==> j.tickets[c].id != j.tickets[d].id
  }

  ghost predicate Good(j: Joint) {
    Alone(j) && forall c :: TicketHolds(j, c)
  }

  lemma AccessSteps(s: System, c: nat, step: Step)
    requires Enabled(s, c, step)
    ensures forall d: nat :: d != c ==> PhaseOf(Apply(s, c, step), d) == PhaseOf(s, d)
    ensures PhaseOf(s, c).Authorized? && !step.Commit? && !step.Abort? ==> PhaseOf(Apply(s, c, step), c) == PhaseOf(s, c)
  {
    OthersStay(s, c, step);
  }

  lemma EmployerStays(row: Row, command: Command)
    ensures Perform(row, command).row.employer == row.employer
  {
  }

  lemma GoodKept(j: Joint, c: nat, move: Move)
    requires Good(j) && Possible(j, c, move)
    ensures Good(Next(j, c, move))
  {
    hide Perform, Enabled, Apply, PhaseOf;
    var next := Next(j, c, move);
    assert TicketHolds(j, c);
    if move.Access? {
      AccessSteps(j.access, c, move.step);
    }
    if move.Other? {
      EmployerStays(j.rows[move.id], move.command);
    }
    forall d ensures TicketHolds(next, d) {
      assert TicketHolds(j, d);
      if d in j.tickets && move.Access? && move.step.Commit? && Attesting(j, c) && d != c {
        assert j.tickets[d].id != j.tickets[c].id;
      }
    }
  }

  lemma {:induction false} GoodCourse(doings: seq<Doing>)
    requires Course(doings).Some?
    ensures Good(Course(doings).value)
  {
    hide Good, Possible, Next;
    if doings == [] {
      GoodAtStart();
    } else {
      var n := |doings| - 1;
      GoodCourse(doings[..n]);
      GoodKept(Course(doings[..n]).value, doings[n].client, doings[n].move);
    }
  }

  lemma GoodAtStart()
    ensures Good(Start())
  {
  }

  // ---------------------------------------------------------------- what every course guarantees

  /**
   * An attestation that commits is of a pending request of its employer, and at that very moment its reviewer is active
   * and has an active grant for that employer.
   */
  lemma AttestedWhileAllowed(doings: seq<Doing>, c: nat)
    requires Course(doings).Some? && Attesting(Course(doings).value, c)
    ensures Possible(Course(doings).value, c, Access(Commit))
    ensures var j := Course(doings).value;
      var phase, id := PhaseOf(j.access, c), j.tickets[c].id;
      var next := Next(j, c, Access(Commit));
      && Allowed(j.access.tables, phase.principal, phase.employer)
      && next.attested == j.attested + [Attestation(phase.principal, phase.employer, id)]
      && j.rows[id].employer == phase.employer && j.rows[id].status.AttestationPending?
      && (next.rows[id].status.Attested? || next.rows[id].status.Rejected?)
  {
    var j := Course(doings).value;
    GoodCourse(doings);
    AccessIsRun(doings);
    assert TicketHolds(j, c);
    AuthorizedHolds(AccessOnly(doings), c);
    hide Course, Run, Good, Allowed;
  }

  lemma CourseLast(doings: seq<Doing>, more: seq<Doing>)
    requires more != []
    ensures doings + more == (doings + more[..|more| - 1]) + [more[|more| - 1]]
  {
  }

  lemma AttestedStep(j: Joint, d: Doing)
    requires Possible(j, d.client, d.move)
    ensures var next := Next(j, d.client, d.move);
      next.attested == j.attested ||
      (d.move == Access(Commit) && Attesting(j, d.client) &&
       next.attested == j.attested + [Attestation(PhaseOf(j.access, d.client).principal, PhaseOf(j.access, d.client).employer,
                                                 j.tickets[d.client].id)])
  {
    hide Enabled, Apply, Perform, Locked, PhaseOf;
  }

  /** After a state without an active grant, and as long as none commits, no attestation for the pair commits. */
  lemma {:induction false} NoGrantNoAttestation(doings: seq<Doing>, more: seq<Doing>, principal: string, employer: string, k: nat)
    requires Course(doings + more).Some? && Course(doings).Some?
    requires !Granted(Course(doings).value.access.tables, principal, employer)
    requires !SomeGrantCommits(AccessOnly(doings), AccessOnly(more), principal, employer)
    requires |Course(doings).value.attested| <= k < |Course(doings + more).value.attested|
    ensures var a := Course(doings + more).value.attested[k]; a.principal != principal || a.employer != employer
    decreases |more|
  {
    hide Course, Run, Possible, Next, Granted, SomeGrantCommits, AccessOnly;
    assert more == [] ==> doings + more == doings;
    if more != [] {
      var n := |more| - 1;
      var before, last := more[..n], more[n];
      CourseLast(doings, more);
      CourseStep(doings + before, last);
      if SomeGrantCommits(AccessOnly(doings), AccessOnly(before), principal, employer) {
        MoreGrants(doings, more, principal, employer);
      }
      var j := Course(doings + before).value;
      AttestedStep(j, last);
      if k < |j.attested| {
        NoGrantNoAttestation(doings, before, principal, employer, k);
      } else {
        AttestedWhileAllowed(doings + before, last.client);
        StillNotGranted(doings, before, principal, employer);
        NotAllowed(j.access.tables, principal, employer);
      }
    }
  }

  lemma NotAllowed(t: Tables, principal: string, employer: string)
    requires !Granted(t, principal, employer)
    ensures !Allowed(t, principal, employer)
  {
  }

  lemma StillNotGranted(doings: seq<Doing>, more: seq<Doing>, principal: string, employer: string)
    requires Course(doings + more).Some? && Course(doings).Some?
    requires !Granted(Course(doings).value.access.tables, principal, employer)
    requires !SomeGrantCommits(AccessOnly(doings), AccessOnly(more), principal, employer)
    ensures !Granted(Course(doings + more).value.access.tables, principal, employer)
  {
    hide Course, Run, Granted, SomeGrantCommits, GrantedIn;
    AccessIsRun(doings);
    AccessIsRun(doings + more);
    AccessOfMore(doings, more);
    GrantedExactly(AccessOnly(doings), AccessOnly(more), principal, employer);
    if GrantedIn(AccessOnly(doings), AccessOnly(more), principal, employer) {
      GrantedNeedsGrant(AccessOnly(doings), AccessOnly(more), principal, employer);
    }
  }

  lemma MoreGrants(doings: seq<Doing>, more: seq<Doing>, principal: string, employer: string)
    requires more != [] && SomeGrantCommits(AccessOnly(doings), AccessOnly(more[..|more| - 1]), principal, employer)
    ensures SomeGrantCommits(AccessOnly(doings), AccessOnly(more), principal, employer)
  {
    hide Run, CommitsGrant;
    var all, some := AccessOnly(more), AccessOnly(more[..|more| - 1]);
    assert some <= all;
    forall i | 0 <= i < |some| ensures all[i] == some[i] && all[..i] == some[..i] {
    }
    var i :| 0 <= i < |some| && Run(AccessOnly(doings) + some[..i]).Some? &&
      CommitsGrant(Run(AccessOnly(doings) + some[..i]).value, some[i], principal, employer);
    assert CommitsGrant(Run(AccessOnly(doings) + all[..i]).value, all[i], principal, employer);
  }

  /**
   * Once the revocation of the only active grant has committed, no attestation of that reviewer for that employer commits
   * any more, in any interleaving, unless a new grant commits first; not even one that was under way before.
   */
  lemma NoAttestationAfterRevocation(doings: seq<Doing>, d: nat, more: seq<Doing>, principal: string, employer: string, k: nat)
    requires Course(doings).Some?
    requires var s, phase := Course(doings).value.access, PhaseOf(Course(doings).value.access, d);
      phase.Wrote? && phase.op.RevokeGrant? && ActiveGrant(s.tables, phase.op.id, principal, employer)
    requires var revoked := doings + [Doing(d, Access(Commit))];
      && Course(revoked + more).Some? && !SomeGrantCommits(AccessOnly(revoked), AccessOnly(more), principal, employer)
      && |Course(doings).value.attested| <= k < |Course(revoked + more).value.attested|
    ensures var a := Course(doings + [Doing(d, Access(Commit))] + more).value.attested[k];
      a.principal != principal || a.employer != employer
  {
    RevokedCourse(doings, d, principal, employer);
    hide Course, Run, Possible, Next, Granted, SomeGrantCommits, AccessOnly;
    NoGrantNoAttestation(doings + [Doing(d, Access(Commit))], more, principal, employer, k);
  }

  lemma RevokedCourse(doings: seq<Doing>, d: nat, principal: string, employer: string)
    requires Course(doings).Some?
    requires var s, phase := Course(doings).value.access, PhaseOf(Course(doings).value.access, d);
      phase.Wrote? && phase.op.RevokeGrant? && ActiveGrant(s.tables, phase.op.id, principal, employer)
    ensures var revoked := Course(doings + [Doing(d, Access(Commit))]);
      && revoked.Some? && !Granted(revoked.value.access.tables, principal, employer)
      && revoked.value.attested == Course(doings).value.attested
  {
    AccessIsRun(doings);
    InvariantOfRuns(AccessOnly(doings));
    CourseStep(doings, Doing(d, Access(Commit)));
    hide Course, Run, Exclusion, Minted, Granted;
    var s := Course(doings).value.access;
    assert Relies(s.tables, PhaseOf(s, d));
    RevokedIsNotAllowed(s.tables, PhaseOf(s, d).op, PhaseOf(s, d).pending, principal, employer);
  }

  // ---------------------------------------------------------------- an attestation goes through

  /** Nobody else takes away what a client with a locked request has. */
  lemma HeldStays(j: Joint, c: nat, d: Doing)
    requires Good(j) && Possible(j, d.client, d.move) && d.client != c && c in j.tickets
    ensures var next := Next(j, d.client, d.move);
      && c in next.tickets && next.tickets[c] == j.tickets[c] && PhaseOf(next.access, c) == PhaseOf(j.access, c)
      && j.tickets[c].id in j.rows && j.tickets[c].id in next.rows && next.rows[j.tickets[c].id] == j.rows[j.tickets[c].id]
  {
    assert TicketHolds(j, c);
    if d.move.Access? {
      AccessSteps(j.access, d.client, d.move.step);
    }
    assert d.client in j.tickets ==> j.tickets[d.client].id != j.tickets[c].id;
    hide Perform, Enabled, Apply, PhaseOf, TicketHolds;
  }

  ghost predicate OfOthers(more: seq<Doing>, c: nat) {
    forall i :: 0 <= i < |more| ==> more[i].client != c
  }

  lemma {:induction false} HeldThroughout(doings: seq<Doing>, more: seq<Doing>, c: nat)
    requires Course(doings).Some? && Course(doings + more).Some? && OfOthers(more, c)
    requires c in Course(doings).value.tickets
    ensures var j, after := Course(doings).value, Course(doings + more).value;
      && c in after.tickets && after.tickets[c] == j.tickets[c] && PhaseOf(after.access, c) == PhaseOf(j.access, c)
      && j.tickets[c].id in j.rows && j.tickets[c].id in after.rows && after.rows[j.tickets[c].id] == j.rows[j.tickets[c].id]
    decreases |more|
  {
    hide Course, Good, Possible, Next, PhaseOf;
    GoodCourse(doings);
    if more == [] {
      assert doings + more == doings;
      HeldRow(Course(doings).value, c);
    } else {
      var n := |more| - 1;
      CourseLast(doings, more);
      CourseStep(doings + more[..n], more[n]);
      HeldThroughout(doings, more[..n], c);
      GoodCourse(doings + more[..n]);
      HeldStays(Course(doings + more[..n]).value, c, more[n]);
    }
  }

  lemma HeldRow(j: Joint, c: nat)
    requires Good(j) && c in j.tickets
    ensures j.tickets[c].id in j.rows
  {
    assert TicketHolds(j, c);
  }

  /** What a reviewer may decide: a rejection, or a match with a signature. */
  predicate Decidable(decision: Decision) {
    Rejecting(decision.response) || (!decision.response.ResponseOther? && decision.signature.Some?)
  }

  /** An authorized client locks a pending request and, after any moves of others, decides it. */
  lemma DecisionGoesThrough(doings: seq<Doing>, before: seq<Doing>, c: nat, id: nat, decision: Decision)
    requires Course(doings).Some? && OfOthers(before, c) && Decidable(decision)
    requires var j := Course(doings).value;
      && PhaseOf(j.access, c).Authorized? && c !in j.tickets && id in j.rows && !Locked(j, id)
      && j.rows[id].employer == PhaseOf(j.access, c).employer && j.rows[id].status.AttestationPending?
    requires Course(doings + [Doing(c, LockRequest(id))] + before).Some?
    ensures var j, decided := Course(doings).value, Course(doings + [Doing(c, LockRequest(id))] + before + [Doing(c, Decide(decision))]);
      && decided.Some? && c in decided.value.tickets && decided.value.tickets[c] == Ticket(id, Some(decision))
      && PhaseOf(decided.value.access, c) == PhaseOf(j.access, c)
      && id in decided.value.rows && decided.value.rows[id] == j.rows[id]
  {
    var locked := doings + [Doing(c, LockRequest(id))];
    CourseStep(doings, Doing(c, LockRequest(id)));
    HeldThroughout(locked, before, c);
    CourseStep(locked + before, Doing(c, Decide(decision)));
    hide Course, Locked, OfOthers;
  }

  /**
   * And it can: an authorized client that locks a pending request attests it, whatever other clients do before it decides
   * and before it commits, revocations of its own grant included: they cannot commit before it does.
   */
  lemma AttestationGoesThrough(doings: seq<Doing>, before: seq<Doing>, after: seq<Doing>, c: nat, id: nat, decision: Decision)
    requires Course(doings).Some? && OfOthers(before, c) && OfOthers(after, c) && Decidable(decision)
    requires var j := Course(doings).value;
      && PhaseOf(j.access, c).Authorized? && c !in j.tickets && id in j.rows && !Locked(j, id)
      && j.rows[id].employer == PhaseOf(j.access, c).employer && j.rows[id].status.AttestationPending?
    requires Course(doings + [Doing(c, LockRequest(id))] + before).Some?
    ensures var j := Course(doings).value;
      var decided := doings + [Doing(c, LockRequest(id))] + before + [Doing(c, Decide(decision))];
      var phase := PhaseOf(j.access, c);
      && Course(decided).Some?
      && (Course(decided + after).Some? ==>
            var now := Course(decided + after).value;
            && Possible(now, c, Access(Commit)) && Allowed(now.access.tables, phase.principal, phase.employer)
            && Next(now, c, Access(Commit)).attested == now.attested + [Attestation(phase.principal, phase.employer, id)]
            && id in Next(now, c, Access(Commit)).rows
            && Next(now, c, Access(Commit)).rows[id].status == if Rejecting(decision.response) then Rejected else Attested)
  {
    DecisionGoesThrough(doings, before, c, id, decision);
    var decided := doings + [Doing(c, LockRequest(id))] + before + [Doing(c, Decide(decision))];
    if Course(decided + after).Some? {
      HeldThroughout(decided, after, c);
      AttestedWhileAllowed(decided + after, c);
      AttestedRow(Course(decided + after).value, c, id, decision);
    }
    hide Course, Locked, OfOthers, Possible, Next, Allowed;
  }

  lemma AttestedRow(j: Joint, c: nat, id: nat, decision: Decision)
    requires Possible(j, c, Access(Commit)) && Attesting(j, c) && j.tickets[c] == Ticket(id, Some(decision)) && Decidable(decision)
    requires j.rows[id].employer == PhaseOf(j.access, c).employer && j.rows[id].status.AttestationPending?
    ensures id in Next(j, c, Access(Commit)).rows
    ensures Next(j, c, Access(Commit)).rows[id].status == if Rejecting(decision.response) then Rejected else Attested
  {
    hide Enabled, Apply, PhaseOf;
  }
}
