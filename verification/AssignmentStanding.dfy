/**
 * Who may act for an employer, told from the rows alone, and what becomes of a reviewer whose account is disabled or
 * loses the role: internal/employeraccess/assignments.go and migration 000014, over all runs of the protocols.
 */
module AssignmentStanding {
  import opened Common
  import opened Text
  import opened Assignments
  import opened AssignmentProtocol
  import A = AttestationProtocol
  import RequestWorkflow

  // ---------------------------------------------------------------- row by row

  /** The principal's row is active and has the reviewer role. */
  predicate InOffice(t: Tables, principal: string) {
    principal in t.principals && t.principals[principal] == Principal(true, true)
  }

  /** A row assigns the principal to the employer and has not been revoked. */
  predicate Assigned(t: Tables, principal: string, employer: string) {
    exists id :: id in t.assignments &&
      var a := t.assignments[id];
      a.principal == principal && a.employer == employer && a.revocation == None
  }

  lemma AssignedIsGranted(t: Tables, principal: string, employer: string)
    ensures Assigned(t, principal, employer) <==> Granted(t, principal, employer)
  {
    if id :| id in t.assignments && ActiveGrant(t, id, principal, employer) {
      assert t.assignments[id].principal == principal;
    }
    if Assigned(t, principal, employer) {
      var id :| id in t.assignments && t.assignments[id].principal == principal && t.assignments[id].employer == employer
        && t.assignments[id].revocation == None;
      assert ActiveGrant(t, id, principal, employer);
    }
  }

  /** A reviewer is allowed to act for an employer exactly with an active row, the role and an unrevoked assignment. */
  lemma AllowedExactly(t: Tables, principal: string, employer: string)
    ensures Allowed(t, principal, employer) <==> InOffice(t, principal) && Assigned(t, principal, employer)
  {
    AssignedIsGranted(t, principal, employer);
  }

  /** When a grant and a revocation go through: a revocation does not ask for the standing of the principal. */
  lemma ChangesExactly(t: Tables, principal: string, employer: string, actor: string, basis: string, id: nat)
    ensures GoesThrough(t, GrantTo(principal, employer, actor, basis)) <==>
      && TrimSpace(actor) != "" && TrimSpace(basis) != "" && TrimSpace(employer) != ""
      && InOffice(t, principal) && employer in t.employers && !Assigned(t, principal, employer)
    ensures GoesThrough(t, RevokeGrant(id, actor, basis)) <==>
      && TrimSpace(actor) != "" && TrimSpace(basis) != ""
      && id in t.assignments && t.assignments[id].principal in t.principals && t.assignments[id].revocation == None
  {
    hide TrimSpace;
    AssignedIsGranted(t, principal, employer);
  }

  /** And what they write: one new row, or a revocation added to one row. */
  lemma ChangesWrite(t: Tables, principal: string, employer: string, actor: string, basis: string, id: nat, next: nat)
    ensures GoesThrough(t, GrantTo(principal, employer, actor, basis)) ==>
      Written(t, GrantTo(principal, employer, actor, basis), next) ==
      Tables(t.principals, t.employers, t.assignments[next := Assignment(principal, employer, actor, basis, None)])
    ensures GoesThrough(t, RevokeGrant(id, actor, basis)) ==>
      var a := t.assignments[id];
      Written(t, RevokeGrant(id, actor, basis), next) ==
      Tables(t.principals, t.employers,
             t.assignments[id := Assignment(a.principal, a.employer, a.grantedBy, a.basis, Some(Revocation(actor, basis)))])
  {
    hide TrimSpace;
  }

  // ---------------------------------------------------------------- over runs

  /** A client that was authorized stands on an active reviewer row and an unrevoked assignment until its transaction ends. */
  lemma AuthorizedStands(actions: seq<Action>, c: nat)
    requires Run(actions).Some? && PhaseOf(Run(actions).value, c).Authorized?
    ensures var t, phase := Run(actions).value.tables, PhaseOf(Run(actions).value, c);
      && phase.principal in t.principals && t.principals[phase.principal].active && t.principals[phase.principal].reviewer
      && exists id :: id in t.assignments && t.assignments[id].principal == phase.principal
           && t.assignments[id].employer == phase.employer && t.assignments[id].revocation.None?
  {
    AuthorizedHolds(actions, c);
    var t, phase := Run(actions).value.tables, PhaseOf(Run(actions).value, c);
    AllowedExactly(t, phase.principal, phase.employer);
    hide Run, Allowed;
  }

  /** None of the actions writes an active reviewer row for the principal. */
  ghost predicate NotRestored(more: seq<Action>, principal: string) {
    forall i :: 0 <= i < |more| && more[i].step.SetPrincipal? && more[i].step.principal == principal ==>
      !(more[i].step.row.active && more[i].step.row.reviewer)
  }

  lemma OutOfOfficeStep(s: System, a: Action, principal: string)
    requires Enabled(s, a.client, a.step) && !InOffice(s.tables, principal)
    requires a.step.SetPrincipal? && a.step.principal == principal ==> !(a.step.row.active && a.step.row.reviewer)
    ensures !InOffice(Apply(s, a.client, a.step).tables, principal)
  {
    hide GoesThrough, Allowed, WellPosed, ExclusiveElsewhere, LockedElsewhere;
  }

  /** A principal that is not an active reviewer does not become one until its row is written so. */
  lemma {:induction false} StaysOutOfOffice(actions: seq<Action>, more: seq<Action>, principal: string)
    requires Run(actions).Some? && Run(actions + more).Some?
    requires !InOffice(Run(actions).value.tables, principal) && NotRestored(more, principal)
    ensures !InOffice(Run(actions + more).value.tables, principal)
    decreases |more|
  {
    hide Run, InOffice, Enabled, Apply;
    if more == [] {
      assert actions + more == actions;
    } else {
      var n := |more| - 1;
      RunLast(actions, more);
      RunStep(actions + more[..n], more[n]);
      StaysOutOfOffice(actions, more[..n], principal);
      OutOfOfficeStep(Run(actions + more[..n]).value, more[n], principal);
    }
  }

  /**
   * Once a principal is not an active reviewer any more, and until its row is written so again, in any interleaving: every
   * check of it ends in a denial, nobody is authorized as it, and no grant to it is about to commit. A revocation of one of
   * its assignments still goes through.
   */
  lemma OutOfOfficeIsDenied(actions: seq<Action>, more: seq<Action>, c: nat, principal: string)
    requires Run(actions).Some? && !InOffice(Run(actions).value.tables, principal) && NotRestored(more, principal)
    requires Run(actions + more).Some?
    ensures var s := Run(actions + more).value;
      var phase := PhaseOf(s, c);
      && (Enabled(s, c, Check) && phase.principal == principal ==>
            PhaseOf(Apply(s, c, Check), c) == Denied(principal, phase.employer))
      && (phase.Authorized? ==> phase.principal != principal)
      && (phase.Wrote? && phase.op.GrantTo? ==> phase.op.principal != principal)
      && (phase.HoldsExclusive? && phase.op.RevokeGrant? && phase.principal == principal && principal in s.tables.principals
          && phase.op.id in s.tables.assignments && s.tables.assignments[phase.op.id].revocation.None? ==>
            && Enabled(s, c, Write)
            && Enabled(Apply(s, c, Write), c, Commit)
            && (var after := Apply(Apply(s, c, Write), c, Commit).tables;
                phase.op.id in after.assignments && after.assignments[phase.op.id].revocation.Some?))
  {
    StaysOutOfOffice(actions, more, principal);
    InvariantOfRuns(actions + more);
    hide Run, NotRestored;
    var s := Run(actions + more).value;
    var phase := PhaseOf(s, c);
    assert Relies(s.tables, phase);
    if phase.HoldsShared? || phase.Authorized? {
      AllowedExactly(s.tables, phase.principal, phase.employer);
    }
    hide Granted, Exclusion, Minted, OneActive, Blank;
  }

  // ---------------------------------------------------------------- attestations

  ghost predicate NotRestoredBy(more: seq<A.Doing>, principal: string) {
    forall i :: 0 <= i < |more| ==>
      !(more[i].move.Access? && more[i].move.step.SetPrincipal? && more[i].move.step.principal == principal
        && more[i].move.step.row.active && more[i].move.step.row.reviewer)
  }

  lemma OutOfOfficeMove(j: A.Joint, d: A.Doing, principal: string)
    requires A.Possible(j, d.client, d.move) && !InOffice(j.access.tables, principal)
    requires !(d.move.Access? && d.move.step.SetPrincipal? && d.move.step.principal == principal
               && d.move.step.row.active && d.move.step.row.reviewer)
    ensures !InOffice(A.Next(j, d.client, d.move).access.tables, principal)
  {
    hide InOffice, Enabled, Apply, RequestWorkflow.Perform, A.Locked;
    if d.move.Access? {
      OutOfOfficeStep(j.access, Action(d.client, d.move.step), principal);
    }
  }

  /**
   * Nor does an attestation of such a principal commit, in any interleaving, not even one that was under way, until its
   * row is written active and reviewer again.
   */
  lemma {:induction false} NoAttestationOutOfOffice(doings: seq<A.Doing>, more: seq<A.Doing>, principal: string, k: nat)
    requires A.Course(doings).Some? && A.Course(doings + more).Some?
    requires !InOffice(A.Course(doings).value.access.tables, principal) && NotRestoredBy(more, principal)
    ensures !InOffice(A.Course(doings + more).value.access.tables, principal)
    ensures |A.Course(doings).value.attested| <= k < |A.Course(doings + more).value.attested| ==>
      A.Course(doings + more).value.attested[k].principal != principal
    decreases |more|
  {
    hide A.Course, Run, A.Possible, A.Next, InOffice;
    if more == [] {
      assert doings + more == doings;
    } else {
      var n := |more| - 1;
      var before, last := more[..n], more[n];
      A.CourseLast(doings, more);
      A.CourseStep(doings + before, last);
      NoAttestationOutOfOffice(doings, before, principal, k);
      var j := A.Course(doings + before).value;
      OutOfOfficeMove(j, last, principal);
      A.AttestedStep(j, last);
      if A.Next(j, last.client, last.move).attested != j.attested {
        A.AttestedWhileAllowed(doings + before, last.client);
        var phase := PhaseOf(j.access, last.client);
        AllowedExactly(j.access.tables, phase.principal, phase.employer);
      }
    }
  }
}
