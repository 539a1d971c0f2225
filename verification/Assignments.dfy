/**
 * Employer assignments of HR reviewers: internal/employeraccess/assignments.go with the stored functions
 * `check_employer_hr_assignment` and `lock_employer_hr_principal` of migration 000014.
 */
module Assignments {
  import opened Common
  import opened Text

  /** A `domain_users` row: only whether it is active and an HR reviewer matters here. */
  datatype Principal = Principal(active: bool, reviewer: bool)

  datatype Assignment = Assignment(
    principal: string,
    employer: string,
    grantedBy: string,
    basis: string,
    revocation: Option<Revocation>)

  datatype Revocation = Revocation(actor: string, reason: string)

  datatype Tables = Tables(
    principals: map<string, Principal>,
    employers: set<string>,
    assignments: map<nat, Assignment>)

  predicate ActiveReviewer(t: Tables, principal: string) {
    principal in t.principals && t.principals[principal].active && t.principals[principal].reviewer
  }

  /** An unrevoked assignment of the principal to the employer. */
  predicate ActiveGrant(t: Tables, id: nat, principal: string, employer: string) {
    && id in t.assignments && t.assignments[id].principal == principal && t.assignments[id].employer == employer
    && t.assignments[id].revocation.None?
  }

  predicate Granted(t: Tables, principal: string, employer: string) {
    exists id :: id in t.assignments && ActiveGrant(t, id, principal, employer)
  }

  /** What `check_employer_hr_assignment` answers. */
  predicate Allowed(t: Tables, principal: string, employer: string) {
    ActiveReviewer(t, principal) && Granted(t, principal, employer)
  }

  datatype Operation =
    | GrantTo(principal: string, employer: string, actor: string, basis: string)
    | RevokeGrant(id: nat, actor: string, reason: string)

  /** The checks made before any lock is taken. */
  predicate WellPosed(t: Tables, op: Operation) {
    match op
    case GrantTo(_, employer, actor, basis) => !Blank(actor) && !Blank(basis) && !Blank(employer)
    case RevokeGrant(id, actor, reason) => !Blank(actor) && !Blank(reason) && id in t.assignments
  }

  /** The principal whose row the operation locks exclusively. */
  function PrincipalOf(t: Tables, op: Operation): string
    requires WellPosed(t, op)
  {
    match op
    case GrantTo(principal, _, _, _) => principal
    case RevokeGrant(id, _, _) => t.assignments[id].principal
  }

  /** What decides an operation once it holds the lock; a second active grant violates `employer_hr_one_active`. */
  predicate GoesThrough(t: Tables, op: Operation) {
    WellPosed(t, op) &&
    match op
    case GrantTo(principal, employer, _, _) =>
      ActiveReviewer(t, principal) && employer in t.employers && !Granted(t, principal, employer)
    case RevokeGrant(id, _, _) => t.assignments[id].principal in t.principals && t.assignments[id].revocation.None?
  }

  /** The rows an operation leaves; `next` is the id of a new assignment. */
  function Written(t: Tables, op: Operation, next: nat): Tables
    requires GoesThrough(t, op)
  {
    match op
    case GrantTo(principal, employer, actor, basis) =>
      t.(assignments := t.assignments[next := Assignment(principal, employer, actor, basis, None)])
    case RevokeGrant(id, actor, reason) =>
      t.(assignments := t.assignments[id := t.assignments[id].(revocation := Some(Revocation(actor, reason)))])
  }

  /** The tables, with each operation as a transaction of its own. */
  class AssignmentTables {
    var principals: map<string, Principal>
    var employers: set<string>
    var assignments: map<nat, Assignment>

    function Now(): Tables
      reads this
    {
      Tables(principals, employers, assignments)
    }

    constructor (principals: map<string, Principal>, employers: set<string>)
      ensures Now() == Tables(principals, employers, map[])
    {
      this.principals, this.employers, assignments := principals, employers, map[];
    }

    method Authorize(principal: string, employer: string) returns (ok: bool)
      ensures ok <==> Allowed(Now(), principal, employer)
    {
      if principal !in principals || !principals[principal].active || !principals[principal].reviewer {
        return false;
      }
      var left := assignments.Keys;
      while left != {}
        invariant left <= assignments.Keys
        invariant forall id :: id in assignments && id !in left ==> !ActiveGrant(Now(), id, principal, employer)
        decreases |left|
      {
        var id :| id in left;
        if assignments[id].principal == principal && assignments[id].employer == employer && assignments[id].revocation.None? {
          assert ActiveGrant(Now(), id, principal, employer);
          return true;
        }
        left := left - {id};
      }
      return false;
    }

    method Grant(principal: string, employer: string, actor: string, basis: string, next: nat) returns (ok: bool)
      requires next !in assignments
      modifies `assignments
      ensures ok <==> old(GoesThrough(Now(), GrantTo(principal, employer, actor, basis)))
      ensures if ok then
                && Now() == Written(old(Now()), GrantTo(principal, employer, actor, basis), next)
                && !old(Allowed(Now(), principal, employer)) && Allowed(Now(), principal, employer)
              else Now() == old(Now())
    {
      if Blank(actor) || Blank(basis) || Blank(employer) {
        return false;
      }
      if principal !in principals || !principals[principal].active || !principals[principal].reviewer {
        return false;
      }
      if employer !in employers {
        return false;
      }
      var taken := Authorize(principal, employer);
      if taken {
        return false;
      }
      assignments := assignments[next := Assignment(principal, employer, actor, basis, None)];
      assert ActiveGrant(Now(), next, principal, employer);
      return true;
    }

    method Revoke(id: nat, actor: string, reason: string) returns (ok: bool)
      modifies `assignments
      ensures ok <==> old(GoesThrough(Now(), RevokeGrant(id, actor, reason)))
      ensures Now() == if ok then Written(old(Now()), RevokeGrant(id, actor, reason), 0) else old(Now())
    {
      if Blank(actor) || Blank(reason) {
        return false;
      }
      if id !in assignments || assignments[id].principal !in principals {
        return false;
      }
      if assignments[id].revocation.Some? {
        return false;
      }
      assignments := assignments[id := assignments[id].(revocation := Some(Revocation(actor, reason)))];
      return true;
    }
  }
}
