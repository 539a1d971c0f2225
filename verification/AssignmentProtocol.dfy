/**
 * Authorizations, grants and revocations of many clients, interleaved. `check_employer_hr_assignment` locks the
 * principal's row in share mode and `lock_employer_hr_principal` exclusively; both wait, and hold to the end of the
 * transaction. Under READ COMMITTED the check after a wait reads what was committed meanwhile. Any other update of the
 * principal's row needs it exclusively too.
 */
module AssignmentProtocol {
  import opened Common
  import opened Text
  import opened Assignments

  datatype Phase =
    | Idle
    | WantsShared(principal: string, employer: string)
    | HoldsShared(principal: string, employer: string)
    | Authorized(principal: string, employer: string)
    | Denied(principal: string, employer: string)
    | Unknown
    | WantsExclusive(op: Operation)
    | HoldsExclusive(op: Operation, principal: string)
    | Wrote(op: Operation, principal: string, pending: nat)

  datatype System = System(tables: Tables, phases: map<nat, Phase>, minted: nat)

  datatype Step =
    | AskAuthorize(principal: string, employer: string)
    | TakeShared
    | Check
    | AskChange(op: Operation)
    | TakeExclusive
    | Write
    | Commit
    | Abort
    | SetPrincipal(principal: string, row: Principal)
    | AddEmployer(employer: string)

  function PhaseOf(s: System, c: nat): Phase {
    if c in s.phases then s.phases[c] else Idle
  }

  function Initial(): System {
    System(Tables(map[], {}, map[]), map[], 0)
  }

  /** The clients that hold a row lock on the principal. */
  predicate HasShared(phase: Phase, principal: string) {
    (phase.HoldsShared? || phase.Authorized? || phase.Denied?) && phase.principal == principal
  }

  predicate HasExclusive(phase: Phase, principal: string) {
    (phase.HoldsExclusive? || phase.Wrote?) && phase.principal == principal
  }

  predicate ExclusiveElsewhere(s: System, c: nat, principal: string) {
    exists d :: d in s.phases && d != c && HasExclusive(s.phases[d], principal)
  }

  predicate LockedElsewhere(s: System, c: nat, principal: string) {
    exists d :: d in s.phases && d != c && (HasExclusive(s.phases[d], principal) || HasShared(s.phases[d], principal))
  }

  predicate Enabled(s: System, c: nat, step: Step) {
    var phase := PhaseOf(s, c);
    match step
    case AskAuthorize(_, _) => phase.Idle?
    case TakeShared => phase.WantsShared? && !ExclusiveElsewhere(s, c, phase.principal)
    case Check => phase.HoldsShared?
    case AskChange(op) => phase.Idle? && WellPosed(s.tables, op)
    case TakeExclusive =>
      phase.WantsExclusive? && WellPosed(s.tables, phase.op) &&
      PrincipalOf(s.tables, phase.op) in s.tables.principals && !LockedElsewhere(s, c, PrincipalOf(s.tables, phase.op))
    case Write => phase.HoldsExclusive? && GoesThrough(s.tables, phase.op)
    case Commit => phase.Wrote? ==> GoesThrough(s.tables, phase.op)
    case Abort => true
    case SetPrincipal(principal, _) => phase.Idle? && !LockedElsewhere(s, c, principal)
    case AddEmployer(_) => phase.Idle?
  }

  function Apply(s: System, c: nat, step: Step): System
    requires Enabled(s, c, step)
  {
    var phase := PhaseOf(s, c);
    match step
    case AskAuthorize(principal, employer) => s.(phases := s.phases[c := WantsShared(principal, employer)])
    case TakeShared =>
      s.(phases := s.phases[c :=
        if phase.principal in s.tables.principals then HoldsShared(phase.principal, phase.employer) else Unknown])
    case Check =>
      s.(phases := s.phases[c :=
        if Allowed(s.tables, phase.principal, phase.employer) then Authorized(phase.principal, phase.employer)
        else Denied(phase.principal, phase.employer)])
    case AskChange(op) => s.(phases := s.phases[c := WantsExclusive(op)])
    case TakeExclusive => s.(phases := s.phases[c := HoldsExclusive(phase.op, PrincipalOf(s.tables, phase.op))])
    case Write => s.(phases := s.phases[c := Wrote(phase.op, phase.principal, s.minted)], minted := s.minted + 1)
    case Commit =>
      s.(tables := if phase.Wrote? then Written(s.tables, phase.op, phase.pending) else s.tables, phases := s.phases[c := Idle])
    case Abort => s.(phases := s.phases[c := Idle])
    case SetPrincipal(principal, row) => s.(tables := s.tables.(principals := s.tables.principals[principal := row]))
    case AddEmployer(employer) => s.(tables := s.tables.(employers := s.tables.employers + {employer}))
  }

  datatype Action = Action(client: nat, step: Step)

  /** The state after some actions, or `None` if one of them was not possible. */
  function Run(actions: seq<Action>): Option<System> {
    if actions == [] then Some(Initial())
    else
      var s := Run(actions[..|actions| - 1]);
      var a := actions[|actions| - 1];
      if s.None? || !Enabled(s.value, a.client, a.step) then None else Some(Apply(s.value, a.client, a.step))
  }

  // ---------------------------------------------------------------- the invariant

  /** Nobody shares a principal with an exclusive holder. */
  ghost predicate Exclusion(s: System) {
    forall c: nat, d: nat, p: string ::
      (c != d && HasExclusive(PhaseOf(s, c), p)) ==> !HasExclusive(PhaseOf(s, d), p) && !HasShared(PhaseOf(s, d), p)
  }

  ghost predicate Minted(s: System) {
    && (forall id :: id in s.tables.assignments ==> id < s.minted)
    && (forall c: nat :: PhaseOf(s, c).Wrote? ==> PhaseOf(s, c).pending < s.minted && PhaseOf(s, c).pending !in s.tables.assignments)
    && (forall c: nat, d: nat :: (c != d && PhaseOf(s, c).Wrote? && PhaseOf(s, d).Wrote?) ==>
         PhaseOf(s, c).pending != PhaseOf(s, d).pending)
  }

  /** What a client that holds a lock relies on. */
  ghost predicate Relies(t: Tables, phase: Phase) {
    && (phase.Authorized? ==> Allowed(t, phase.principal, phase.employer))
    && ((phase.HoldsExclusive? || phase.Wrote?) ==> WellPosed(t, phase.op) && PrincipalOf(t, phase.op) == phase.principal)
    && (phase.Wrote? ==> GoesThrough(t, phase.op))
  }

  /** At most one active grant for a principal and an employer. */
  ghost predicate OneActive(t: Tables) {
    forall i, j, p, e :: ActiveGrant(t, i, p, e) && ActiveGrant(t, j, p, e) ==> i == j
  }

  ghost predicate Invariant(s: System) {
    && Exclusion(s) && Minted(s) && OneActive(s.tables)
    && forall c: nat :: Relies(s.tables, PhaseOf(s, c))
  }

  // ---------------------------------------------------------------- one step

  lemma OthersStay(s: System, c: nat, step: Step)
    requires Enabled(s, c, step)
    ensures forall d: nat :: d != c ==> PhaseOf(Apply(s, c, step), d) == PhaseOf(s, d)
  {
  }

  lemma Elsewhere(s: System, c: nat, d: nat, p: string)
    requires c != d
    ensures HasExclusive(PhaseOf(s, d), p) ==> ExclusiveElsewhere(s, c, p) && LockedElsewhere(s, c, p)
    ensures HasShared(PhaseOf(s, d), p) ==> LockedElsewhere(s, c, p)
  {
  }

  lemma ExclusionKept(s: System, c: nat, step: Step)
    requires Exclusion(s) && Enabled(s, c, step)
    ensures Exclusion(Apply(s, c, step))
  {
    hide GoesThrough, Allowed, WellPosed, Written, ExclusiveElsewhere, LockedElsewhere;
    OthersStay(s, c, step);
    var after := Apply(s, c, step);
    forall d: nat, p: string | d != c
      ensures HasExclusive(PhaseOf(after, c), p) ==> !HasExclusive(PhaseOf(s, d), p) && !HasShared(PhaseOf(s, d), p)
      ensures HasShared(PhaseOf(after, c), p) ==> !HasExclusive(PhaseOf(s, d), p)
    {
      Elsewhere(s, c, d, p);
    }
  }

  lemma MintedKept(s: System, c: nat, step: Step)
    requires Minted(s) && Enabled(s, c, step)
    ensures Minted(Apply(s, c, step))
  {
    hide Allowed, ExclusiveElsewhere, LockedElsewhere;
    OthersStay(s, c, step);
  }

  lemma WrittenOneActive(t: Tables, op: Operation, next: nat)
    requires OneActive(t) && GoesThrough(t, op) && next !in t.assignments
    ensures OneActive(Written(t, op, next))
  {
    var after := Written(t, op, next);
    forall i, j, p, e | ActiveGrant(after, i, p, e) && ActiveGrant(after, j, p, e) ensures i == j {
      assert i != next ==> ActiveGrant(t, i, p, e);
      assert j != next ==> ActiveGrant(t, j, p, e);
    }
  }

  lemma OneActiveKept(s: System, c: nat, step: Step)
    requires OneActive(s.tables) && Minted(s) && Enabled(s, c, step)
    ensures OneActive(Apply(s, c, step).tables)
  {
    hide Allowed, ExclusiveElsewhere, LockedElsewhere, GoesThrough, Written, OneActive;
    if step.Commit? && PhaseOf(s, c).Wrote? {
      WrittenOneActive(s.tables, PhaseOf(s, c).op, PhaseOf(s, c).pending);
    } else {
      assert Apply(s, c, step).tables.assignments == s.tables.assignments;
      SameAssignments(s.tables, Apply(s, c, step).tables);
    }
  }

  lemma SameAssignments(a: Tables, b: Tables)
    requires a.assignments == b.assignments
    ensures OneActive(a) ==> OneActive(b)
    ensures forall p, e :: Granted(a, p, e) <==> Granted(b, p, e)
  {
    assert forall i, p, e :: ActiveGrant(a, i, p, e) <==> ActiveGrant(b, i, p, e);
  }

  /** Rows of a principal that nobody holds exclusively are not changed by a commit of another operation. */
  lemma UntouchedAllowed(t: Tables, op: Operation, next: nat, principal: string, employer: string)
    requires GoesThrough(t, op) && PrincipalOf(t, op) != principal && next !in t.assignments
    ensures Allowed(Written(t, op, next), principal, employer) <==> Allowed(t, principal, employer)
    ensures Granted(Written(t, op, next), principal, employer) <==> Granted(t, principal, employer)
  {
    var after := Written(t, op, next);
    forall id ensures ActiveGrant(after, id, principal, employer) <==> ActiveGrant(t, id, principal, employer) {
    }
  }

  /** A commit by another client leaves alone what the holder of a lock relies on. */
  lemma CommitSpares(t: Tables, op: Operation, next: nat, phase: Phase)
    requires Relies(t, phase) && GoesThrough(t, op) && next !in t.assignments
    requires !HasShared(phase, PrincipalOf(t, op)) && !HasExclusive(phase, PrincipalOf(t, op))
    ensures Relies(Written(t, op, next), phase)
  {
    if phase.Authorized? {
      UntouchedAllowed(t, op, next, phase.principal, phase.employer);
    }
    if phase.Wrote? && phase.op.GrantTo? {
      UntouchedAllowed(t, op, next, phase.op.principal, phase.op.employer);
    }
  }

  /** So does any other update of principals it has not locked, and a new employer. */
  lemma UpdateSpares(t: Tables, after: Tables, principal: string, phase: Phase)
    requires Relies(t, phase) && !HasShared(phase, principal) && !HasExclusive(phase, principal)
    requires after.assignments == t.assignments && t.employers <= after.employers
    requires forall p :: p != principal ==>
      (p in after.principals <==> p in t.principals) && (p in t.principals ==> after.principals[p] == t.principals[p])
    ensures Relies(after, phase)
  {
    SameAssignments(t, after);
  }

  lemma OtherRelies(s: System, c: nat, step: Step, d: nat)
    requires Invariant(s) && Enabled(s, c, step) && d != c
    ensures Relies(Apply(s, c, step).tables, PhaseOf(s, d))
  {
    hide OneActive, WellPosed, GoesThrough, Written, Allowed, ExclusiveElsewhere, LockedElsewhere;
    var phase := PhaseOf(s, c);
    assert Relies(s.tables, PhaseOf(s, c)) && Relies(s.tables, PhaseOf(s, d));
    if step.Commit? && phase.Wrote? {
      assert HasExclusive(phase, phase.principal);
      CommitSpares(s.tables, phase.op, phase.pending, PhaseOf(s, d));
    } else if step.SetPrincipal? {
      Elsewhere(s, c, d, step.principal);
      UpdateSpares(s.tables, Apply(s, c, step).tables, step.principal, PhaseOf(s, d));
    } else if step.AddEmployer? {
      Employed(s.tables, step.employer, PhaseOf(s, d));
    }
  }

  lemma Employed(t: Tables, employer: string, phase: Phase)
    requires Relies(t, phase)
    ensures Relies(t.(employers := t.employers + {employer}), phase)
  {
    SameAssignments(t, t.(employers := t.employers + {employer}));
  }

  lemma OwnRelies(s: System, c: nat, step: Step)
    requires Invariant(s) && Enabled(s, c, step)
    ensures Relies(Apply(s, c, step).tables, PhaseOf(Apply(s, c, step), c))
  {
    hide Exclusion, Minted, OneActive, Granted, ExclusiveElsewhere, LockedElsewhere;
    assert Relies(s.tables, PhaseOf(s, c));
  }

  lemma InvariantKept(s: System, c: nat, step: Step)
    requires Invariant(s) && Enabled(s, c, step)
    ensures Invariant(Apply(s, c, step))
  {
    hide Enabled, Apply, PhaseOf, Exclusion, Minted, OneActive, Relies;
    ExclusionKept(s, c, step);
    MintedKept(s, c, step);
    OneActiveKept(s, c, step);
    OthersStay(s, c, step);
    forall d: nat ensures Relies(Apply(s, c, step).tables, PhaseOf(Apply(s, c, step), d)) {
      if d == c {
        OwnRelies(s, c, step);
      } else {
        OtherRelies(s, c, step, d);
      }
    }
  }

  lemma {:induction false} InvariantOfRuns(actions: seq<Action>)
    requires Run(actions).Some?
    ensures Invariant(Run(actions).value)
  {
    hide Enabled, Apply;
    if actions != [] {
      InvariantOfRuns(actions[..|actions| - 1]);
      InvariantKept(Run(actions[..|actions| - 1]).value, actions[|actions| - 1].client, actions[|actions| - 1].step);
    }
  }

  // ---------------------------------------------------------------- what every run guarantees

  /**
   * As long as a client that was authorized has not ended its transaction, its principal is an active reviewer with an
   * active grant for the employer, whatever the other clients do.
   */
  lemma AuthorizedHolds(actions: seq<Action>, c: nat)
    requires Run(actions).Some? && PhaseOf(Run(actions).value, c).Authorized?
    ensures var s := Run(actions).value;
      Allowed(s.tables, PhaseOf(s, c).principal, PhaseOf(s, c).employer)
  {
    hide Run, Exclusion, Minted, OneActive, Allowed;
    InvariantOfRuns(actions);
    assert Relies(Run(actions).value.tables, PhaseOf(Run(actions).value, c));
  }

  /** While it lasts, nobody is even in a position to commit a change of that principal's grants or of its row. */
  lemma NoChangeWhileShared(actions: seq<Action>, c: nat, d: nat)
    requires Run(actions).Some? && d != c
    ensures var s := Run(actions).value;
      forall p :: HasShared(PhaseOf(s, c), p) ==>
        !HasExclusive(PhaseOf(s, d), p) && (forall row :: !Enabled(s, d, SetPrincipal(p, row))) &&
        (Enabled(s, d, TakeExclusive) ==> PrincipalOf(s.tables, PhaseOf(s, d).op) != p)
  {
    hide Run, Minted, OneActive, WellPosed, GoesThrough, Relies;
    InvariantOfRuns(actions);
    var s := Run(actions).value;
    forall p | HasShared(PhaseOf(s, c), p) ensures LockedElsewhere(s, d, p) {
      Elsewhere(s, d, c, p);
    }
  }

  // ---------------------------------------------------------------- what makes a grant active, over a run

  /** The step commits a grant of the employer to the principal. */
  predicate CommitsGrant(s: System, a: Action, principal: string, employer: string) {
    var phase := PhaseOf(s, a.client);
    a.step.Commit? && phase.Wrote? && phase.op.GrantTo? && phase.op.principal == principal && phase.op.employer == employer
  }

  /** The step commits a revocation of one of their assignments. */
  predicate CommitsRevocation(s: System, a: Action, principal: string, employer: string) {
    var phase := PhaseOf(s, a.client);
    a.step.Commit? && phase.Wrote? && phase.op.RevokeGrant? && phase.op.id in s.tables.assignments &&
    s.tables.assignments[phase.op.id].principal == principal && s.tables.assignments[phase.op.id].employer == employer
  }

  /** Going on with `more`, a grant of the employer to the principal commits, and no revocation of theirs after the last one. */
  predicate GrantedIn(actions: seq<Action>, more: seq<Action>, principal: string, employer: string) {
    more != [] &&
    var before, a := more[..|more| - 1], more[|more| - 1];
    var s := Run(actions + before);
    s.Some? && (CommitsGrant(s.value, a, principal, employer) ||
                (GrantedIn(actions, before, principal, employer) && !CommitsRevocation(s.value, a, principal, employer)))
  }

  /** Going on with `more`, a grant of the employer to the principal commits. */
  ghost predicate SomeGrantCommits(actions: seq<Action>, more: seq<Action>, principal: string, employer: string) {
    exists i :: 0 <= i < |more| && Run(actions + more[..i]).Some? &&
      CommitsGrant(Run(actions + more[..i]).value, more[i], principal, employer)
  }

  lemma {:induction false} GrantedNeedsGrant(actions: seq<Action>, more: seq<Action>, principal: string, employer: string)
    requires GrantedIn(actions, more, principal, employer)
    ensures SomeGrantCommits(actions, more, principal, employer)
  {
    hide Run, CommitsGrant, CommitsRevocation;
    var n := |more| - 1;
    if !CommitsGrant(Run(actions + more[..n]).value, more[n], principal, employer) {
      GrantedNeedsGrant(actions, more[..n], principal, employer);
      var i :| 0 <= i < n && Run(actions + more[..n][..i]).Some? &&
        CommitsGrant(Run(actions + more[..n][..i]).value, more[..n][i], principal, employer);
      assert more[..n][..i] == more[..i];
    }
  }

  /** Only the commit of a grant makes the pair granted, and only the commit of a revocation of theirs undoes it. */
  lemma GrantedStep(s: System, a: Action, principal: string, employer: string)
    requires Invariant(s) && Enabled(s, a.client, a.step)
    ensures Granted(Apply(s, a.client, a.step).tables, principal, employer) <==>
      CommitsGrant(s, a, principal, employer) ||
      (Granted(s.tables, principal, employer) && !CommitsRevocation(s, a, principal, employer))
  {
    hide Exclusion, OneActive, Allowed, ExclusiveElsewhere, LockedElsewhere, Granted, GoesThrough, Written;
    var phase, after := PhaseOf(s, a.client), Apply(s, a.client, a.step);
    if a.step.Commit? && phase.Wrote? {
      WrittenGranted(s.tables, phase.op, phase.pending, principal, employer);
    } else {
      SameAssignments(s.tables, after.tables);
    }
  }

  lemma WrittenGranted(t: Tables, op: Operation, next: nat, principal: string, employer: string)
    requires OneActive(t) && GoesThrough(t, op) && next !in t.assignments
    ensures Granted(Written(t, op, next), principal, employer) <==>
      (op.GrantTo? && op.principal == principal && op.employer == employer) ||
      (Granted(t, principal, employer) &&
       !(op.RevokeGrant? && t.assignments[op.id].principal == principal && t.assignments[op.id].employer == employer))
  {
    var after := Written(t, op, next);
    if op.GrantTo? {
      assert ActiveGrant(after, next, op.principal, op.employer);
      assert forall id :: id != next ==> (ActiveGrant(after, id, principal, employer) <==> ActiveGrant(t, id, principal, employer));
    } else {
      assert ActiveGrant(t, op.id, t.assignments[op.id].principal, t.assignments[op.id].employer);
      assert forall id :: id != op.id ==> (ActiveGrant(after, id, principal, employer) <==> ActiveGrant(t, id, principal, employer));
    }
  }

  lemma RunStep(actions: seq<Action>, a: Action)
    ensures Run(actions + [a]) ==
      if Run(actions).None? || !Enabled(Run(actions).value, a.client, a.step) then None
      else Some(Apply(Run(actions).value, a.client, a.step))
  {
    assert (actions + [a])[..|actions|] == actions;
  }

  lemma RunLast(actions: seq<Action>, more: seq<Action>)
    requires more != []
    ensures actions + more == (actions + more[..|more| - 1]) + [more[|more| - 1]]
  {
  }

  /** From a state without the grant, the pair is granted exactly when the run committed it and not its revocation since. */
  lemma {:induction false} GrantedExactly(actions: seq<Action>, more: seq<Action>, principal: string, employer: string)
    requires Run(actions + more).Some? && Run(actions).Some? && !Granted(Run(actions).value.tables, principal, employer)
    ensures Granted(Run(actions + more).value.tables, principal, employer) <==> GrantedIn(actions, more, principal, employer)
  {
    hide Run, Invariant, Enabled, Apply, Granted, CommitsGrant, CommitsRevocation;
    if more == [] {
      assert actions + more == actions;
    } else {
      var n := |more| - 1;
      RunLast(actions, more);
      RunStep(actions + more[..n], more[n]);
      GrantedExactly(actions, more[..n], principal, employer);
      InvariantOfRuns(actions + more[..n]);
      GrantedStep(Run(actions + more[..n]).value, more[n], principal, employer);
    }
  }

  // ---------------------------------------------------------------- a request that waits for a revocation

  /** The client neither gives up its request nor has it answered. */
  predicate StillAsking(more: seq<Action>, c: nat) {
    forall i :: 0 <= i < |more| && more[i].client == c ==> !more[i].step.Commit? && !more[i].step.Abort? && !more[i].step.Check?
  }

  lemma {:induction false} RequestStands(actions: seq<Action>, more: seq<Action>, c: nat, principal: string, employer: string)
    requires Run(actions + more).Some? && Run(actions).Some? && StillAsking(more, c)
    requires PhaseOf(Run(actions).value, c) == WantsShared(principal, employer)
    ensures var phase := PhaseOf(Run(actions + more).value, c);
      phase == WantsShared(principal, employer) || phase == HoldsShared(principal, employer) || phase == Unknown
  {
    hide Run, Enabled, Apply;
    if more == [] {
      assert actions + more == actions;
    } else {
      var n := |more| - 1;
      RunLast(actions, more);
      RunStep(actions + more[..n], more[n]);
      assert StillAsking(more[..n], c) by {
        assert forall i :: 0 <= i < n ==> more[..n][i] == more[i];
      }
      RequestStands(actions, more[..n], c, principal, employer);
      RequestStep(Run(actions + more[..n]).value, more[n], c, principal, employer);
    }
  }

  lemma RequestStep(s: System, a: Action, c: nat, principal: string, employer: string)
    requires Enabled(s, a.client, a.step)
    requires a.client == c ==> !a.step.Commit? && !a.step.Abort? && !a.step.Check?
    requires var phase := PhaseOf(s, c);
      phase == WantsShared(principal, employer) || phase == HoldsShared(principal, employer) || phase == Unknown
    ensures var phase := PhaseOf(Apply(s, a.client, a.step), c);
      phase == WantsShared(principal, employer) || phase == HoldsShared(principal, employer) || phase == Unknown
  {
    hide GoesThrough, Written, Allowed, WellPosed, ExclusiveElsewhere, LockedElsewhere;
  }

  /**
   * A client that asks while the revocation of the only active grant is being written has to wait. When it is served,
   * however many steps of other clients come between, it is refused unless a grant of the pair has committed since the
   * revocation; precisely, its check succeeds if and only if the principal is still an active reviewer and such a grant
   * stands that no later revocation undid.
   */
  lemma WaiterIsRefused(actions: seq<Action>, more: seq<Action>, c: nat, d: nat, principal: string, employer: string)
    requires Run(actions).Some? && c != d
    requires PhaseOf(Run(actions).value, c) == WantsShared(principal, employer)
    requires var s, phase := Run(actions).value, PhaseOf(Run(actions).value, d);
      phase.Wrote? && phase.op.RevokeGrant? && ActiveGrant(s.tables, phase.op.id, principal, employer)
    requires StillAsking(more, c) && Run(actions + [Action(d, Commit)] + more + [Action(c, Check)]).Some?
    ensures !Enabled(Run(actions).value, c, TakeShared)
    ensures var revoked := actions + [Action(d, Commit)];
      var at, checked := Run(revoked + more), Run(revoked + more + [Action(c, Check)]);
      && at.Some? && (Granted(at.value.tables, principal, employer) <==> GrantedIn(revoked, more, principal, employer))
      && PhaseOf(checked.value, c) ==
         (if ActiveReviewer(at.value.tables, principal) && GrantedIn(revoked, more, principal, employer)
          then Authorized(principal, employer) else Denied(principal, employer))
      && (!SomeGrantCommits(revoked, more, principal, employer) ==> PhaseOf(checked.value, c) == Denied(principal, employer))
  {
    var revoked := actions + [Action(d, Commit)];
    RevocationCommits(actions, c, d, principal, employer);
    hide Run, Invariant, Granted, ActiveReviewer, CommitsGrant, CommitsRevocation, GrantedIn, SomeGrantCommits, StillAsking;
    RunStep(revoked + more, Action(c, Check));
    GrantedExactly(revoked, more, principal, employer) by {
      PrefixRuns(revoked, more);
    }
    PrefixRuns(revoked, more);
    RequestStands(revoked, more, c, principal, employer);
    if GrantedIn(revoked, more, principal, employer) {
      GrantedNeedsGrant(revoked, more, principal, employer);
    }
  }

  lemma {:induction false} PrefixRuns(actions: seq<Action>, more: seq<Action>)
    requires Run(actions + more).Some?
    ensures Run(actions).Some?
  {
    hide Run;
    if more == [] {
      assert actions + more == actions;
    } else {
      RunLast(actions, more);
      RunStep(actions + more[..|more| - 1], more[|more| - 1]);
      PrefixRuns(actions, more[..|more| - 1]);
    }
  }

  /** The revocation itself: the waiter is kept out until it commits, and then nothing is granted. */
  lemma RevocationCommits(actions: seq<Action>, c: nat, d: nat, principal: string, employer: string)
    requires Run(actions).Some? && c != d
    requires PhaseOf(Run(actions).value, c) == WantsShared(principal, employer)
    requires var s, phase := Run(actions).value, PhaseOf(Run(actions).value, d);
      phase.Wrote? && phase.op.RevokeGrant? && ActiveGrant(s.tables, phase.op.id, principal, employer)
    ensures !Enabled(Run(actions).value, c, TakeShared)
    ensures var after := Run(actions + [Action(d, Commit)]);
      && after.Some? && after.value == Apply(Run(actions).value, d, Commit)
      && !Granted(after.value.tables, principal, employer)
      && PhaseOf(after.value, c) == WantsShared(principal, employer)
  {
    InvariantOfRuns(actions);
    RunStep(actions, Action(d, Commit));
    hide Run, Exclusion, Minted, Granted;
    var s, op := Run(actions).value, PhaseOf(Run(actions).value, d).op;
    assert Relies(s.tables, PhaseOf(s, d));
    Elsewhere(s, c, d, principal);
    RevokedIsNotAllowed(s.tables, op, PhaseOf(s, d).pending, principal, employer);
  }

  /** It can be served at once, and is then refused. */
  lemma WaiterServedAtOnce(actions: seq<Action>, c: nat, d: nat, principal: string, employer: string)
    requires Run(actions).Some? && c != d
    requires PhaseOf(Run(actions).value, c) == WantsShared(principal, employer)
    requires var s, phase := Run(actions).value, PhaseOf(Run(actions).value, d);
      phase.Wrote? && phase.op.RevokeGrant? && ActiveGrant(s.tables, phase.op.id, principal, employer)
    ensures var served := Run(actions + [Action(d, Commit)] + [Action(c, TakeShared)] + [Action(c, Check)]);
      served.Some? && PhaseOf(served.value, c) == Denied(principal, employer)
  {
    RevocationCommits(actions, c, d, principal, employer);
    InvariantOfRuns(actions);
    var s := Run(actions).value;
    CommitReleases(s, d, c);
    assert principal in s.tables.principals by {
      assert Relies(s.tables, PhaseOf(s, d));
    }
    RunStep(actions + [Action(d, Commit)], Action(c, TakeShared));
    RunStep(actions + [Action(d, Commit)] + [Action(c, TakeShared)], Action(c, Check));
    hide Run, Invariant, Granted, Written, GoesThrough, ExclusiveElsewhere;
  }

  lemma CommitReleases(s: System, d: nat, c: nat)
    requires Exclusion(s) && PhaseOf(s, d).Wrote? && Enabled(s, d, Commit)
    ensures !ExclusiveElsewhere(Apply(s, d, Commit), c, PhaseOf(s, d).principal)
  {
    hide GoesThrough, Written;
    var after, p := Apply(s, d, Commit), PhaseOf(s, d).principal;
    OthersStay(s, d, Commit);
    forall e | e in after.phases && e != c ensures !HasExclusive(after.phases[e], p) {
      assert after.phases[e] == PhaseOf(after, e);
      assert HasExclusive(PhaseOf(s, d), p);
      assert e != d ==> !HasExclusive(PhaseOf(s, e), p);
    }
  }

  lemma RevokedIsNotAllowed(t: Tables, op: Operation, next: nat, principal: string, employer: string)
    requires OneActive(t) && op.RevokeGrant? && GoesThrough(t, op) && ActiveGrant(t, op.id, principal, employer)
    ensures !Granted(Written(t, op, next), principal, employer)
  {
    forall id ensures !ActiveGrant(Written(t, op, next), id, principal, employer) {
      assert id != op.id && ActiveGrant(Written(t, op, next), id, principal, employer) ==> ActiveGrant(t, id, principal, employer);
    }
  }

  /** The history of assignments only grows: who was granted what never changes, and a revocation stands for good. */
  ghost predicate Preserved(before: Tables, after: Tables) {
    forall id :: id in before.assignments ==>
      && id in after.assignments
      && after.assignments[id].(revocation := None) == before.assignments[id].(revocation := None)
      && (before.assignments[id].revocation.Some? ==> after.assignments[id] == before.assignments[id])
  }

  lemma StepPreserves(s: System, c: nat, step: Step)
    requires Invariant(s) && Enabled(s, c, step)
    ensures Preserved(s.tables, Apply(s, c, step).tables)
  {
    hide Exclusion, OneActive, Allowed, ExclusiveElsewhere, LockedElsewhere, Granted;
  }

  lemma {:induction false} RevokedForGood(actions: seq<Action>, k: nat)
    requires k <= |actions| && Run(actions).Some?
    ensures Run(actions[..k]).Some? && Preserved(Run(actions[..k]).value.tables, Run(actions).value.tables)
    decreases |actions|
  {
    hide Invariant, Enabled, Apply;
    if k == |actions| {
      assert actions[..k] == actions;
    } else {
      var n := |actions| - 1;
      assert actions[..n][..k] == actions[..k];
      RevokedForGood(actions[..n], k);
      InvariantOfRuns(actions[..n]);
      StepPreserves(Run(actions[..n]).value, actions[n].client, actions[n].step);
    }
  }

  /** A principal never has two active grants for one employer, and a client that has written is free to commit. */
  lemma OneActiveInRuns(actions: seq<Action>, c: nat)
    requires Run(actions).Some?
    ensures OneActive(Run(actions).value.tables)
    ensures PhaseOf(Run(actions).value, c).Wrote? ==> Enabled(Run(actions).value, c, Commit)
  {
    hide Run, Exclusion, Minted, OneActive, GoesThrough;
    InvariantOfRuns(actions);
    assert Relies(Run(actions).value.tables, PhaseOf(Run(actions).value, c));
  }
}
