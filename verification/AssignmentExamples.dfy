/** A run in which a grant comes between the revocation and the check that met it. */
module AssignmentExamples {
  import opened Common
  import opened Text
  import opened Assignments
  import opened AssignmentProtocol

  const REVIEWER := "p"
  const EMPLOYER := "e"

  function GrantOne(): Operation {
    GrantTo(REVIEWER, EMPLOYER, "operator", "approval")
  }

  function Before(assignments: map<nat, Assignment>): Tables {
    Tables(map[REVIEWER := Principal(true, true)], {EMPLOYER}, assignments)
  }

  function Given(revocation: Option<Revocation>): Assignment {
    Assignment(REVIEWER, EMPLOYER, "operator", "approval", revocation)
  }

  /** One client asks for a change, gets the lock, writes and commits, while nobody else holds a lock. */
  function Whole(c: nat, op: Operation): seq<Action> {
    [Action(c, AskChange(op)), Action(c, TakeExclusive), Action(c, Write), Action(c, Commit)]
  }

  /** The states on the way. */
  function Asked(s: System, c: nat, op: Operation): System {
    s.(phases := s.phases[c := WantsExclusive(op)])
  }

  function Holding(s: System, c: nat, op: Operation, principal: string): System {
    s.(phases := s.phases[c := HoldsExclusive(op, principal)])
  }

  function Writing(s: System, c: nat, op: Operation, principal: string): System {
    s.(phases := s.phases[c := Wrote(op, principal, s.minted)], minted := s.minted + 1)
  }

  lemma WholeSteps(s: System, c: nat, op: Operation)
    requires PhaseOf(s, c).Idle? && GoesThrough(s.tables, op) && PrincipalOf(s.tables, op) in s.tables.principals
    requires !LockedElsewhere(s, c, PrincipalOf(s.tables, op))
    ensures var principal := PrincipalOf(s.tables, op);
      && Enabled(s, c, AskChange(op)) && Apply(s, c, AskChange(op)) == Asked(s, c, op)
      && Enabled(Asked(s, c, op), c, TakeExclusive) && Apply(Asked(s, c, op), c, TakeExclusive) == Holding(s, c, op, principal)
      && Enabled(Holding(s, c, op, principal), c, Write)
      && Apply(Holding(s, c, op, principal), c, Write) == Writing(s, c, op, principal)
      && Enabled(Writing(s, c, op, principal), c, Commit)
      && Apply(Writing(s, c, op, principal), c, Commit) == System(Written(s.tables, op, s.minted), s.phases[c := Idle], s.minted + 1)
  {
    Posed(s.tables, op);
    hide GoesThrough, Written, WellPosed, LockedElsewhere;
    UnlockedStill(s, c, WantsExclusive(op), PrincipalOf(s.tables, op));
  }

  lemma WholeRuns(actions: seq<Action>, c: nat, op: Operation)
    requires Run(actions).Some? && PhaseOf(Run(actions).value, c).Idle? && GoesThrough(Run(actions).value.tables, op)
    requires PrincipalOf(Run(actions).value.tables, op) in Run(actions).value.tables.principals
    requires !LockedElsewhere(Run(actions).value, c, PrincipalOf(Run(actions).value.tables, op))
    ensures var s, r := Run(actions).value, Run(actions + Whole(c, op));
      r.Some? && r.value == System(Written(s.tables, op, s.minted), s.phases[c := Idle], s.minted + 1)
  {
    WholeSteps(Run(actions).value, c, op);
    hide Run, Enabled, Apply, GoesThrough, Written, LockedElsewhere, Asked, Holding, Writing;
    RunStep(actions, Action(c, AskChange(op)));
    RunStep(actions + [Action(c, AskChange(op))], Action(c, TakeExclusive));
    RunStep(actions + [Action(c, AskChange(op))] + [Action(c, TakeExclusive)], Action(c, Write));
    RunStep(actions + [Action(c, AskChange(op))] + [Action(c, TakeExclusive)] + [Action(c, Write)], Action(c, Commit));
    assert actions + Whole(c, op) ==
      actions + [Action(c, AskChange(op))] + [Action(c, TakeExclusive)] + [Action(c, Write)] + [Action(c, Commit)];
  }

  lemma Posed(t: Tables, op: Operation)
    ensures GoesThrough(t, op) ==> WellPosed(t, op)
  {
  }

  lemma UnlockedStill(s: System, c: nat, phase: Phase, principal: string)
    requires !LockedElsewhere(s, c, principal)
    ensures !LockedElsewhere(s.(phases := s.phases[c := phase]), c, principal)
  {
    var phases := s.phases[c := phase];
    forall d | d in phases && d != c ensures !HasExclusive(phases[d], principal) && !HasShared(phases[d], principal) {
      assert phases[d] == s.phases[d];
    }
  }

  /** An operator enters the reviewer and the employer. */
  lemma OperatorEnters() returns (actions: seq<Action>)
    ensures Run(actions) == Some(System(Before(map[]), map[], 0))
  {
    var first := [Action(0, SetPrincipal(REVIEWER, Principal(true, true)))];
    assert first == [] + first;
    RunStep([], first[0]);
    RunStep(first, Action(0, AddEmployer(EMPLOYER)));
    assert Run([]) == Some(Initial());
    hide Run;
    assert {} + {EMPLOYER} == {EMPLOYER};
    actions := first + [Action(0, AddEmployer(EMPLOYER))];
  }

  /** And then grants. */
  lemma OperatorGrants() returns (actions: seq<Action>)
    ensures Run(actions) == Some(System(Before(map[0 := Given(None)]), map[0 := Idle], 1))
  {
    var entered := OperatorEnters();
    NotBlank();
    hide Run, Blank;
    WholeRuns(entered, 0, GrantOne());
    actions := entered + Whole(0, GrantOne());
  }

  /** Client 2 asks while client 1 is about to commit the revocation. */
  lemma MeetingRevocation() returns (actions: seq<Action>)
    ensures Run(actions) == Some(System(Before(map[0 := Given(None)]),
      map[0 := Idle, 1 := Wrote(RevokeGrant(0, "operator", "left"), REVIEWER, 1), 2 := WantsShared(REVIEWER, EMPLOYER)], 2))
  {
    var granted := OperatorGrants();
    NotBlank();
    hide Run, Blank;
    var revoke := RevokeGrant(0, "operator", "left");
    var asked, held := granted + [Action(1, AskChange(revoke))], granted + [Action(1, AskChange(revoke))] + [Action(1, TakeExclusive)];
    RunStep(granted, Action(1, AskChange(revoke)));
    assert Run(asked).value.phases == map[0 := Idle, 1 := WantsExclusive(revoke)];
    RunStep(asked, Action(1, TakeExclusive));
    assert Run(held).value.phases == map[0 := Idle, 1 := HoldsExclusive(revoke, REVIEWER)];
    RunStep(held, Action(1, Write));
    var written := held + [Action(1, Write)];
    assert Run(written).value.phases == map[0 := Idle, 1 := Wrote(revoke, REVIEWER, 1)];
    RunStep(written, Action(2, AskAuthorize(REVIEWER, EMPLOYER)));
    actions := written + [Action(2, AskAuthorize(REVIEWER, EMPLOYER))];
  }

  lemma NotBlank()
    ensures !Blank("operator") && !Blank("approval") && !Blank("left") && !Blank(EMPLOYER)
  {
  }

  /** The operator grants again before client 2 is served: its check, which met the revocation, is allowed. */
  lemma InterveningGrantIsHonored() returns (actions: seq<Action>, more: seq<Action>)
    ensures Run(actions).Some? && PhaseOf(Run(actions).value, 2) == WantsShared(REVIEWER, EMPLOYER)
    ensures PhaseOf(Run(actions).value, 1) == Wrote(RevokeGrant(0, "operator", "left"), REVIEWER, 1)
    ensures ActiveGrant(Run(actions).value.tables, 0, REVIEWER, EMPLOYER) && StillAsking(more, 2)
    ensures var checked := Run(actions + [Action(1, Commit)] + more + [Action(2, Check)]);
      checked.Some? && PhaseOf(checked.value, 2) == Authorized(REVIEWER, EMPLOYER)
  {
    actions := MeetingRevocation();
    NotBlank();
    hide Run, Blank;
    var revoked := actions + [Action(1, Commit)];
    RunStep(actions, Action(1, Commit));
    var t := Before(map[0 := Given(Some(Revocation("operator", "left")))]);
    assert Run(revoked).value.tables == t;
    assert Run(revoked).value.phases == map[0 := Idle, 1 := Idle, 2 := WantsShared(REVIEWER, EMPLOYER)];
    assert Run(revoked) == Some(System(t, map[0 := Idle, 1 := Idle, 2 := WantsShared(REVIEWER, EMPLOYER)], 2));
    WholeRuns(revoked, 0, GrantOne());
    var granted := revoked + Whole(0, GrantOne());
    more := Whole(0, GrantOne()) + [Action(2, TakeShared)];
    RunStep(granted, Action(2, TakeShared));
    RunStep(granted + [Action(2, TakeShared)], Action(2, Check));
    assert revoked + more == granted + [Action(2, TakeShared)];
    assert ActiveGrant(Written(t, GrantOne(), 2), 2, REVIEWER, EMPLOYER);
  }
}
