/**
 * What a presented refresh token is worth, told from the rows alone, and what becomes of the sessions of a user who is
 * deactivated: internal/httpapi/refresh.go, logout.go and auth_handlers.go.
 */
module RefreshAccounts {
  import opened Common
  import opened RefreshTokens
  import opened RefreshProtocol

  // ---------------------------------------------------------------- the answer, row by row

  /** The token has a row, and so has its session, which is not revoked. */
  predicate Live(s: Store, token: nat) {
    token in s.tokens && s.tokens[token].session in s.sessions && s.sessions[s.tokens[token].session].revoked == false
  }

  /** The row of a presented token: not revoked, not past its expiry. */
  predicate Usable(s: Store, token: nat, now: Time) {
    Live(s, token) && s.tokens[token].revoked == false && now <= s.tokens[token].expiresAt
  }

  /** The user of the token's session, if the row exists. */
  function OwnerOf(s: Store, token: nat): Option<User>
    requires Live(s, token)
  {
    var identity := s.sessions[s.tokens[token].session].user;
    if identity in s.users then Some(s.users[identity]) else None
  }

  predicate KnownRole(role: Role) {
    role in {Requestor, HRReviewer, Recruiter, Cvera}
  }

  /**
   * Each answer with its exact condition: a token is rotated exactly when it is the current one of a live session, neither
   * revoked nor expired, and its user is active and has a known role.
   */
  lemma RefreshExactly(s: Store, token: nat, now: Time, next: nat)
    ensures var outcome := Refresh(s, token, now, next).1;
      && (outcome == InvalidToken <==> !Live(s, token))
      && (outcome == ExpiredOrRevoked <==> Live(s, token) && !Usable(s, token, now))
      && (outcome == Reused <==> Usable(s, token, now) && s.tokens[token].current == false)
      && (outcome == ServerError <==> Usable(s, token, now) && s.tokens[token].current && OwnerOf(s, token).None?)
      && (outcome == AccountInactive <==>
            Usable(s, token, now) && s.tokens[token].current && OwnerOf(s, token).Some? && !OwnerOf(s, token).value.active)
      && (outcome == InvalidRole <==>
            Usable(s, token, now) && s.tokens[token].current && OwnerOf(s, token).Some? && OwnerOf(s, token).value.active
            && !KnownRole(OwnerOf(s, token).value.role))
      && (outcome.Issued? <==>
            Usable(s, token, now) && s.tokens[token].current && OwnerOf(s, token).Some? && OwnerOf(s, token).value.active
            && KnownRole(OwnerOf(s, token).value.role))
      && (outcome.Issued? ==> outcome.token == next)
  {
  }

  /** The rows of one session, all revoked; every other row as it was. */
  ghost predicate EndedSession(before: Store, after: Store, session: nat) {
    && after.users == before.users
    && after.sessions.Keys == before.sessions.Keys && after.tokens.Keys == before.tokens.Keys
    && (forall x :: x in before.sessions ==>
          after.sessions[x] == if x == session then Session(before.sessions[x].user, true) else before.sessions[x])
    && (forall h :: h in before.tokens ==>
          after.tokens[h] ==
          if before.tokens[h].session == session && before.tokens[h].revoked == false
          then Token(session, false, true, before.tokens[h].expiresAt) else before.tokens[h])
  }

  /** One token spent and one added to its session, for thirty days; every other row as it was. */
  ghost predicate RotatedToken(before: Store, after: Store, spent: nat, next: nat, now: Time)
    requires spent in before.tokens
  {
    var t := before.tokens[spent];
    && after.users == before.users && after.sessions == before.sessions
    && after.tokens.Keys == before.tokens.Keys + {next}
    && after.tokens[next] == Token(t.session, true, false, now + 2_592_000_000_000_000)
    && (forall h :: h in before.tokens && h != next ==>
          after.tokens[h] == if h == spent then Token(t.session, false, t.revoked, t.expiresAt) else before.tokens[h])
  }

  /** And each answer with what it leaves in the tables: reuse and an inactive account end the session, a refusal changes nothing. */
  lemma RefreshLeaves(s: Store, token: nat, now: Time, next: nat)
    ensures var (after, outcome) := Refresh(s, token, now, next);
      && (outcome in {InvalidToken, ExpiredOrRevoked, ServerError, InvalidRole} ==> after == s)
      && (outcome in {Reused, AccountInactive} ==> token in s.tokens && EndedSession(s, after, s.tokens[token].session))
      && (outcome.Issued? ==> token in s.tokens && RotatedToken(s, after, token, next, now))
  {
  }

  /** A logout ends the session of the token, also with a token that was spent, expired or revoked; an unknown one does nothing. */
  lemma LogoutLeaves(s: Store, token: nat)
    ensures token in s.tokens && s.tokens[token].session in s.sessions ==>
      EndedSession(s, Logout(s, token), s.tokens[token].session)
    ensures token !in s.tokens || s.tokens[token].session !in s.sessions ==> Logout(s, token) == s
  {
  }

  /**
   * An exchange opens a session exactly for an identity whose account, if it has one, is active and has a known role; a
   * missing account is created as an active requestor.
   */
  lemma ExchangeExactly(s: Store, identity: string, now: Time, session: nat, next: nat)
    requires session !in s.sessions && next !in s.tokens
    ensures var (after, outcome) := Exchange(s, identity, now, session, next);
      && (outcome == MissingIdentity <==> identity == "")
      && (outcome == AccountInactive <==> identity != "" && identity in s.users && !s.users[identity].active)
      && (outcome == InvalidRole <==>
            identity != "" && identity in s.users && s.users[identity].active && !KnownRole(s.users[identity].role))
      && (outcome == Issued(next) <==>
            identity != "" && (identity in s.users ==> s.users[identity].active && KnownRole(s.users[identity].role)))
      && (!outcome.Issued? ==> after == s)
      && (outcome.Issued? ==>
            && after.users == (if identity in s.users then s.users else s.users[identity := User(true, Requestor)])
            && after.sessions == s.sessions[session := Session(identity, false)]
            && after.tokens == s.tokens[next := Token(session, true, false, now + 2_592_000_000_000_000)])
  {
  }

  // ---------------------------------------------------------------- a deactivated user, over runs

  predicate Inactive(s: Store, identity: string) {
    identity in s.users && s.users[identity].active == false
  }

  /** None of the actions makes the user active. */
  ghost predicate NotReactivated(more: seq<Action>, identity: string) {
    forall i :: 0 <= i < |more| && more[i].step.SetUser? && more[i].step.identity == identity ==> !more[i].step.user.active
  }

  lemma InactiveStep(s: System, a: Action, identity: string)
    requires Enabled(s, a.client, a.step) && Inactive(s.store, identity)
    requires a.step.SetUser? && a.step.identity == identity ==> !a.step.user.active
    ensures Inactive(Apply(s, a.client, a.step).store, identity)
  {
    hide Decide, Refreshable;
  }

  lemma RunLonger(actions: seq<Action>, more: seq<Action>)
    requires more != [] && Run(actions + more).Some?
    ensures var n := |more| - 1;
      && Run(actions + more[..n]).Some?
      && Enabled(Run(actions + more[..n]).value, more[n].client, more[n].step)
      && Run(actions + more).value == Apply(Run(actions + more[..n]).value, more[n].client, more[n].step)
  {
    var all, n := actions + more, |more| - 1;
    assert all[..|all| - 1] == actions + more[..n] && all[|all| - 1] == more[n];
  }

  /** A user stays inactive until an action makes it active; an exchange does not. */
  lemma {:induction false} StaysInactive(actions: seq<Action>, more: seq<Action>, identity: string)
    requires Run(actions).Some? && Run(actions + more).Some?
    requires Inactive(Run(actions).value.store, identity) && NotReactivated(more, identity)
    ensures Inactive(Run(actions + more).value.store, identity)
    decreases |more|
  {
    hide Run, Inactive, Enabled, Apply;
    if more == [] {
      assert actions + more == actions;
    } else {
      var n := |more| - 1;
      RunLonger(actions, more);
      StaysInactive(actions, more[..n], identity);
      InactiveStep(Run(actions + more[..n]).value, more[n], identity);
    }
  }

  ghost predicate OfOthers(more: seq<Action>, c: nat) {
    forall i :: 0 <= i < |more| ==> more[i].client != c
  }

  lemma OthersStep(s: System, a: Action, c: nat)
    requires Enabled(s, a.client, a.step) && a.client != c
    ensures PhaseOf(Apply(s, a.client, a.step), c) == PhaseOf(s, c)
  {
  }

  lemma {:induction false} PhaseStays(actions: seq<Action>, more: seq<Action>, c: nat)
    requires Run(actions).Some? && Run(actions + more).Some? && OfOthers(more, c)
    ensures PhaseOf(Run(actions + more).value, c) == PhaseOf(Run(actions).value, c)
    decreases |more|
  {
    hide Run, Enabled, Apply, PhaseOf;
    if more == [] {
      assert actions + more == actions;
    } else {
      var n := |more| - 1;
      RunLonger(actions, more);
      PhaseStays(actions, more[..n], c);
      OthersStep(Run(actions + more[..n]).value, more[n], c);
    }
  }

  lemma RunNext(actions: seq<Action>, a: Action)
    requires Run(actions).Some? && Enabled(Run(actions).value, a.client, a.step)
    ensures Run(actions + [a]) == Some(Apply(Run(actions).value, a.client, a.step))
  {
    assert (actions + [a])[..|actions|] == actions;
  }

  /** What a client that holds a session of an inactive user decides. */
  lemma InactiveDecision(s: System, c: nat, identity: string)
    requires Invariant(s) && Enabled(s, c, Work) && PhaseOf(s, c).request.RefreshWith? && Inactive(s.store, identity)
    requires PhaseOf(s, c).session in s.store.sessions && s.store.sessions[PhaseOf(s, c).session].user == identity
    ensures var phase, decided := PhaseOf(s, c), PhaseOf(Apply(s, c, Work), c);
      && decided.Decided? && decided.session == phase.session && !decided.effect.Rotate?
      && phase.request.token in s.store.tokens
      && (var t := s.store.tokens[phase.request.token];
          t.current && !t.revoked && phase.request.now <= t.expiresAt ==> decided.effect == RevokeFamily)
  {
    hide Families, Minted, Locking, FreshApart, Justified;
    assert Relies(s, PhaseOf(s, c));
  }

  /**
   * Once a user has been made inactive, and until an action makes it active again, no refresh decided on a session of that
   * user issues a token, in any interleaving. With a current token that is neither revoked nor expired it ends the session
   * when it commits, whatever other clients do before the commit.
   */
  lemma InactiveIsRefused(actions: seq<Action>, more: seq<Action>, rest: seq<Action>, c: nat, identity: string)
    requires Run(actions).Some? && Inactive(Run(actions).value.store, identity) && NotReactivated(more, identity)
    requires Run(actions + more).Some? && Enabled(Run(actions + more).value, c, Work)
    requires var s := Run(actions + more).value;
      var phase := PhaseOf(s, c);
      phase.request.RefreshWith? && phase.session in s.store.sessions && s.store.sessions[phase.session].user == identity
    requires OfOthers(rest, c)
    ensures var s, worked := Run(actions + more).value, actions + more + [Action(c, Work)];
      var phase := PhaseOf(s, c);
      && Run(worked).Some? && phase.request.token in s.store.tokens
      && (Run(worked + rest).Some? ==>
            var later := Run(worked + rest).value;
            && Enabled(later, c, Commit)
            && (forall x, spent, token :: Refreshed(x, spent, token) in Apply(later, c, Commit).log ==>
                  Refreshed(x, spent, token) in later.log)
            && (var t := s.store.tokens[phase.request.token];
                t.current && !t.revoked && phase.request.now <= t.expiresAt ==>
                  var after := Apply(later, c, Commit);
                  && Ended(phase.session) in after.log
                  && phase.session in after.store.sessions && after.store.sessions[phase.session].revoked
                  && forall h :: h in after.store.tokens && after.store.tokens[h].session == phase.session ==>
                       after.store.tokens[h].revoked && !after.store.tokens[h].current))
  {
    var s, worked := Run(actions + more).value, actions + more + [Action(c, Work)];
    StaysInactive(actions, more, identity);
    InvariantOfRuns(actions + more);
    InactiveDecision(s, c, identity);
    RunNext(actions + more, Action(c, Work));
    if Run(worked + rest).Some? {
      PhaseStays(worked, rest, c);
      InvariantOfRuns(worked + rest);
      CommitEnds(Run(worked + rest).value, c);
    }
    hide Run, Invariant, Apply, Enabled, OfOthers, NotReactivated, Inactive;
  }

  /** A commit of anything but a rotation adds no refresh, and of a revocation leaves the session ended. */
  lemma CommitEnds(s: System, c: nat)
    requires Invariant(s) && PhaseOf(s, c).Decided? && !PhaseOf(s, c).effect.Rotate?
    ensures Enabled(s, c, Commit)
    ensures forall x, spent, token :: Refreshed(x, spent, token) in Apply(s, c, Commit).log ==> Refreshed(x, spent, token) in s.log
    ensures PhaseOf(s, c).effect == RevokeFamily ==>
      var after, session := Apply(s, c, Commit), PhaseOf(s, c).session;
      && Ended(session) in after.log && session in after.store.sessions && after.store.sessions[session].revoked
      && forall h :: h in after.store.tokens && after.store.tokens[h].session == session ==>
           after.store.tokens[h].revoked && !after.store.tokens[h].current
  {
    hide Minted, Locking, FreshApart, Justified;
    assert Relies(s, PhaseOf(s, c));
    if PhaseOf(s, c).effect == RevokeFamily {
      var session, after := PhaseOf(s, c).session, Apply(s, c, Commit);
      InvariantKept(s, c, Commit);
      assert Family(after.store, after.log, session);
      assert after.log[|s.log|] == Ended(session);
    }
  }
}
