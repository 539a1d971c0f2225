/**
 * Refresh, logout and exchange requests of any number of clients, interleaved and aborting at any point. A refresh or a
 * logout locks the `auth_sessions` row of the presented token before it reads or writes token rows, and holds the lock
 * until it commits or aborts. An exchange writes only rows nobody else can see before it commits, so it is one step.
 */
module RefreshProtocol {
  import opened Common
  import opened RefreshTokens

  datatype Request = RefreshWith(token: nat, now: Time) | LogoutWith(token: nat)

  datatype Phase =
    | Idle
    | Wants(request: Request)
    | Holds(request: Request, session: nat)
    | Decided(request: Request, session: nat, effect: Effect)

  /** What commits, in commit order. */
  datatype Record =
    | Opened(session: nat, token: nat)
    | Refreshed(session: nat, spent: nat, token: nat)
    | Ended(session: nat)

  datatype System = System(
    store: Store,
    owners: map<nat, nat>,
    phases: map<nat, Phase>,
    minted: nat,
    log: seq<Record>)

  datatype Step =
    | Begin(request: Request)
    | Lock
    | Work
    | Commit
    | Abort
    | Open(identity: string, now: Time)
    | SetUser(identity: string, user: User)

  function PhaseOf(s: System, c: nat): Phase {
    if c in s.phases then s.phases[c] else Idle
  }

  function Initial(): System {
    System(Store(map[], map[], map[]), map[], map[], 0, [])
  }

  /** The session row that the request's first statement selects `FOR UPDATE`. */
  predicate Selects(s: Store, r: Request) {
    match r
    case RefreshWith(token, _) => Refreshable(s, token)
    case LogoutWith(token) => token in s.tokens && s.tokens[token].session in s.sessions
  }

  /** Whether client `c` can take the step now. A request that selects no row can only be abandoned. */
  predicate Enabled(s: System, c: nat, step: Step) {
    var phase := PhaseOf(s, c);
    match step
    case Begin(_) => phase.Idle?
    case Lock => phase.Wants? && Selects(s.store, phase.request) && s.store.tokens[phase.request.token].session !in s.owners
    case Work => phase.Holds? && (phase.request.RefreshWith? ==> Refreshable(s.store, phase.request.token))
    case Commit => phase.Decided?
    case Abort => !phase.Idle?
    case Open(_, _) => phase.Idle?
    case SetUser(_, _) => phase.Idle?
  }

  function Release(s: System, c: nat): System {
    s.(owners := map x | x in s.owners && s.owners[x] != c :: s.owners[x], phases := s.phases[c := Idle])
  }

  function Entry(session: nat, effect: Effect): seq<Record> {
    match effect
    case NoChange => []
    case RevokeFamily => [Ended(session)]
    case Rotate(spent, next, _) => [Refreshed(session, spent, next)]
  }

  function Apply(s: System, c: nat, step: Step): System
    requires Enabled(s, c, step)
  {
    var phase := PhaseOf(s, c);
    match step
    case Begin(request) => s.(phases := s.phases[c := Wants(request)])
    case Lock =>
      var session := s.store.tokens[phase.request.token].session;
      s.(owners := s.owners[session := c], phases := s.phases[c := Holds(phase.request, session)])
    case Work =>
      var effect := match phase.request
        case RefreshWith(token, now) => Decide(s.store, token, now, s.minted).0
        case LogoutWith(_) => RevokeFamily;
      s.(phases := s.phases[c := Decided(phase.request, phase.session, effect)], minted := s.minted + 1)
    case Commit =>
      Release(s.(store := Perform(s.store, phase.session, phase.effect),
                 log := s.log + Entry(phase.session, phase.effect)), c)
    case Abort => Release(s, c)
    case Open(identity, now) =>
      var outcome := Exchange(s.store, identity, now, s.minted, s.minted + 1);
      s.(store := outcome.0, minted := s.minted + 2,
         log := s.log + if outcome.1.Issued? then [Opened(s.minted, s.minted + 1)] else [])
    case SetUser(identity, user) => s.(store := s.store.(users := s.store.users[identity := user]))
  }

  datatype Action = Action(client: nat, step: Step)

  /** The state after some actions, or `None` if one of them was not possible. */
  function Run(actions: seq<Action>): Option<System> {
    if actions == [] then Some(Initial())
    else
      var s := Run(actions[..|actions| - 1]);
      var a := actions[|actions| - 1];
      if s.None? || !Enabled(s.value, a.client, a.step) then None else Some(Apply(s.value, a.client, a.step))
  }

  // ---------------------------------------------------------------- what the log tells

  /** The tokens issued to a session, first to last. */
  function Chain(log: seq<Record>, session: nat): seq<nat> {
    if log == [] then []
    else
      var last := log[|log| - 1];
      Chain(log[..|log| - 1], session) + if !last.Ended? && last.session == session then [last.token] else []
  }

  /** How many refreshes of a session have succeeded. */
  function Refreshes(log: seq<Record>, session: nat): nat {
    if log == [] then 0
    else
      var last := log[|log| - 1];
      Refreshes(log[..|log| - 1], session) + if last.Refreshed? && last.session == session then 1 else 0
  }

  predicate HasEnded(log: seq<Record>, session: nat) {
    exists i :: 0 <= i < |log| && log[i] == Ended(session)
  }

  ghost predicate NoRepeats(c: seq<nat>) {
    forall i, j :: 0 <= i < j < |c| ==> c[i] != c[j]
  }

  /** Every record follows from what was committed before it. */
  ghost predicate Justified(log: seq<Record>) {
    forall i :: 0 <= i < |log| ==> JustifiedBy(log[..i], log[i])
  }

  ghost predicate JustifiedBy(before: seq<Record>, r: Record) {
    var chain := Chain(before, r.session);
    match r
    case Opened(_, _) => chain == []
    case Refreshed(session, spent, _) => chain != [] && spent == chain[|chain| - 1] && !HasEnded(before, session)
    case Ended(_) => chain != []
  }

  // ---------------------------------------------------------------- the invariant

  /** A session that was ended has only revoked tokens; a live one has one current token, the last issued, none revoked. */
  ghost predicate Family(store: Store, log: seq<Record>, session: nat) {
    var chain := Chain(log, session);
    && (session in store.sessions <==> chain != [])
    && NoRepeats(chain)
    && (forall h :: h in chain <==> h in store.tokens && store.tokens[h].session == session)
    && (HasEnded(log, session) <==> session in store.sessions && store.sessions[session].revoked)
    && (session in store.sessions && store.sessions[session].revoked ==>
         forall i :: 0 <= i < |chain| ==> store.tokens[chain[i]].revoked && !store.tokens[chain[i]].current)
    && (session in store.sessions && !store.sessions[session].revoked ==>
         forall i :: 0 <= i < |chain| ==>
           !store.tokens[chain[i]].revoked && (store.tokens[chain[i]].current <==> i == |chain| - 1))
  }

  ghost predicate Families(s: System) {
    forall session: nat :: Family(s.store, s.log, session)
  }

  /** Ids in the tables have been minted. */
  ghost predicate Minted(s: System) {
    && (forall h :: h in s.store.tokens ==> h < s.minted)
    && (forall x :: x in s.store.sessions ==> x < s.minted)
  }

  ghost predicate Locking(s: System) {
    && (forall c: nat :: (PhaseOf(s, c).Holds? || PhaseOf(s, c).Decided?) ==>
         PhaseOf(s, c).session in s.owners && s.owners[PhaseOf(s, c).session] == c)
    && (forall x :: x in s.owners ==>
         var phase := PhaseOf(s, s.owners[x]);
         (phase.Holds? || phase.Decided?) && phase.session == x)
  }

  /** What a client that holds a session relies on. */
  ghost predicate Relies(s: System, phase: Phase) {
    && (phase.Holds? || phase.Decided? ==> phase.session in s.store.sessions)
    && (phase.Holds? ==>
         phase.request.token in s.store.tokens && s.store.tokens[phase.request.token].session == phase.session)
    && (phase.Holds? && phase.request.RefreshWith? ==> !s.store.sessions[phase.session].revoked)
    && (phase.Decided? && phase.effect.Rotate? ==>
         && phase.effect.next < s.minted && phase.effect.next !in s.store.tokens
         && phase.effect.spent in s.store.tokens && s.store.tokens[phase.effect.spent].session == phase.session
         && s.store.tokens[phase.effect.spent].current && !s.store.sessions[phase.session].revoked)
  }

  predicate Rotating(phase: Phase) {
    phase.Decided? && phase.effect.Rotate?
  }

  /** No two clients are about to insert the same token. */
  ghost predicate FreshApart(s: System) {
    forall c: nat, d: nat ::
      (c != d && Rotating(PhaseOf(s, c)) && Rotating(PhaseOf(s, d))) ==>
      PhaseOf(s, c).effect.next != PhaseOf(s, d).effect.next
  }

  ghost predicate Invariant(s: System) {
    && Families(s) && Minted(s) && Locking(s) && FreshApart(s) && Justified(s.log)
    && forall c: nat :: Relies(s, PhaseOf(s, c))
  }

  // ---------------------------------------------------------------- the invariant is kept

  lemma LogStep(log: seq<Record>, r: Record, session: nat)
    ensures Chain(log + [r], session) ==
            Chain(log, session) + if !r.Ended? && r.session == session then [r.token] else []
    ensures HasEnded(log + [r], session) <==> HasEnded(log, session) || r == Ended(session)
    ensures Justified(log) && JustifiedBy(log, r) ==> Justified(log + [r])
  {
    assert (log + [r])[..|log|] == log;
    if HasEnded(log, session) {
      var i :| 0 <= i < |log| && log[i] == Ended(session);
      assert (log + [r])[i] == Ended(session);
    }
    if r == Ended(session) {
      assert (log + [r])[|log|] == Ended(session);
    }
    forall i | 0 <= i < |log| ensures (log + [r])[..i] == log[..i] {
    }
  }

  /** Two stores have the same rows for a session. */
  ghost predicate SameRows(a: Store, b: Store, x: nat) {
    && (x in a.sessions <==> x in b.sessions) && (x in a.sessions ==> a.sessions[x] == b.sessions[x])
    && (forall h :: (h in a.tokens && a.tokens[h].session == x) <==> (h in b.tokens && b.tokens[h].session == x))
    && (forall h :: h in a.tokens && a.tokens[h].session == x ==> b.tokens[h] == a.tokens[h])
  }

  lemma FamilyFrame(a: Store, b: Store, log: seq<Record>, grown: seq<Record>, x: nat)
    requires Family(a, log, x) && SameRows(a, b, x)
    requires Chain(grown, x) == Chain(log, x) && (HasEnded(grown, x) <==> HasEnded(log, x))
    ensures Family(b, grown, x)
  {
    hide Chain, HasEnded;
    var chain := Chain(log, x);
    assert forall i :: 0 <= i < |chain| ==> chain[i] in chain;
  }

  lemma OtherRows(store: Store, session: nat, effect: Effect, x: nat)
    requires x != session
    requires effect.Rotate? ==> effect.next !in store.tokens && effect.spent in store.tokens && store.tokens[effect.spent].session == session
    ensures SameRows(store, Perform(store, session, effect), x)
  {
  }

  /** A commit leaves every other session's family as it was. */
  lemma OtherFamily(store: Store, log: seq<Record>, session: nat, effect: Effect, x: nat)
    requires x != session && Family(store, log, x)
    requires effect.Rotate? ==> effect.next !in store.tokens && effect.spent in store.tokens && store.tokens[effect.spent].session == session
    ensures Family(Perform(store, session, effect), log + Entry(session, effect), x)
  {
    hide HasEnded, Chain, Family, Perform, SameRows;
    if Entry(session, effect) == [] {
      assert log + [] == log;
    } else {
      LogStep(log, Entry(session, effect)[0], x);
      assert Chain(log, x) + [] == Chain(log, x);
    }
    OtherRows(store, session, effect, x);
    FamilyFrame(store, Perform(store, session, effect), log, log + Entry(session, effect), x);
  }

  lemma RevokedFamily(store: Store, log: seq<Record>, session: nat)
    requires Family(store, log, session) && session in store.sessions
    ensures Family(Revoked(store, session), log + [Ended(session)], session)
  {
    hide HasEnded;
    LogStep(log, Ended(session), session);
    assert Chain(log, session) + [] == Chain(log, session);
  }

  lemma RotatedFamily(store: Store, log: seq<Record>, session: nat, effect: Effect)
    requires Family(store, log, session) && session in store.sessions && !store.sessions[session].revoked
    requires effect.Rotate? && effect.next !in store.tokens
    requires effect.spent in store.tokens && store.tokens[effect.spent].session == session && store.tokens[effect.spent].current
    ensures Family(Perform(store, session, effect), log + Entry(session, effect), session)
    ensures Chain(log, session) != [] && effect.spent == Chain(log, session)[|Chain(log, session)| - 1]
  {
    hide HasEnded, Chain;
    LogStep(log, Entry(session, effect)[0], session);
    var chain := Chain(log, session);
    assert effect.spent in chain;
    assert effect.next !in chain;
  }

  lemma OpenedFamily(s: System, identity: string, now: Time, x: nat)
    requires Families(s) && Minted(s) && Exchange(s.store, identity, now, s.minted, s.minted + 1).1.Issued?
    ensures Family(Exchange(s.store, identity, now, s.minted, s.minted + 1).0, s.log + [Opened(s.minted, s.minted + 1)], x)
  {
    hide HasEnded, Chain;
    LogStep(s.log, Opened(s.minted, s.minted + 1), x);
    assert Family(s.store, s.log, x);
    if x == s.minted {
      assert Chain(s.log, x) == [];
    } else {
      assert Chain(s.log, x) + [] == Chain(s.log, x);
    }
  }

  // ---------------------------------------------------------------- one step

  lemma LockingKept(s: System, c: nat, step: Step)
    requires Locking(s) && Enabled(s, c, step)
    ensures Locking(Apply(s, c, step))
  {
    hide Perform, Exchange, Decide, Refreshable;
    assert forall d: nat :: d != c ==> PhaseOf(Apply(s, c, step), d) == PhaseOf(s, d);
  }

  lemma FreshApartKept(s: System, c: nat, step: Step)
    requires Invariant(s) && Enabled(s, c, step)
    ensures FreshApart(Apply(s, c, step))
  {
    hide Perform, Exchange, Families, Locking, Minted, Justified;
    var after := Apply(s, c, step);
    assert forall d: nat :: d != c ==> PhaseOf(after, d) == PhaseOf(s, d);
    forall d: nat | Rotating(PhaseOf(s, d)) ensures PhaseOf(s, d).effect.next < s.minted {
      assert Relies(s, PhaseOf(s, d));
    }
  }

  lemma MintedKept(s: System, c: nat, step: Step)
    requires Minted(s) && Enabled(s, c, step) && Relies(s, PhaseOf(s, c))
    ensures Minted(Apply(s, c, step))
  {
  }

  /** Another client's step does not disturb what the holder of a session relies on. */
  lemma ReliesKept(s: System, c: nat, step: Step, d: nat)
    requires Invariant(s) && Enabled(s, c, step) && d != c
    ensures Relies(Apply(s, c, step), PhaseOf(s, d))
  {
    hide Families, Justified;
    assert Relies(s, PhaseOf(s, c)) && Relies(s, PhaseOf(s, d));
  }

  lemma OwnRelies(s: System, c: nat, step: Step)
    requires Invariant(s) && Enabled(s, c, step)
    ensures Relies(Apply(s, c, step), PhaseOf(Apply(s, c, step), c))
  {
    hide Families, FreshApart, Justified;
    assert Relies(s, PhaseOf(s, c));
  }

  lemma CommittedFamilies(s: System, session: nat, effect: Effect)
    requires Families(s) && Justified(s.log) && session in s.store.sessions
    requires effect.Rotate? ==>
      effect.next !in s.store.tokens && effect.spent in s.store.tokens && s.store.tokens[effect.spent].session == session &&
      s.store.tokens[effect.spent].current && !s.store.sessions[session].revoked
    ensures forall x: nat :: Family(Perform(s.store, session, effect), s.log + Entry(session, effect), x)
    ensures Justified(s.log + Entry(session, effect))
  {
    hide Perform, Chain, HasEnded, Justified;
    forall x: nat ensures Family(Perform(s.store, session, effect), s.log + Entry(session, effect), x) {
      assert Family(s.store, s.log, x);
      if x != session {
        OtherFamily(s.store, s.log, session, effect, x);
      } else {
        OwnFamily(s.store, s.log, session, effect);
      }
    }
    assert Family(s.store, s.log, session);
    OwnFamily(s.store, s.log, session, effect);
  }

  lemma OwnFamily(store: Store, log: seq<Record>, session: nat, effect: Effect)
    requires Family(store, log, session) && session in store.sessions && Justified(log)
    requires effect.Rotate? ==>
      effect.next !in store.tokens && effect.spent in store.tokens && store.tokens[effect.spent].session == session &&
      store.tokens[effect.spent].current && !store.sessions[session].revoked
    ensures Family(Perform(store, session, effect), log + Entry(session, effect), session)
    ensures Justified(log + Entry(session, effect))
  {
    hide Chain, HasEnded, Justified;
    if effect.NoChange? {
      assert log + [] == log;
    } else if effect.RevokeFamily? {
      RevokedFamily(store, log, session);
      LogStep(log, Ended(session), session);
    } else {
      RotatedFamily(store, log, session, effect);
      LogStep(log, Refreshed(session, effect.spent, effect.next), session);
    }
  }

  lemma OpenedFamilies(s: System, identity: string, now: Time)
    requires Families(s) && Minted(s) && Justified(s.log)
    ensures var (store, outcome) := Exchange(s.store, identity, now, s.minted, s.minted + 1);
      var log := s.log + if outcome.Issued? then [Opened(s.minted, s.minted + 1)] else [];
      (forall x: nat :: Family(store, log, x)) && Justified(log)
  {
    hide Chain, HasEnded, Justified;
    var (store, outcome) := Exchange(s.store, identity, now, s.minted, s.minted + 1);
    if outcome.Issued? {
      var log := s.log + [Opened(s.minted, s.minted + 1)];
      forall x: nat ensures Family(store, log, x) {
        OpenedFamily(s, identity, now, x);
      }
      assert Family(s.store, s.log, s.minted);
      LogStep(s.log, Opened(s.minted, s.minted + 1), s.minted);
    } else {
      assert s.log + [] == s.log;
      assert forall x: nat :: Family(s.store, s.log, x);
    }
  }

  lemma FamiliesKept(s: System, c: nat, step: Step)
    requires Invariant(s) && Enabled(s, c, step)
    ensures Families(Apply(s, c, step)) && Justified(Apply(s, c, step).log)
  {
    hide Locking, FreshApart, Minted, Chain, HasEnded;
    var after, phase := Apply(s, c, step), PhaseOf(s, c);
    assert Relies(s, phase);
    if step.Commit? {
      CommittedFamilies(s, phase.session, phase.effect);
    } else if step.Open? {
      OpenedFamilies(s, step.identity, step.now);
    } else {
      assert after.log == s.log && after.store.sessions == s.store.sessions && after.store.tokens == s.store.tokens;
      forall x: nat ensures Family(after.store, after.log, x) {
        assert Family(s.store, s.log, x);
      }
    }
  }

  lemma InvariantKept(s: System, c: nat, step: Step)
    requires Invariant(s) && Enabled(s, c, step)
    ensures Invariant(Apply(s, c, step))
  {
    var after := Apply(s, c, step);
    assert Relies(s, PhaseOf(s, c)) && forall d: nat :: d != c ==> PhaseOf(after, d) == PhaseOf(s, d) by {
      hide Relies, Enabled, Perform, Exchange, Decide, Families, Minted, Locking, FreshApart, Justified;
    }
    hide Relies, Enabled, Apply, PhaseOf, Families, Minted, Locking, FreshApart, Justified;
    LockingKept(s, c, step);
    FreshApartKept(s, c, step);
    MintedKept(s, c, step);
    FamiliesKept(s, c, step);
    forall d: nat ensures Relies(after, PhaseOf(after, d)) {
      if d == c {
        OwnRelies(s, c, step);
      } else {
        ReliesKept(s, c, step, d);
      }
    }
  }

  lemma {:induction false} InvariantOfRuns(actions: seq<Action>)
    requires Run(actions).Some?
    ensures Invariant(Run(actions).value)
  {
    hide Invariant, Enabled, Apply;
    if actions == [] {
      InvariantAtFirst();
    } else {
      InvariantOfRuns(actions[..|actions| - 1]);
      InvariantKept(Run(actions[..|actions| - 1]).value, actions[|actions| - 1].client, actions[|actions| - 1].step);
    }
  }

  lemma InvariantAtFirst()
    ensures Invariant(Initial())
  {
    forall session: nat ensures Family(Initial().store, [], session) {
    }
  }

  // ---------------------------------------------------------------- what every run guarantees

  lemma {:induction false} ChainLength(log: seq<Record>, session: nat)
    requires Justified(log)
    ensures |Chain(log, session)| == (if Chain(log, session) == [] then 0 else 1) + Refreshes(log, session)
  {
    if log != [] {
      var before := log[..|log| - 1];
      assert forall i :: 0 <= i < |before| ==> before[..i] == log[..i];
      ChainLength(before, session);
      assert JustifiedBy(before, log[|log| - 1]);
    }
  }

  function TokensOf(store: Store, session: nat): set<nat> {
    set h | h in store.tokens && store.tokens[h].session == session
  }

  /** `h` is the one current token of a session. */
  ghost predicate SoleCurrent(store: Store, session: nat, h: nat) {
    h in TokensOf(store, session) && forall g :: g in TokensOf(store, session) ==> (store.tokens[g].current <==> g == h)
  }

  function Elements(c: seq<nat>): set<nat> {
    set h | h in c
  }

  lemma {:induction false} NoRepeatsSize(c: seq<nat>)
    requires NoRepeats(c)
    ensures |Elements(c)| == |c|
  {
    if c != [] {
      NoRepeatsSize(c[1..]);
      assert c == [c[0]] + c[1..];
      assert Elements(c) == Elements(c[1..]) + {c[0]};
      assert c[0] !in c[1..];
    }
  }

  lemma FamilyTokens(store: Store, log: seq<Record>, session: nat)
    requires Family(store, log, session) && session in store.sessions
    ensures TokensOf(store, session) == Elements(Chain(log, session)) && Chain(log, session) != []
    ensures store.sessions[session].revoked ==>
      forall h :: h in TokensOf(store, session) ==> store.tokens[h].revoked && !store.tokens[h].current
    ensures !store.sessions[session].revoked ==> forall h :: h in TokensOf(store, session) ==> !store.tokens[h].revoked
    ensures !store.sessions[session].revoked ==>
      SoleCurrent(store, session, Chain(log, session)[|Chain(log, session)| - 1])
  {
    hide HasEnded, Chain;
    var chain := Chain(log, session);
    assert forall h :: h in chain ==> exists i :: 0 <= i < |chain| && chain[i] == h;
  }

  /**
   * In every reachable state each session has one token more than it has had successful refreshes. A live session has
   * exactly one current token and none of its tokens is revoked; a revoked session has no current token and all of its
   * tokens are revoked.
   */
  lemma FamiliesOfRuns(actions: seq<Action>, session: nat)
    requires Run(actions).Some? && session in Run(actions).value.store.sessions
    ensures var s := Run(actions).value;
      |TokensOf(s.store, session)| == 1 + Refreshes(s.log, session)
    ensures var s := Run(actions).value;
      if s.store.sessions[session].revoked then
        forall h :: h in TokensOf(s.store, session) ==> s.store.tokens[h].revoked && !s.store.tokens[h].current
      else
        (forall h :: h in TokensOf(s.store, session) ==> !s.store.tokens[h].revoked) &&
        (exists h :: SoleCurrent(s.store, session, h))
  {
    hide Run, Refreshes, Chain, Elements, HasEnded, Justified, Locking, SoleCurrent, TokensOf;
    InvariantOfRuns(actions);
    var s := Run(actions).value;
    assert Family(s.store, s.log, session);
    FamilyTokens(s.store, s.log, session);
    ChainLength(s.log, session);
    NoRepeatsSize(Chain(s.log, session));
  }

  // ---------------------------------------------------------------- single use

  lemma {:induction false} ChainGrows(log: seq<Record>, k: nat, session: nat)
    requires k <= |log|
    ensures Chain(log[..k], session) <= Chain(log, session)
  {
    if k == |log| {
      assert log[..k] == log;
    } else {
      assert log[..|log| - 1][..k] == log[..k];
      ChainGrows(log[..|log| - 1], k, session);
    }
  }

  /** Where two tokens stand in the chains of a family. */
  lemma RedeemedAt(log: seq<Record>, i: nat, session: nat) returns (k: nat)
    requires Justified(log) && i < |log| && log[i].Refreshed? && log[i].session == session
    ensures k + 1 < |Chain(log, session)|
    ensures Chain(log, session)[k] == log[i].spent && Chain(log, session)[k + 1] == log[i].token
    ensures k + 2 == |Chain(log[..i + 1], session)|
  {
    assert JustifiedBy(log[..i], log[i]);
    ChainGrows(log, i + 1, session);
    assert log[..i + 1][..i] == log[..i];
    k := |Chain(log[..i], session)| - 1;
  }

  /** No token is ever redeemed twice, in any interleaving. */
  lemma RedeemedOnce(actions: seq<Action>, i: nat, j: nat)
    requires Run(actions).Some? && i < j < |Run(actions).value.log|
    requires Run(actions).value.log[i].Refreshed? && Run(actions).value.log[j].Refreshed?
    ensures Run(actions).value.log[i].spent != Run(actions).value.log[j].spent
  {
    hide Run, Justified, HasEnded, Locking;
    InvariantOfRuns(actions);
    var s := Run(actions).value;
    var a, b := s.log[i], s.log[j];
    assert Family(s.store, s.log, a.session) && Family(s.store, s.log, b.session);
    var k := RedeemedAt(s.log, i, a.session);
    var l := RedeemedAt(s.log, j, b.session);
    assert a.spent in Chain(s.log, a.session) && b.spent in Chain(s.log, b.session);
    if a.spent == b.spent {
      assert k == l;
      Later(s.log, i, j, a.session);
    }
  }

  lemma Later(log: seq<Record>, i: nat, j: nat, session: nat)
    requires i < j < |log| && log[j].Refreshed? && log[j].session == session
    ensures |Chain(log[..i + 1], session)| < |Chain(log[..j + 1], session)|
  {
    assert log[..j][..i + 1] == log[..i + 1];
    ChainGrows(log[..j], i + 1, session);
    assert log[..j + 1][..j] == log[..j];
  }

  /** Once a session has ended, none of its tokens can be refreshed, and no refresh of it ever commits again. */
  lemma EndedForGood(actions: seq<Action>, i: nat)
    requires Run(actions).Some? && i < |Run(actions).value.log| && Run(actions).value.log[i].Ended?
    ensures var s := Run(actions).value;
      forall h :: h in TokensOf(s.store, s.log[i].session) ==> !Refreshable(s.store, h)
    ensures var s := Run(actions).value;
      forall j :: i < j < |s.log| && s.log[j].Refreshed? ==> s.log[j].session != s.log[i].session
  {
    hide Run, Chain, Locking;
    InvariantOfRuns(actions);
    var s := Run(actions).value;
    assert Family(s.store, s.log, s.log[i].session);
    forall j | i < j < |s.log| && s.log[j].Refreshed? ensures s.log[j].session != s.log[i].session {
      assert JustifiedBy(s.log[..j], s.log[j]);
      assert s.log[..j][i] == s.log[i];
    }
  }

  /**
   * A token that was redeemed before never buys anything: presenting it again is detected as reuse, and ends the session,
   * exactly when the session is still live and the token has not expired.
   */
  lemma ReuseIsDetected(actions: seq<Action>, i: nat, now: Time, next: nat)
    requires Run(actions).Some? && i < |Run(actions).value.log| && Run(actions).value.log[i].Refreshed?
    ensures var s := Run(actions).value;
      var spent, session := s.log[i].spent, s.log[i].session;
      var (after, outcome) := Refresh(s.store, spent, now, next);
      && spent in s.store.tokens && session in s.store.sessions && !outcome.Issued?
      && (outcome == Reused <==> !s.store.sessions[session].revoked && now <= s.store.tokens[spent].expiresAt)
      && (outcome == Reused ==> after.sessions[session].revoked)
      && (outcome != Reused ==> after == s.store)
  {
    hide Run, Chain, HasEnded, Justified, Locking;
    InvariantOfRuns(actions);
    var s := Run(actions).value;
    assert Family(s.store, s.log, s.log[i].session);
    var k := RedeemedAt(s.log, i, s.log[i].session);
    assert Chain(s.log, s.log[i].session)[k] in Chain(s.log, s.log[i].session);
  }

  /** A client that holds a session lock waits for nobody: its next step is always possible. */
  lemma HoldersGoOn(actions: seq<Action>, c: nat)
    requires Run(actions).Some?
    ensures var s := Run(actions).value;
      && (PhaseOf(s, c).Holds? ==> Enabled(s, c, Work))
      && (PhaseOf(s, c).Decided? ==> Enabled(s, c, Commit))
  {
    hide Run, Families, Justified;
    InvariantOfRuns(actions);
    assert Relies(Run(actions).value, PhaseOf(Run(actions).value, c));
  }

  /** The steps of one request, with nothing in between. */
  function Steps(c: nat, r: Request): seq<Action> {
    [Action(c, Begin(r)), Action(c, Lock), Action(c, Work), Action(c, Commit)]
  }

  /** A request whose steps run without interruption is the one transaction it is written as. */
  lemma AloneIsAtomic(actions: seq<Action>, c: nat, r: Request)
    requires Run(actions).Some? && PhaseOf(Run(actions).value, c).Idle? && Selects(Run(actions).value.store, r)
    requires Run(actions).value.store.tokens[r.token].session !in Run(actions).value.owners
    ensures Run(actions + Steps(c, r)).Some?
    ensures var before, after := Run(actions).value, Run(actions + Steps(c, r)).value;
      after.store == if r.RefreshWith? then Refresh(before.store, r.token, r.now, before.minted).0 else Logout(before.store, r.token)
  {
    hide Decide, Revoked;
    var s := Run(actions).value;
    var a1 := actions + [Action(c, Begin(r))];
    var a2 := a1 + [Action(c, Lock)];
    var a3 := a2 + [Action(c, Work)];
    var a4 := a3 + [Action(c, Commit)];
    assert a1[..|actions|] == actions && a2[..|a1|] == a1 && a3[..|a2|] == a2 && a4[..|a3|] == a3;
    assert actions + Steps(c, r) == a4;
    assert Run(a1) == Some(Apply(s, c, Begin(r)));
    assert Run(a2) == Some(Apply(Run(a1).value, c, Lock));
    assert Run(a3) == Some(Apply(Run(a2).value, c, Work));
    assert Run(a4) == Some(Apply(Run(a3).value, c, Commit));
  }
}
