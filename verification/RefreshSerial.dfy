/**
 * Refresh, logout and exchange are serializable: the tables that any interleaving leaves are those of its committed
 * requests run one after the other, each as the one transaction it is written as. A request stands in that order where it
 * takes its decision, since a user may change between the decision and the commit.
 */
module RefreshSerial {
  import opened Common
  import opened RefreshTokens
  import opened RefreshProtocol

  datatype Transaction =
    | RefreshOf(token: nat, now: Time, next: nat)
    | LogoutOf(token: nat)
    | ExchangeOf(identity: string, now: Time, session: nat, next: nat)
    | UserOf(identity: string, user: User)

  function After(s: Store, t: Transaction): Store {
    match t
    case RefreshOf(token, now, next) => Refresh(s, token, now, next).0
    case LogoutOf(token) => Logout(s, token)
    case ExchangeOf(identity, now, session, next) => Exchange(s, identity, now, session, next).0
    case UserOf(identity, user) => s.(users := s.users[identity := user])
  }

  /** The tables after some transactions, one after the other. */
  function Serially(transactions: seq<Transaction>): Store {
    if transactions == [] then Initial().store
    else After(Serially(transactions[..|transactions| - 1]), transactions[|transactions| - 1])
  }

  /** From action `k` on, the client ends its transaction with a commit. */
  predicate Commits(actions: seq<Action>, k: nat, c: nat)
    decreases |actions| - k
  {
    k < |actions| &&
    if actions[k].client == c && (actions[k].step.Commit? || actions[k].step.Abort?) then actions[k].step.Commit?
    else Commits(actions, k + 1, c)
  }

  function RequestOf(r: Request, next: nat): Transaction {
    match r
    case RefreshWith(token, now) => RefreshOf(token, now, next)
    case LogoutWith(token) => LogoutOf(token)
  }

  /** The transaction that action `k` decides, if it commits. */
  function TransactionAt(actions: seq<Action>, k: nat): seq<Transaction>
    requires k < |actions|
  {
    var s, a := Run(actions[..k]), actions[k];
    if s.None? then []
    else
      match a.step
      case Work =>
        var phase := PhaseOf(s.value, a.client);
        if phase.Holds? && Commits(actions, k + 1, a.client) then [RequestOf(phase.request, s.value.minted)] else []
      case Open(identity, now) => [ExchangeOf(identity, now, s.value.minted, s.value.minted + 1)]
      case SetUser(identity, user) => [UserOf(identity, user)]
      case _ => []
  }

  /** The transactions of the first `k` actions that commit in the end, in the order of their decisions. */
  function Order(actions: seq<Action>, k: nat): seq<Transaction>
    requires k <= |actions|
  {
    if k == 0 then [] else Order(actions, k - 1) + TransactionAt(actions, k - 1)
  }

  // ---------------------------------------------------------------- rows of one session

  lemma SameRowsChain(a: Store, b: Store, c: Store, x: nat)
    requires SameRows(a, b, x) && SameRows(b, c, x)
    ensures SameRows(a, c, x)
  {
  }

  lemma SameRowsBack(a: Store, b: Store, x: nat)
    requires SameRows(a, b, x)
    ensures SameRows(b, a, x)
  {
  }

  /** An effect can be performed on a session: it spends a token of that session and issues one that does not exist. */
  ghost predicate Fits(s: Store, x: nat, effect: Effect) {
    effect.Rotate? ==>
      effect.next !in s.tokens && effect.spent in s.tokens && s.tokens[effect.spent].session == x
  }

  /** What an effect makes of a session depends on the rows of that session only. */
  lemma PerformSame(a: Store, b: Store, x: nat, effect: Effect)
    requires SameRows(a, b, x) && Fits(a, x, effect) && Fits(b, x, effect)
    ensures SameRows(Perform(a, x, effect), Perform(b, x, effect), x)
  {
  }

  /** Stores with the same users and the same rows for every session are the same. */
  lemma SameStores(a: Store, b: Store)
    requires a.users == b.users && forall x: nat :: SameRows(a, b, x)
    ensures a == b
  {
    forall x: nat ensures x in a.sessions <==> x in b.sessions {
      assert SameRows(a, b, x);
    }
    forall x: nat | x in a.sessions ensures a.sessions[x] == b.sessions[x] {
      assert SameRows(a, b, x);
    }
    assert a.sessions == b.sessions;
    forall h: nat ensures h in a.tokens <==> h in b.tokens {
      assert h in a.tokens ==> SameRows(a, b, a.tokens[h].session);
      assert h in b.tokens ==> SameRows(a, b, b.tokens[h].session);
    }
    forall h: nat | h in a.tokens ensures a.tokens[h] == b.tokens[h] {
      assert SameRows(a, b, a.tokens[h].session);
    }
    assert a.tokens == b.tokens;
  }

  // ---------------------------------------------------------------- ahead of the tables

  /** The tables with what the owner of a session has decided, if that is going to commit. */
  function WithDecision(s: System, x: nat, committing: set<nat>): Store {
    if x in s.owners && s.owners[x] in committing && PhaseOf(s, s.owners[x]).Decided?
    then Perform(s.store, x, PhaseOf(s, s.owners[x]).effect) else s.store
  }

  /** Session by session, `serial` is the tables with everything decided that is going to commit. */
  ghost predicate Ahead(serial: Store, s: System, committing: set<nat>) {
    serial.users == s.store.users && forall x: nat :: SameRows(serial, WithDecision(s, x, committing), x)
  }

  /** The decisions that are going to commit. */
  function Committing(s: System, actions: seq<Action>, k: nat): set<nat> {
    set c | c in s.phases && PhaseOf(s, c).Decided? && Commits(actions, k, c)
  }

  /** Nothing in it has an id that is still to be given out. */
  lemma AheadMinted(serial: Store, s: System, committing: set<nat>)
    requires Ahead(serial, s, committing) && Invariant(s)
    ensures forall h :: h in serial.tokens ==> h < s.minted
    ensures forall x :: x in serial.sessions ==> x < s.minted
  {
    hide Families, FreshApart, Justified;
    forall h | h in serial.tokens ensures h < s.minted {
      var x := serial.tokens[h].session;
      assert SameRows(serial, WithDecision(s, x, committing), x);
      if x in s.owners {
        assert Relies(s, PhaseOf(s, s.owners[x]));
      }
    }
    forall x | x in serial.sessions ensures x < s.minted {
      assert SameRows(serial, WithDecision(s, x, committing), x);
    }
  }

  /** Beginning, waiting and giving up decide nothing; nor does a decision that is given up later. */
  lemma AheadUnchanged(serial: Store, s: System, c: nat, step: Step, committing: set<nat>)
    requires Ahead(serial, s, committing) && Invariant(s) && Enabled(s, c, step) && c !in committing
    requires step.Begin? || step.Lock? || step.Work? || step.Abort?
    ensures Ahead(serial, Apply(s, c, step), committing)
  {
    hide Families, Minted, FreshApart, Justified, Relies, SameRows, Perform, Decide, Refreshable, Selects;
    var after := Apply(s, c, step);
    forall x: nat ensures WithDecision(after, x, committing) == WithDecision(s, x, committing) {
    }
    forall x: nat ensures SameRows(serial, WithDecision(after, x, committing), x) {
      assert SameRows(serial, WithDecision(s, x, committing), x);
    }
  }

  /** What a holder of a session decides depends on the rows of that session and on the users. */
  lemma SameDecision(a: Store, b: Store, x: nat, token: nat, now: Time, next: nat)
    requires a.users == b.users && SameRows(a, b, x)
    requires Refreshable(b, token) && b.tokens[token].session == x
    ensures Refreshable(a, token) && a.tokens[token].session == x
    ensures Decide(a, token, now, next) == Decide(b, token, now, next)
  {
  }

  function EffectOf(s: Store, r: Request, next: nat): Effect
    requires r.RefreshWith? ==> Refreshable(s, r.token)
  {
    match r
    case RefreshWith(token, now) => Decide(s, token, now, next).0
    case LogoutWith(_) => RevokeFamily
  }

  /** The transaction does to the serial tables what the holder of the session decides. */
  lemma DecidedAfter(serial: Store, s: Store, x: nat, r: Request, next: nat)
    requires serial.users == s.users && SameRows(serial, s, x)
    requires r.token in s.tokens && s.tokens[r.token].session == x && x in s.sessions
    requires r.RefreshWith? ==> Refreshable(s, r.token)
    ensures After(serial, RequestOf(r, next)) == Perform(serial, x, EffectOf(s, r, next))
    ensures r.RefreshWith? ==> Refresh(serial, r.token, r.now, next).1 == Decide(s, r.token, r.now, next).1
  {
    hide Perform, Revoked;
    if r.RefreshWith? {
      SameDecision(serial, s, x, r.token, r.now, next);
    } else {
      assert r.token in serial.tokens && serial.tokens[r.token].session == x && x in serial.sessions;
      RevokedIsPerformed(serial, x);
    }
  }

  lemma RevokedIsPerformed(s: Store, x: nat)
    ensures Perform(s, x, RevokeFamily) == Revoked(s, x)
  {
  }

  lemma EffectFits(s: Store, x: nat, r: Request, next: nat)
    requires r.RefreshWith? ==> Refreshable(s, r.token) && s.tokens[r.token].session == x && next !in s.tokens
    ensures Fits(s, x, EffectOf(s, r, next))
  {
  }

  lemma WorkApplied(s: System, c: nat)
    requires Enabled(s, c, Work)
    ensures var phase := PhaseOf(s, c);
      && phase.Holds? && Apply(s, c, Work).store == s.store && Apply(s, c, Work).owners == s.owners
      && PhaseOf(Apply(s, c, Work), c) == Decided(phase.request, phase.session, EffectOf(s.store, phase.request, s.minted))
    ensures forall d: nat :: d != c ==> PhaseOf(Apply(s, c, Work), d) == PhaseOf(s, d)
  {
  }

  /** A decision that is going to commit is made ahead of the commit in the serial tables. */
  lemma AheadDecided(serial: Store, s: System, c: nat, committing: set<nat>)
    requires Ahead(serial, s, committing) && Invariant(s) && Enabled(s, c, Work) && c !in committing
    ensures Ahead(After(serial, RequestOf(PhaseOf(s, c).request, s.minted)), Apply(s, c, Work), committing + {c})
  {
    AheadMinted(serial, s, committing);
    WorkApplied(s, c);
    var r, x, after := PhaseOf(s, c).request, PhaseOf(s, c).session, Apply(s, c, Work);
    assert Relies(s, PhaseOf(s, c));
    assert r.RefreshWith? ==> Refreshable(s.store, r.token);
    assert s.minted !in s.store.tokens && s.minted !in serial.tokens;
    assert SameRows(serial, WithDecision(s, x, committing), x);
    assert WithDecision(s, x, committing) == s.store;
    DecidedAfter(serial, s.store, x, r, s.minted);
    EffectFits(s.store, x, r, s.minted);
    var effect := EffectOf(s.store, r, s.minted);
    FitsSame(serial, s.store, x, effect);
    var now := Perform(serial, x, effect);
    assert WithDecision(after, x, committing + {c}) == Perform(s.store, x, effect);
    hide Apply, Enabled, Families, FreshApart, Justified, Relies, Perform, EffectOf, Refreshable, Minted, SameRows;
    PerformSame(serial, s.store, x, effect);
    PerformUsers(serial, x, effect);
    forall y: nat ensures SameRows(now, WithDecision(after, y, committing + {c}), y) {
      if y != x {
        assert WithDecision(after, y, committing + {c}) == WithDecision(s, y, committing);
        assert SameRows(serial, WithDecision(s, y, committing), y);
        OtherSession(serial, x, effect, y);
        SameRowsChain(now, serial, WithDecision(s, y, committing), y);
      }
    }
  }

  lemma FitsSame(a: Store, b: Store, x: nat, effect: Effect)
    requires SameRows(a, b, x) && Fits(b, x, effect) && (effect.Rotate? ==> effect.next !in a.tokens)
    ensures Fits(a, x, effect)
  {
  }

  lemma PerformUsers(s: Store, x: nat, effect: Effect)
    ensures Perform(s, x, effect).users == s.users
  {
  }

  /** Other sessions keep their rows. */
  lemma OtherSession(s: Store, x: nat, effect: Effect, y: nat)
    requires x != y && Fits(s, x, effect)
    ensures SameRows(Perform(s, x, effect), s, y)
  {
    hide SameRows, Perform;
    OtherRows(s, x, effect, y);
    SameRowsBack(s, Perform(s, x, effect), y);
  }

  // ---------------------------------------------------------------- commits

  lemma CommitApplied(s: System, c: nat)
    requires Locking(s) && Enabled(s, c, Commit)
    ensures var phase, after := PhaseOf(s, c), Apply(s, c, Commit);
      && phase.Decided? && phase.session in s.owners && s.owners[phase.session] == c
      && after.store == Perform(s.store, phase.session, phase.effect) && phase.session !in after.owners
      && (forall y :: y != phase.session ==> (y in after.owners <==> y in s.owners))
      && (forall y :: y in after.owners ==> after.owners[y] == s.owners[y] && s.owners[y] != c)
    ensures forall d: nat :: d != c ==> PhaseOf(Apply(s, c, Commit), d) == PhaseOf(s, d)
  {
    hide Perform;
  }

  /** A decided effect still fits the tables, also after another one on another session. */
  lemma DecidedFits(s: System, c: nat)
    requires Invariant(s) && PhaseOf(s, c).Decided?
    ensures Fits(s.store, PhaseOf(s, c).session, PhaseOf(s, c).effect)
  {
    hide Families, Minted, Locking, FreshApart, Justified;
    assert Relies(s, PhaseOf(s, c));
  }

  lemma FitsAfter(s: Store, x: nat, effect: Effect, y: nat, other: Effect)
    requires x != y && Fits(s, x, effect) && Fits(s, y, other)
    requires effect.Rotate? && other.Rotate? ==> effect.next != other.next
    ensures Fits(Perform(s, x, effect), y, other)
  {
  }

  /** A commit changes nothing in the serial tables, where it was already made. */
  lemma AheadCommitted(serial: Store, s: System, c: nat, committing: set<nat>)
    requires Ahead(serial, s, committing) && Invariant(s) && Enabled(s, c, Commit) && c in committing
    ensures Ahead(serial, Apply(s, c, Commit), committing - {c})
  {
    CommitApplied(s, c);
    DecidedFits(s, c);
    var x, effect, after := PhaseOf(s, c).session, PhaseOf(s, c).effect, Apply(s, c, Commit);
    PerformUsers(s.store, x, effect);
    hide Apply, Enabled, Families, Justified, Relies, Perform, Minted, SameRows, Fits;
    forall y: nat ensures SameRows(serial, WithDecision(after, y, committing - {c}), y) {
      assert SameRows(serial, WithDecision(s, y, committing), y);
      if y != x {
        OtherDecision(s, c, y, committing);
        SameRowsChain(serial, WithDecision(s, y, committing), WithDecision(after, y, committing - {c}), y);
      }
    }
  }

  lemma OtherDecision(s: System, c: nat, y: nat, committing: set<nat>)
    requires Invariant(s) && Enabled(s, c, Commit) && y != PhaseOf(s, c).session
    ensures SameRows(WithDecision(s, y, committing), WithDecision(Apply(s, c, Commit), y, committing - {c}), y)
  {
    CommitApplied(s, c);
    DecidedFits(s, c);
    var x, effect, after := PhaseOf(s, c).session, PhaseOf(s, c).effect, Apply(s, c, Commit);
    hide Apply, Enabled, Families, Justified, Relies, Perform, Minted, SameRows, Fits;
    OtherSession(s.store, x, effect, y);
    SameRowsBack(after.store, s.store, y);
    if y in s.owners && s.owners[y] in committing && PhaseOf(s, s.owners[y]).Decided? {
      var d := s.owners[y];
      assert d != c && PhaseOf(s, d).session == y;
      DecidedFits(s, d);
      FitsAfter(s.store, x, effect, y, PhaseOf(s, d).effect);
      PerformSame(s.store, after.store, y, PhaseOf(s, d).effect);
    }
  }

  // ---------------------------------------------------------------- new sessions and users

  lemma AheadUser(serial: Store, s: System, c: nat, identity: string, user: User, committing: set<nat>)
    requires Ahead(serial, s, committing) && Enabled(s, c, SetUser(identity, user))
    ensures Ahead(After(serial, UserOf(identity, user)), Apply(s, c, SetUser(identity, user)), committing)
  {
    var after, updated := Apply(s, c, SetUser(identity, user)), After(serial, UserOf(identity, user));
    assert after == s.(store := s.store.(users := s.store.users[identity := user]));
    hide Apply, Enabled, SameRows, WithDecision;
    forall x: nat ensures SameRows(updated, WithDecision(after, x, committing), x) {
      assert SameRows(serial, WithDecision(s, x, committing), x);
      DecisionApart(s, after, x, committing);
      UsersApart(serial, WithDecision(s, x, committing), updated, WithDecision(after, x, committing), x);
    }
  }

  lemma DecisionApart(s: System, after: System, x: nat, committing: set<nat>)
    requires after.owners == s.owners && after.phases == s.phases
    requires after.store.sessions == s.store.sessions && after.store.tokens == s.store.tokens
    ensures WithDecision(after, x, committing).sessions == WithDecision(s, x, committing).sessions
    ensures WithDecision(after, x, committing).tokens == WithDecision(s, x, committing).tokens
  {
  }

  lemma UsersApart(a: Store, b: Store, c: Store, d: Store, x: nat)
    requires SameRows(a, b, x) && c.tokens == a.tokens && c.sessions == a.sessions && d.tokens == b.tokens && d.sessions == b.sessions
    ensures SameRows(c, d, x)
  {
  }

  /** An exchange depends on the users only, and adds a session with its token or nothing. */
  lemma ExchangeSame(a: Store, b: Store, identity: string, now: Time, session: nat, next: nat)
    requires a.users == b.users
    ensures Exchange(a, identity, now, session, next).1 == Exchange(b, identity, now, session, next).1
    ensures Exchange(a, identity, now, session, next).0.users == Exchange(b, identity, now, session, next).0.users
  {
  }

  lemma ExchangeOthers(s: Store, identity: string, now: Time, session: nat, next: nat, x: nat)
    requires next !in s.tokens && x != session
    ensures SameRows(Exchange(s, identity, now, session, next).0, s, x)
  {
  }

  lemma ExchangeOpened(a: Store, b: Store, identity: string, now: Time, session: nat, next: nat)
    requires a.users == b.users && SameRows(a, b, session) && next !in a.tokens && next !in b.tokens
    ensures SameRows(Exchange(a, identity, now, session, next).0, Exchange(b, identity, now, session, next).0, session)
  {
  }

  lemma OpenApplied(s: System, c: nat, identity: string, now: Time)
    requires Enabled(s, c, Open(identity, now))
    ensures var after := Apply(s, c, Open(identity, now));
      && after.store == Exchange(s.store, identity, now, s.minted, s.minted + 1).0
      && after.owners == s.owners && after.phases == s.phases
  {
  }

  lemma AheadOpened(serial: Store, s: System, c: nat, identity: string, now: Time, committing: set<nat>)
    requires Ahead(serial, s, committing) && Invariant(s) && Enabled(s, c, Open(identity, now))
    ensures Ahead(After(serial, ExchangeOf(identity, now, s.minted, s.minted + 1)), Apply(s, c, Open(identity, now)), committing)
  {
    hide Apply, Enabled, Perform, SameRows, Exchange, Invariant, WithDecision;
    AheadMinted(serial, s, committing);
    IdsAreMinted(s);
    OpenApplied(s, c, identity, now);
    var x, after := s.minted, Apply(s, c, Open(identity, now));
    var extended := Exchange(serial, identity, now, x, x + 1).0;
    ExchangeSame(serial, s.store, identity, now, x, x + 1);
    OpenedSession(serial, s, after, identity, now, committing);
    forall y: nat ensures SameRows(extended, WithDecision(after, y, committing), y) {
      if y != x {
        ExchangeOthers(serial, identity, now, x, x + 1, y);
        OpenedDecision(s, c, identity, now, y, committing);
        SameRowsChain(extended, serial, WithDecision(s, y, committing), y);
        SameRowsChain(extended, WithDecision(s, y, committing), WithDecision(after, y, committing), y);
      }
    }
  }

  /** The new session itself, which nobody owns. */
  lemma OpenedSession(serial: Store, s: System, after: System, identity: string, now: Time, committing: set<nat>)
    requires serial.users == s.store.users && SameRows(serial, WithDecision(s, s.minted, committing), s.minted)
    requires s.minted !in s.owners && s.minted + 1 !in serial.tokens && s.minted + 1 !in s.store.tokens
    requires after.owners == s.owners && after.store == Exchange(s.store, identity, now, s.minted, s.minted + 1).0
    ensures SameRows(Exchange(serial, identity, now, s.minted, s.minted + 1).0, WithDecision(after, s.minted, committing), s.minted)
  {
    hide SameRows, Exchange, Perform;
    ExchangeOpened(serial, s.store, identity, now, s.minted, s.minted + 1);
  }

  lemma IdsAreMinted(s: System)
    requires Invariant(s)
    ensures forall x :: x in s.owners ==> x < s.minted
    ensures forall h :: h in s.store.tokens ==> h < s.minted
  {
    hide Families, FreshApart, Justified;
    forall x | x in s.owners ensures x < s.minted {
      assert Relies(s, PhaseOf(s, s.owners[x]));
    }
  }

  lemma OpenedDecision(s: System, c: nat, identity: string, now: Time, y: nat, committing: set<nat>)
    requires Invariant(s) && Enabled(s, c, Open(identity, now)) && y != s.minted
    ensures SameRows(WithDecision(s, y, committing), WithDecision(Apply(s, c, Open(identity, now)), y, committing), y)
  {
    OpenApplied(s, c, identity, now);
    var after := Apply(s, c, Open(identity, now));
    assert s.minted + 1 !in s.store.tokens;
    hide Apply, Enabled, Families, Justified, Perform, SameRows, Exchange, FreshApart;
    ExchangeOthers(s.store, identity, now, s.minted, s.minted + 1, y);
    SameRowsBack(after.store, s.store, y);
    if y in s.owners && s.owners[y] in committing && PhaseOf(s, s.owners[y]).Decided? {
      var d := s.owners[y];
      assert PhaseOf(s, d).session == y && PhaseOf(after, d) == PhaseOf(s, d);
      DecidedFits(s, d);
      assert Relies(s, PhaseOf(s, d));
      FitsOpened(s.store, after.store, y, PhaseOf(s, d).effect, identity, now, s.minted);
      PerformSame(s.store, after.store, y, PhaseOf(s, d).effect);
    }
  }

  lemma FitsOpened(s: Store, after: Store, y: nat, effect: Effect, identity: string, now: Time, minted: nat)
    requires Fits(s, y, effect) && (effect.Rotate? ==> effect.next < minted && effect.spent < minted)
    requires after == Exchange(s, identity, now, minted, minted + 1).0
    ensures Fits(after, y, effect)
  {
  }

  // ---------------------------------------------------------------- runs

  lemma RunPrefix(actions: seq<Action>, k: nat)
    requires k <= |actions| && Run(actions).Some?
    ensures Run(actions[..k]).Some?
    ensures k < |actions| ==>
      && Enabled(Run(actions[..k]).value, actions[k].client, actions[k].step)
      && Run(actions[..k + 1]) == Some(Apply(Run(actions[..k]).value, actions[k].client, actions[k].step))
    decreases |actions|
  {
    hide Enabled, Apply;
    if k == |actions| {
      assert actions[..k] == actions;
    } else {
      var n := |actions| - 1;
      RunPrefix(actions[..n], k);
      assert actions[..n][..k] == actions[..k];
      if k == n {
        assert actions[..k + 1] == actions;
      } else {
        assert actions[..n][..k + 1] == actions[..k + 1];
      }
    }
  }

  /** How the set of decisions that are going to commit goes on. */
  lemma CommittingStep(actions: seq<Action>, k: nat)
    requires k < |actions| && Run(actions).Some? && Run(actions[..k]).Some? && Run(actions[..k + 1]).Some?
    requires var a := actions[k];
      && Enabled(Run(actions[..k]).value, a.client, a.step)
      && Run(actions[..k + 1]).value == Apply(Run(actions[..k]).value, a.client, a.step)
    ensures var c, step := actions[k].client, actions[k].step;
      var before, after := Committing(Run(actions[..k]).value, actions, k), Committing(Run(actions[..k + 1]).value, actions, k + 1);
      && (step.Commit? <==> c in before)
      && after == if step.Commit? then before - {c}
                  else if step.Work? && Commits(actions, k + 1, c) then before + {c} else before
  {
    hide Run, Perform, Exchange, Decide, Selects, Refreshable;
    var s, c, step := Run(actions[..k]).value, actions[k].client, actions[k].step;
    var later := Apply(s, c, step);
    forall d: nat | d != c
      ensures PhaseOf(later, d) == PhaseOf(s, d) && (d in later.phases <==> d in s.phases)
      ensures Commits(actions, k, d) == Commits(actions, k + 1, d)
    {
    }
    assert step.Work? ==> PhaseOf(s, c).Holds? && PhaseOf(later, c).Decided?;
    assert step.Commit? || step.Abort? ==> Commits(actions, k, c) == step.Commit?;
    assert !step.Work? ==> !PhaseOf(later, c).Decided?;
  }

  /** At every moment the serial order is ahead of the tables by the decisions that are going to commit. */
  lemma {:induction false} OrderIsAhead(actions: seq<Action>, k: nat)
    requires k <= |actions| && Run(actions).Some?
    ensures Run(actions[..k]).Some?
    ensures var s := Run(actions[..k]).value; Ahead(Serially(Order(actions, k)), s, Committing(s, actions, k))
  {
    RunPrefix(actions, k);
    if k == 0 {
      AheadAtFirst(actions);
    } else {
      OrderIsAhead(actions, k - 1);
      RunPrefix(actions, k - 1);
      InvariantOfRuns(actions[..k - 1]);
      hide Run, Ahead, Invariant, Serially, After, Apply, Enabled, PhaseOf, Committing, Order, Commits, TransactionAt;
      CommittingStep(actions, k - 1);
      AheadStep(Serially(Order(actions, k - 1)), actions, k - 1);
      OneMore(Order(actions, k - 1), TransactionAt(actions, k - 1));
      OrderStep(actions, k);
    }
  }

  lemma OrderStep(actions: seq<Action>, k: nat)
    requires 0 < k <= |actions|
    ensures Order(actions, k) == Order(actions, k - 1) + TransactionAt(actions, k - 1)
  {
  }

  lemma AheadAtFirst(actions: seq<Action>)
    ensures Run(actions[..0]) == Some(Initial()) && Ahead(Serially(Order(actions, 0)), Initial(), Committing(Initial(), actions, 0))
  {
    assert actions[..0] == [];
  }

  /** Running at most one more transaction. */
  lemma OneMore(transactions: seq<Transaction>, more: seq<Transaction>)
    requires |more| <= 1
    ensures Serially(transactions + more) ==
      if more == [] then Serially(transactions) else After(Serially(transactions), more[0])
  {
    hide After;
    if more == [] {
      assert transactions + more == transactions;
    } else {
      assert (transactions + more)[..|transactions|] == transactions;
    }
  }

  /** One action, whichever it is. */
  lemma AheadStep(serial: Store, actions: seq<Action>, k: nat)
    requires k < |actions| && Run(actions[..k]).Some?
    requires var s, a := Run(actions[..k]).value, actions[k];
      Enabled(s, a.client, a.step) && Invariant(s) && Ahead(serial, s, Committing(s, actions, k))
    requires var c, step := actions[k].client, actions[k].step;
      var s, before := Run(actions[..k]).value, Committing(Run(actions[..k]).value, actions, k);
      step.Commit? <==> c in before
    ensures var c, step := actions[k].client, actions[k].step;
      var s, before := Run(actions[..k]).value, Committing(Run(actions[..k]).value, actions, k);
      var more := TransactionAt(actions, k);
      && |more| <= 1
      && Ahead(if more == [] then serial else After(serial, more[0]), Apply(s, c, step),
               if step.Commit? then before - {c}
               else if step.Work? && Commits(actions, k + 1, c) then before + {c} else before)
  {
    hide Run, Ahead, Invariant, After, Apply, Committing, Commits;
    var s, c, step := Run(actions[..k]).value, actions[k].client, actions[k].step;
    var before := Committing(s, actions, k);
    match step
    case Commit => AheadCommitted(serial, s, c, before);
    case Work =>
      WorkApplied(s, c);
      if Commits(actions, k + 1, c) {
        AheadDecided(serial, s, c, before);
      } else {
        AheadUnchanged(serial, s, c, step, before);
      }
    case Open(identity, now) => AheadOpened(serial, s, c, identity, now, before);
    case SetUser(identity, user) => AheadUser(serial, s, c, identity, user, before);
    case _ => AheadUnchanged(serial, s, c, step, before);
  }

  /**
   * Serializability: the tables after any run are those of its committed requests, exchanges and user updates run one
   * after the other, in the order in which they were decided.
   */
  lemma Serialized(actions: seq<Action>)
    requires Run(actions).Some?
    ensures Serially(Order(actions, |actions|)) == Run(actions).value.store
  {
    hide Order, Serially, Run, SameRows;
    OrderIsAhead(actions, |actions|);
    assert actions[..|actions|] == actions;
    var s := Run(actions).value;
    assert Committing(s, actions, |actions|) == {};
    forall x: nat ensures SameRows(Serially(Order(actions, |actions|)), s.store, x) {
      assert SameRows(Serially(Order(actions, |actions|)), WithDecision(s, x, {}), x);
    }
    SameStores(Serially(Order(actions, |actions|)), s.store);
  }

  /** And each refresh is answered there as it was in the run. */
  lemma AnsweredAlike(actions: seq<Action>, k: nat)
    requires k < |actions| && Run(actions).Some? && actions[k].step.Work?
    ensures Run(actions[..k]).Some?
    ensures var s := Run(actions[..k]).value;
      var phase := PhaseOf(s, actions[k].client);
      && phase.Holds?
      && (phase.request.RefreshWith? ==>
            var r := phase.request;
            && Refreshable(s.store, r.token)
            && Refresh(Serially(Order(actions, k)), r.token, r.now, s.minted).1 == Decide(s.store, r.token, r.now, s.minted).1)
  {
    RunPrefix(actions, k);
    OrderIsAhead(actions, k);
    InvariantOfRuns(actions[..k]);
    var s, c := Run(actions[..k]).value, actions[k].client;
    WorkApplied(s, c);
    assert Relies(s, PhaseOf(s, c));
    var x, r := PhaseOf(s, c).session, PhaseOf(s, c).request;
    assert SameRows(Serially(Order(actions, k)), WithDecision(s, x, Committing(s, actions, k)), x);
    assert s.owners[x] == c;
    hide Run, Order, Serially, Families, Minted, FreshApart, Justified, SameRows, Apply;
    if r.RefreshWith? {
      DecidedAfter(Serially(Order(actions, k)), s.store, x, r, s.minted);
    }
  }
}
