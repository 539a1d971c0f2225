/**
 * Interleaved authority writers, internal/db/authority_repository.go. A transaction first locks the recording counter
 * (`next_authority_recording_position`, assumed to hold a lock on the single counter row until the transaction ends and to
 * return the committed position plus one), then, for a journal event, the authorization's row. Locks are held to the end.
 */
module RecordingProtocol {
  import opened Common
  import opened Journal
  import opened Projection
  import opened RecordingPositions
  import opened Registry

  /** Where a writer is in its transaction. */
  datatype Phase =
    | Idle
    | WantsCounter(evidence: Evidence)
    | HasCounter(evidence: Evidence, position: int)
    | WantsRow(evidence: Evidence, position: int)
    | HasRow(evidence: Evidence, position: int)
    | Written(evidence: Evidence, pending: Tables)

  datatype System = System(
    tables: Tables,
    counterOwner: Option<nat>,
    rowOwners: map<string, nat>,
    writers: map<nat, Phase>)

  datatype Step =
    | Begin(evidence: Evidence)
    | TakeCounter
    | AskRow
    | TakeRow
    | Insert
    | Commit
    | Abort

  function PhaseOf(s: System, w: nat): Phase {
    if w in s.writers then s.writers[w] else Idle
  }

  function Initial(): System {
    System(Tables(0, [], [], []), None, map[], map[])
  }

  function ReleaseAll(s: System, w: nat): System {
    s.(counterOwner := if s.counterOwner == Some(w) then None else s.counterOwner,
       rowOwners := map id | id in s.rowOwners && s.rowOwners[id] != w :: s.rowOwners[id],
       writers := s.writers[w := Idle])
  }

  /** Whether writer `w` can take a step now. A lock held by another writer makes it wait. */
  predicate Enabled(s: System, w: nat, step: Step) {
    var phase := PhaseOf(s, w);
    match step
    case Begin(e) => phase.Idle? && Admissible(e)
    case TakeCounter => phase.WantsCounter? && s.counterOwner.None?
    case AskRow => phase.HasCounter? && phase.evidence.NewEvent?
    case TakeRow => phase.WantsRow? && phase.evidence.NewEvent? && HasRecord(s.tables, phase.evidence.event.authorizationId)
                    && phase.evidence.event.authorizationId !in s.rowOwners
    case Insert => (phase.HasRow? || (phase.HasCounter? && !phase.evidence.NewEvent?)) && Insertable(s.tables, phase.evidence)
    case Commit => phase.Written?
    case Abort => !phase.Idle?
  }

  function Apply(s: System, w: nat, step: Step): System
    requires Enabled(s, w, step)
  {
    var phase := PhaseOf(s, w);
    match step
    case Begin(e) => s.(writers := s.writers[w := WantsCounter(e)])
    case TakeCounter =>
      s.(counterOwner := Some(w), writers := s.writers[w := HasCounter(phase.evidence, s.tables.boundary + 1)])
    case AskRow => s.(writers := s.writers[w := WantsRow(phase.evidence, phase.position)])
    case TakeRow =>
      s.(rowOwners := s.rowOwners[phase.evidence.event.authorizationId := w],
         writers := s.writers[w := HasRow(phase.evidence, phase.position)])
    case Insert =>
      var inserted := WithEvidence(s.tables.(boundary := phase.position - 1), phase.evidence);
      s.(writers := s.writers[w := Written(phase.evidence, inserted)])
    case Commit => ReleaseAll(s.(tables := phase.pending), w)
    case Abort => ReleaseAll(s, w)
  }

  // ---------------------------------------------------------------- runs

  datatype Action = Action(writer: nat, step: Step)

  /** The state after some actions, or `None` if one of them was not possible. */
  function Run(actions: seq<Action>): Option<System> {
    if actions == [] then Some(Initial())
    else
      var s := Run(actions[..|actions| - 1]);
      var a := actions[|actions| - 1];
      if s.None? || !Enabled(s.value, a.writer, a.step) then None else Some(Apply(s.value, a.writer, a.step))
  }

  // ---------------------------------------------------------------- the invariant

  predicate PastCounter(p: Phase) {
    p.HasCounter? || p.WantsRow? || p.HasRow? || p.Written?
  }

  /** A writer's own view of its transaction agrees with what is committed. */
  ghost predicate Coherent(s: System, p: Phase) {
    && (!p.Idle? ==> Admissible(p.evidence))
    && (p.HasCounter? || p.WantsRow? || p.HasRow? ==> p.position == s.tables.boundary + 1)
    && (p.Written? ==> Insertable(s.tables, p.evidence) && p.pending == WithEvidence(s.tables, p.evidence))
  }

  ghost predicate Invariant(s: System) {
    && Sound(s.tables)
    && (forall w: nat :: PastCounter(PhaseOf(s, w)) <==> s.counterOwner == Some(w))
    && (forall id :: id in s.rowOwners ==> PhaseOf(s, s.rowOwners[id]).HasRow? || PhaseOf(s, s.rowOwners[id]).Written?)
    && (forall w: nat :: Coherent(s, PhaseOf(s, w)))
  }

  lemma InvariantAtFirst()
    ensures Invariant(Initial())
  {
    SoundAtFirst();
  }

  lemma WrittenIsSound(s: System, w: nat)
    requires Invariant(s) && PhaseOf(s, w).Written?
    ensures Sound(PhaseOf(s, w).pending)
  {
    hide Sound, Insertable, WithEvidence;
    assert Coherent(s, PhaseOf(s, w));
    RecordedSound(s.tables, PhaseOf(s, w).evidence);
  }

  lemma InvariantKept(s: System, w: nat, step: Step)
    requires Invariant(s) && Enabled(s, w, step)
    ensures Invariant(Apply(s, w, step))
  {
    hide Sound, Insertable, WithEvidence, HasRecord, Admissible, Coherent;
    var after := Apply(s, w, step);
    assert forall v: nat :: v != w ==> PhaseOf(after, v) == PhaseOf(s, v);
    CoherentHere(s, w, step);
    if step.Commit? {
      WrittenIsSound(s, w);
    }
    forall v: nat | v != w ensures Coherent(after, PhaseOf(after, v)) {
      CoherentElsewhere(s, after, PhaseOf(s, v));
    }
  }

  lemma CoherentElsewhere(s: System, after: System, phase: Phase)
    requires Coherent(s, phase) && (after.tables == s.tables || !PastCounter(phase))
    ensures Coherent(after, phase)
  {
  }

  lemma CoherentHere(s: System, w: nat, step: Step)
    requires Invariant(s) && Enabled(s, w, step)
    ensures Coherent(Apply(s, w, step), PhaseOf(Apply(s, w, step), w))
  {
    hide Sound, Insertable, WithEvidence, HasRecord, Admissible;
    assert Coherent(s, PhaseOf(s, w));
    if step.Insert? {
      assert s.tables.(boundary := PhaseOf(s, w).position - 1) == s.tables;
      assert Insertable(s.tables, PhaseOf(s, w).evidence);
    }
  }

  lemma {:induction false} InvariantOfRuns(actions: seq<Action>)
    requires Run(actions).Some?
    ensures Invariant(Run(actions).value)
  {
    hide Invariant, Enabled, Apply;
    if actions == [] {
      InvariantAtFirst();
    } else {
      InvariantOfRuns(actions[..|actions| - 1]);
      InvariantKept(Run(actions[..|actions| - 1]).value, actions[|actions| - 1].writer, actions[|actions| - 1].step);
    }
  }

  // ---------------------------------------------------------------- what every run guarantees

  /**
   * In every reachable state, whatever was interleaved or aborted, the committed evidence has exactly the positions 1 to
   * the boundary, and the completeness check of a snapshot accepts it.
   */
  lemma PositionsStayExact(actions: seq<Action>)
    requires Run(actions).Some?
    ensures var t := Run(actions).value.tables;
      Exactly(Positions(t), t.boundary) && CompletenessAccepts(Positions(t), t.boundary)
  {
    hide Exactly, Positions, CompletenessAccepts;
    InvariantOfRuns(actions);
    var t := Run(actions).value.tables;
    CompletenessExactly(Positions(t), t.boundary);
  }

  /** Writer `w` waits for a lock that `v` holds. */
  predicate WaitsFor(s: System, w: nat, v: nat) {
    var phase := PhaseOf(s, w);
    w != v &&
    ((phase.WantsCounter? && s.counterOwner == Some(v)) ||
     (phase.WantsRow? && phase.evidence.NewEvent? && phase.evidence.event.authorizationId in s.rowOwners &&
      s.rowOwners[phase.evidence.event.authorizationId] == v))
  }

  /** The writer's request itself is refused: no such authorization, or an insert that does not go through. */
  predicate Refused(s: System, w: nat) {
    var phase := PhaseOf(s, w);
    || (phase.WantsRow? && !(phase.evidence.NewEvent? && HasRecord(s.tables, phase.evidence.event.authorizationId)))
    || ((phase.HasRow? || phase.HasCounter?) && !Insertable(s.tables, phase.evidence))
  }

  /** Some step of the writer's own transaction, other than giving up, is possible now. */
  predicate CanGoOn(s: System, w: nat) {
    Enabled(s, w, AskRow) || Enabled(s, w, TakeRow) || Enabled(s, w, Insert) || Enabled(s, w, Commit)
  }

  /**
   * The fixed lock order excludes deadlock: only the counter is ever waited for, a writer that is waited for does not wait
   * itself, and it can go on unless its own request is refused.
   */
  lemma NoDeadlock(actions: seq<Action>)
    requires Run(actions).Some?
    ensures var s := Run(actions).value;
      && (forall w: nat, v: nat :: WaitsFor(s, w, v) ==> PhaseOf(s, w).WantsCounter?)
      && (forall w: nat, v: nat, u: nat :: WaitsFor(s, w, v) ==> !WaitsFor(s, v, u))
      && (forall w: nat, v: nat :: WaitsFor(s, w, v) ==> CanGoOn(s, v) || Refused(s, v))
  {
    InvariantOfRuns(actions);
    var s := Run(actions).value;
    forall w: nat, v: nat | WaitsFor(s, w, v)
      ensures PhaseOf(s, w).WantsCounter? && PastCounter(PhaseOf(s, v)) && (CanGoOn(s, v) || Refused(s, v))
    {
      HolderGoesOn(s, w, v);
    }
  }

  lemma HolderGoesOn(s: System, w: nat, v: nat)
    requires Invariant(s) && WaitsFor(s, w, v)
    ensures PhaseOf(s, w).WantsCounter? && PastCounter(PhaseOf(s, v)) && (CanGoOn(s, v) || Refused(s, v))
  {
    hide Sound, Insertable, Coherent, HasRecord;
    assert PastCounter(PhaseOf(s, w)) <==> s.counterOwner == Some(w);
    assert PastCounter(PhaseOf(s, v)) <==> s.counterOwner == Some(v);
  }

  // ---------------------------------------------------------------- serialization

  /** The evidence committed by a run, in commit order. */
  function Committed(actions: seq<Action>): seq<Evidence>
    requires Run(actions).Some?
  {
    if actions == [] then []
    else
      var before, a := actions[..|actions| - 1], actions[|actions| - 1];
      var phase := PhaseOf(Run(before).value, a.writer);
      Committed(before) + if a.step.Commit? && !phase.Idle? then [phase.evidence] else []
  }

  /** One writer after the other, each going through alone. */
  function OneByOne(evidence: seq<Evidence>): Option<Tables> {
    if evidence == [] then Some(Initial().tables)
    else
      var before, e := OneByOne(evidence[..|evidence| - 1]), evidence[|evidence| - 1];
      if before.None? || !Admissible(e) || !Insertable(before.value, e) then None else Some(WithEvidence(before.value, e))
  }

  lemma CommitStep(s: System, w: nat, step: Step)
    requires Invariant(s) && Enabled(s, w, step)
    ensures !step.Commit? ==> Apply(s, w, step).tables == s.tables
    ensures step.Commit? ==>
      var e := PhaseOf(s, w).evidence;
      Admissible(e) && Insertable(s.tables, e) && Apply(s, w, step).tables == WithEvidence(s.tables, e)
    ensures step.Commit? ==> Apply(s, w, step).tables.boundary == s.tables.boundary + 1
  {
    hide Sound, Insertable, HasRecord, Admissible;
    assert Coherent(s, PhaseOf(s, w));
  }

  /** Whatever was interleaved, the committed tables are those of the committed writers run one after the other. */
  lemma {:induction false} Serialized(actions: seq<Action>)
    requires Run(actions).Some?
    ensures OneByOne(Committed(actions)) == Some(Run(actions).value.tables)
    ensures |Committed(actions)| == Run(actions).value.tables.boundary
  {
    hide Invariant, Enabled, Apply, Insertable, Admissible, WithEvidence;
    if actions != [] {
      var n := |actions| - 1;
      var before := actions[..n];
      Serialized(before);
      InvariantOfRuns(before);
      var s, a := Run(before).value, actions[n];
      CommitStep(s, a.writer, a.step);
      assert Committed(before) + [] == Committed(before);
      if a.step.Commit? {
        assert !PhaseOf(s, a.writer).Idle? by { CommitsWritten(s, a.writer); }
        assert (Committed(before) + [PhaseOf(s, a.writer).evidence])[..|Committed(before)|] == Committed(before);
      }
    }
  }

  lemma CommitsWritten(s: System, w: nat)
    requires Enabled(s, w, Commit)
    ensures PhaseOf(s, w).Written?
  {
  }

  // ---------------------------------------------------------------- time travel over runs

  lemma BoundaryStep(s: System, w: nat, step: Step)
    requires Invariant(s) && Enabled(s, w, step)
    ensures s.tables.boundary <= Apply(s, w, step).tables.boundary <= s.tables.boundary + 1
    ensures forall position :: position <= s.tables.boundary ==> SameView(Apply(s, w, step).tables, s.tables, position)
  {
    hide Sound, Insertable, SameView, HasRecord, Admissible;
    forall position | position <= s.tables.boundary ensures SameView(Apply(s, w, step).tables, s.tables, position) {
      if step.Commit? {
        assert Coherent(s, PhaseOf(s, w));
        LaterIsInvisible(s.tables, PhaseOf(s, w).evidence, position);
      } else {
        ViewOfSame(Apply(s, w, step).tables, s.tables, position);
      }
    }
    assert Coherent(s, PhaseOf(s, w));
  }

  lemma ViewOfSame(a: Tables, b: Tables, position: int)
    requires a == b
    ensures SameView(a, b, position)
  {
  }

  /**
   * Loading at an earlier boundary gives what was loaded there then: nothing that commits later, in any interleaving,
   * changes the records, the adjudications, the journals or the entries seen from that position.
   */
  lemma {:induction false} TimeTravel(actions: seq<Action>, k: nat)
    requires k <= |actions| && Run(actions).Some?
    ensures Run(actions[..k]).Some?
    ensures var past, now := Run(actions[..k]).value.tables, Run(actions).value.tables;
      past.boundary <= now.boundary && forall position :: position <= past.boundary ==> SameView(now, past, position)
    decreases |actions|
  {
    hide Invariant, Enabled, Apply, SameView;
    if k == |actions| {
      assert actions[..k] == actions;
      forall position ensures SameView(Run(actions).value.tables, Run(actions).value.tables, position) {
        ViewOfSame(Run(actions).value.tables, Run(actions).value.tables, position);
      }
    } else {
      var n := |actions| - 1;
      assert actions[..n][..k] == actions[..k];
      TimeTravel(actions[..n], k);
      InvariantOfRuns(actions[..n]);
      BoundaryStep(Run(actions[..n]).value, actions[n].writer, actions[n].step);
      var past, before, now := Run(actions[..k]).value.tables, Run(actions[..n]).value.tables, Run(actions).value.tables;
      forall position | position <= past.boundary ensures SameView(now, past, position) {
        ViewsChain(now, before, past, position);
      }
    }
  }

  lemma ViewsChain(a: Tables, b: Tables, c: Tables, position: int)
    requires SameView(a, b, position) && SameView(b, c, position)
    ensures SameView(a, c, position)
  {
  }

  /** The boundary rises by single commits, so each position was the boundary at some time. */
  lemma {:induction false} BoundaryWas(actions: seq<Action>, position: int) returns (k: nat)
    requires Run(actions).Some? && 0 <= position <= Run(actions).value.tables.boundary
    ensures k <= |actions| && Run(actions[..k]).Some? && Run(actions[..k]).value.tables.boundary == position
  {
    hide Invariant, Enabled, Apply;
    if position == Run(actions).value.tables.boundary {
      assert actions[..|actions|] == actions;
      k := |actions|;
    } else {
      var n := |actions| - 1;
      InvariantOfRuns(actions[..n]);
      BoundaryStep(Run(actions[..n]).value, actions[n].writer, actions[n].step);
      k := BoundaryWas(actions[..n], position);
      assert actions[..n][..k] == actions[..k];
    }
  }

  /**
   * Every position up to the boundary is the boundary of an earlier state, and loading there gives exactly that state: each
   * loader answers for every authorization as it did then, and that was everything the registry held. It does so also
   * where the load of all entries fails, as it does while some authorization has no adjudication yet.
   */
  lemma LoadsThePast(actions: seq<Action>, position: int) returns (k: nat)
    requires Run(actions).Some? && 0 <= position <= Run(actions).value.tables.boundary
    ensures k <= |actions| && Run(actions[..k]).Some?
    ensures var past := Run(actions[..k]).value.tables;
      past.boundary == position && SameView(Run(actions).value.tables, past, position) && SeesAll(past, position)
  {
    hide Run, SameView, SeesAll, Sound;
    k := BoundaryWas(actions, position);
    TimeTravel(actions, k);
    InvariantOfRuns(actions[..k]);
    BoundarySeesAll(Run(actions[..k]).value.tables);
  }

  /** In every reachable state every authorization's journal reloads through `Append`, at every position. */
  lemma JournalsReloadAfterAnyRun(actions: seq<Action>, id: string, position: int)
    requires Run(actions).Some? && id != "" && position >= 0
    ensures var t := Run(actions).value.tables;
      JournalAt(t.events, id, position).Some? && JournalAt(t.events, id, position).value <= JournalRows(t.events, id)
  {
    InvariantOfRuns(actions);
    JournalsAlwaysReload(Run(actions).value.tables, id, position);
  }

  // ---------------------------------------------------------------- competing decisions over runs

  lemma {:induction false} RunGrows(actions: seq<Action>, k: nat)
    requires k <= |actions| && Run(actions).Some?
    ensures Run(actions[..k]).Some? && Grown(Run(actions[..k]).value.tables, Run(actions).value.tables)
    decreases |actions|
  {
    hide Invariant, Enabled, Apply, Insertable, Admissible, WithEvidence;
    if k == |actions| {
      assert actions[..k] == actions;
    } else {
      var n := |actions| - 1;
      assert actions[..n][..k] == actions[..k];
      RunGrows(actions[..n], k);
      InvariantOfRuns(actions[..n]);
      var s, a := Run(actions[..n]).value, actions[n];
      CommitStep(s, a.writer, a.step);
      if a.step.Commit? {
        EvidenceGrows(s.tables, PhaseOf(s, a.writer).evidence) by {
          CommitsWritten(s, a.writer);
        }
      }
    }
  }

  lemma EvidenceGrows(t: Tables, e: Evidence)
    ensures Grown(t, WithEvidence(t, e))
  {
  }

  /**
   * Once a run has recorded a second adjudication of an authorization at some position, every load from that position on
   * fails in every continuation of the run.
   */
  lemma CompetingDecisionsInRuns(actions: seq<Action>, k: nat, i: nat, p: int, q: int)
    requires k <= |actions| && Run(actions).Some? && Run(actions[..k]).Some? && p <= q
    requires var t := Run(actions[..k]).value.tables;
      && i < |t.records| && Within(t.records[i].position, p)
      && DecisionCount(t.adjudications, t.records[i].record.authorizationId, p) >= 2
    ensures EntriesAt(Run(actions).value.tables, q).None?
  {
    hide Run, EntriesAt, DecisionCount, Sound;
    RunGrows(actions, k);
    InvariantOfRuns(actions);
    CompetingDecisionsArePermanent(Run(actions[..k]).value.tables, Run(actions).value.tables, i, p, q);
  }

  // ---------------------------------------------------------------- serial runs

  lemma RunStep(actions: seq<Action>, a: Action)
    ensures Run(actions + [a]) ==
      if Run(actions).None? || !Enabled(Run(actions).value, a.writer, a.step) then None
      else Some(Apply(Run(actions).value, a.writer, a.step))
  {
    assert (actions + [a])[..|actions|] == actions;
  }

  lemma OneByOneStep(evidence: seq<Evidence>, e: Evidence)
    ensures OneByOne(evidence + [e]) ==
      (var before := OneByOne(evidence);
       if before.None? || !Admissible(e) || !Insertable(before.value, e) then None else Some(WithEvidence(before.value, e)))
  {
    assert (evidence + [e])[..|evidence|] == evidence;
  }

  /** Nobody is in a transaction. */
  ghost predicate Quiet(s: System) {
    s.counterOwner.None? && s.rowOwners == map[] && PhaseOf(s, 0).Idle?
  }

  /** One writer alone, first up to the insert. */
  lemma Prepares(actions: seq<Action>, e: Evidence) returns (longer: seq<Action>)
    requires Run(actions).Some? && Quiet(Run(actions).value) && Admissible(e) && Insertable(Run(actions).value.tables, e)
    ensures Run(longer).Some? && Run(longer).value.tables == Run(actions).value.tables
    ensures Run(longer).value.counterOwner == Some(0) && forall id :: id in Run(longer).value.rowOwners ==> Run(longer).value.rowOwners[id] == 0
    ensures var position := Run(actions).value.tables.boundary + 1;
      PhaseOf(Run(longer).value, 0) == if e.NewEvent? then HasRow(e, position) else HasCounter(e, position)
  {
    InsertableHasRecord(Run(actions).value.tables, e);
    hide Run, Insertable, Admissible, WithEvidence, HasRecord;
    RunStep(actions, Action(0, Begin(e)));
    longer := actions + [Action(0, Begin(e))];
    RunStep(longer, Action(0, TakeCounter));
    longer := longer + [Action(0, TakeCounter)];
    if e.NewEvent? {
      RunStep(longer, Action(0, AskRow));
      longer := longer + [Action(0, AskRow)];
      RunStep(longer, Action(0, TakeRow));
      longer := longer + [Action(0, TakeRow)];
    }
  }

  /** Then with the insert and the commit. */
  lemma Alone(actions: seq<Action>, e: Evidence) returns (longer: seq<Action>)
    requires Run(actions).Some? && Quiet(Run(actions).value) && Admissible(e) && Insertable(Run(actions).value.tables, e)
    ensures Run(longer).Some? && Quiet(Run(longer).value)
    ensures Run(longer).value.tables == WithEvidence(Run(actions).value.tables, e)
  {
    hide Run, Insertable, Admissible, WithEvidence, HasRecord;
    longer := Prepares(actions, e);
    var t := Run(actions).value.tables;
    assert t.(boundary := t.boundary + 1 - 1) == t;
    RunStep(longer, Action(0, Insert));
    longer := longer + [Action(0, Insert)];
    RunStep(longer, Action(0, Commit));
    longer := longer + [Action(0, Commit)];
  }

  lemma InsertableHasRecord(t: Tables, e: Evidence)
    requires Insertable(t, e)
    ensures e.NewEvent? ==> HasRecord(t, e.event.authorizationId)
  {
  }

  /** Whatever can be recorded one after the other is reached by some run. */
  lemma {:induction false} SerialIsReachable(evidence: seq<Evidence>) returns (actions: seq<Action>)
    requires OneByOne(evidence).Some?
    ensures Run(actions).Some? && Quiet(Run(actions).value) && Run(actions).value.tables == OneByOne(evidence).value
  {
    hide Insertable, Admissible, WithEvidence;
    if evidence == [] {
      actions := [];
    } else {
      var before := SerialIsReachable(evidence[..|evidence| - 1]);
      actions := Alone(before, evidence[|evidence| - 1]);
    }
  }
}
