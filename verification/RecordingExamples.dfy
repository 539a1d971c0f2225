/** Short runs of the recording protocol that reach the situations in which loading or projecting fails for good. */
module RecordingExamples {
  import opened Common
  import opened Lifecycle
  import opened Journal
  import opened Projection
  import opened Registry
  import opened RecordingProtocol

  const SCOPE := Record("a", "issuer", "subject", "claim", None)

  function DecisionOn(decisionId: string): Adjudication {
    Adjudication(decisionId, "a", "issuer", "subject", "claim", OutcomeApproved, "maker", "basis", "evidence", 1000, 1000)
  }

  function EventOf(eventId: string, corrects: string): Event {
    var correction := corrects != "";
    Event(eventId, "a", Submit, 1000, 1000, "actor", "evidence", true, corrects,
          if correction then "late" else "", if correction then "EffectiveAt" else "")
  }

  /** The tables with the scope and nothing else. */
  function Scoped(): Tables {
    Tables(1, [RecordRow(SCOPE, Some(1))], [], [])
  }

  /** The evidence can be recorded on these tables and leads to those. */
  ghost predicate Leads(before: Tables, e: Evidence, after: Tables) {
    Admissible(e) && Insertable(before, e) && WithEvidence(before, e) == after
  }

  lemma ScopeIsInserted()
    ensures Leads(Tables(0, [], [], []), NewRecord(SCOPE), Scoped())
  {
    assert SCOPE.(adjudication := None) == SCOPE;
  }

  /** Three insertions one after the other. */
  lemma Thrice(a: Evidence, b: Evidence, c: Evidence, x: Tables, y: Tables, z: Tables)
    requires Leads(Tables(0, [], [], []), a, x) && Leads(x, b, y) && Leads(y, c, z)
    ensures OneByOne([a] + [b] + [c]) == Some(z)
  {
    hide Admissible, Insertable, WithEvidence;
    OneByOneStep([], a);
    assert [] + [a] == [a];
    OneByOneStep([a], b);
    OneByOneStep([a] + [b], c);
  }

  lemma TheScope(t: Tables)
    requires t.records == Scoped().records
    ensures HasRecord(t, "a") && HasScope(t, DecisionOn("first")) && HasScope(t, DecisionOn("second"))
  {
    assert t.records[0].record == SCOPE;
  }

  // ---------------------------------------------------------------- two decisions

  function Decided(): Tables {
    Scoped().(boundary := 2, adjudications := [AdjudicationRow(DecisionOn("first"), Some(2))])
  }

  function DecidedTwice(): Tables {
    Decided().(boundary := 3, adjudications := Decided().adjudications + [AdjudicationRow(DecisionOn("second"), Some(3))])
  }

  lemma DecisionsAreInserted()
    ensures Leads(Scoped(), NewAdjudication(DecisionOn("first")), Decided())
    ensures Leads(Decided(), NewAdjudication(DecisionOn("second")), DecidedTwice())
  {
    TheScope(Scoped());
    TheScope(Decided());
    hide HasScope, HasRecord;
    assert |"first"| == 5 && |"second"| == 6;
    assert [] + [AdjudicationRow(DecisionOn("first"), Some(2))] == Decided().adjudications;
  }

  /** A run that records two decisions on one authorization: from its boundary on, every load fails in every continuation. */
  lemma CompetingDecisionsAreReached() returns (actions: seq<Action>)
    ensures Run(actions).Some?
    ensures var t := Run(actions).value.tables;
      && |t.records| == 1 && Within(t.records[0].position, t.boundary)
      && DecisionCount(t.adjudications, t.records[0].record.authorizationId, t.boundary) == 2
      && forall q :: q >= t.boundary ==> EntriesAt(t, q).None?
  {
    ScopeIsInserted();
    DecisionsAreInserted();
    hide Leads;
    Thrice(NewRecord(SCOPE), NewAdjudication(DecisionOn("first")), NewAdjudication(DecisionOn("second")),
           Scoped(), Decided(), DecidedTwice());
    actions := SerialIsReachable([NewRecord(SCOPE)] + [NewAdjudication(DecisionOn("first"))] + [NewAdjudication(DecisionOn("second"))]);
    var t := DecidedTwice();
    assert t.adjudications[..1] == Decided().adjudications && Decided().adjudications[..0] == [];
    assert DecisionCount(Decided().adjudications, "a", 3) == 1;
    assert DecisionCount(t.adjudications, "a", 3) == 2;
    hide Run, DecisionCount, EntriesAt;
    assert actions[..|actions|] == actions;
    forall q | q >= t.boundary ensures EntriesAt(t, q).None? {
      CompetingDecisionsInRuns(actions, |actions|, 0, 3, q);
    }
  }

  // ---------------------------------------------------------------- a correction of a correction

  function Submitted(): Tables {
    Scoped().(boundary := 2, events := [EventRow(EventOf("e", ""), Some(2))])
  }

  function Corrected(): Tables {
    Submitted().(boundary := 3, events := Submitted().events + [EventRow(EventOf("ee", "e"), Some(3))])
  }

  lemma EventsInJournal()
    ensures JournalRows([], "a") == []
    ensures JournalRows(Submitted().events, "a") == [EventOf("e", "")]
    ensures JournalRows(Corrected().events, "a") == [EventOf("e", ""), EventOf("ee", "e")]
  {
    assert Submitted().events[..0] == [];
    assert Corrected().events[..1] == Submitted().events;
  }

  lemma EventsAreAccepted()
    ensures Accepts([], EventOf("e", "")) && Accepts([EventOf("e", "")], EventOf("ee", "e"))
  {
    var e := EventOf("e", "");
    assert Recorded([], "a", 1000) == [] && Replay([]) == Some(Requested);
    assert [e][0].eventId == "e";
    assert |"e"| != |"ee"|;
  }

  lemma EventsAreInserted()
    ensures Leads(Scoped(), NewEvent(EventOf("e", "")), Submitted())
    ensures Leads(Submitted(), NewEvent(EventOf("ee", "e")), Corrected())
  {
    TheScope(Scoped());
    TheScope(Submitted());
    EventsInJournal();
    EventsAreAccepted();
    hide HasScope, HasRecord, Accepts, JournalRows;
    assert |"e"| != |"ee"|;
    assert [] + [EventRow(EventOf("e", ""), Some(2))] == Submitted().events;
  }

  /** A run that has recorded a correction, and a correction of it that goes through and ends the effective history. */
  lemma CorrectionOfCorrectionIsReached() returns (actions: seq<Action>)
    ensures Run(actions).Some?
    ensures var t, again := Run(actions).value.tables, EventOf("eee", "ee");
      && Insertable(t, NewEvent(again))
      && forall cutoff :: 1000 <= cutoff ==>
           EffectiveHistory(JournalRows(WithEvidence(t, NewEvent(again)).events, "a"), "a", cutoff).None?
  {
    ScopeIsInserted();
    EventsAreInserted();
    hide Leads;
    Thrice(NewRecord(SCOPE), NewEvent(EventOf("e", "")), NewEvent(EventOf("ee", "e")), Scoped(), Submitted(), Corrected());
    actions := SerialIsReachable([NewRecord(SCOPE)] + [NewEvent(EventOf("e", ""))] + [NewEvent(EventOf("ee", "e"))]);
    InvariantOfRuns(actions);
    TheScope(Corrected());
    EventsInJournal();
    var c, again := EventOf("ee", "e"), EventOf("eee", "ee");
    assert c in [EventOf("e", ""), c];
    assert |"eee"| == 3 && |"ee"| == 2 && |"e"| == 1;
    hide Run, HasRecord, JournalRows, EffectiveHistory, Sound, Insertable;
    CorrectionOfCorrectionIsRecorded(Corrected(), c, again);
  }
}
