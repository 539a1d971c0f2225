# Verified model of the EVT API's core

This project models, in Dafny, the parts of the EVT API (`apps/evt-api-go`) whose correctness is hard to see from any one
function, and proves what they are for.

**Authority history** (`Lifecycle`, `Journal`, `JournalReplay`, `Projection`, `AuthorityEvaluation`, `Refinement`,
`Snapshot`, `GrantIds`, `Verification`, `LifecycleLanguage`, `AuthoritySafety`). An append-only journal records
lifecycle events on two time axes. It is replayed as known at a cutoff, corrected, projected into time-bounded grants,
and evaluated at an instant. Time is an integer number of nanoseconds; *canonical* means non-zero and a multiple of
1000. The main result is that the whole pipeline is the folded lifecycle state at that instant, over any number of
authorizations. Evaluation accepts any instant: in the last nanoseconds before a boundary, when no grant is current,
the decision is REVIEW; `DecisionRefinesLifecycle` gives the exact decision there too.

**Recording** (`RecordingPositions`, `Registry`, `AuthorityRepository`, `RecordingProtocol`, `RecordingExamples`,
`RecordingSafety`). Evidence rows carry positions allocated from one counter. The operations are methods of a class
over the committed tables; the protocol is a transition system in which any number of writers take locks, insert,
commit and abort. The stored function `next_authority_recording_position` and the table constraints are those of
migrations 000002 to 000012.

**SD-JWT** (`Disclosure`, `DisclosureProcessing`, `DisclosureApply`, `DisclosureReferences`, `DisclosureNames`,
`DisclosureRoundTrip`, `DisclosureIssuing`, `DisclosureExamples`, `DisclosureAcceptance`, `DisclosurePaths`,
`CompactParser`, `CompactVerdicts`). The traversal shares mutable sets and visits map keys in any order. It is proved
equal to an order-free expansion; that expansion undoes the concealment of sections 4.2.4 to 4.2.6 of RFC 9901. The
hash, base64 and JSON are parameters.

**Transactions** (`RefreshTokens`, `RefreshProtocol`, `RefreshSerial`, `RefreshAccounts`, `Assignments`,
`AssignmentProtocol`, `AssignmentStanding`, `AssignmentExamples`, `AttestationProtocol`, `RequestWorkflow`,
`RequestTable`, `RequestSafety`, `QueryLists`, `Pagination`, `PaginationContents`). Refresh-token families, HR
assignments, the request workflow with its event log, and the paged candidate list. Each transaction is a method over
its tables; where transactions interleave there is also a transition system over their locks, and the results are
about all of its runs.

The modules named after what is safe, exact, accepted or shown state the answers of the operations from the rows and words
they are given, without the functions that compute them.

`Common`, `Sorting` and `Text` hold what these share. `dafny verify dfyconfig.toml` checks everything.

## Assumptions

- Random tokens and ids never repeat: they are serial numbers, and a token stands for its keyed hash.
- A lock on a row is held until the transaction commits or aborts, and what a transaction reads after waiting for a lock is
  what was committed before it got it (READ COMMITTED). A refresh runs SERIALIZABLE, where it may also abort instead; every
  step of the model may be an abort.
- `check_employer_hr_assignment` takes the principal's row in share mode and `lock_employer_hr_principal` takes it
  exclusively, as migration 000014 defines them. Any other update of the principal's row waits for both.
- `journal_sequence` is the order of insertion. Ids are compared by code point, and request ids are in canonical form.
- `evt_requests.version` starts at 1, and an event that cannot be inserted aborts its transaction.
- A presented text has the digest of a disclosure or decoy of the tree only if it is that disclosure (`CollisionFree`).
- Cursor strings decode to what was encoded and contain no blanks (`Faithful`).

## Where code and intent differ

- `Append` accepts events after which an authorization has no effective history any more, and with it no snapshot
  resolves: `AppendKeepsHistoryExactly` gives the exact condition. The table constraint of migration 000009 refuses
  corrections of other fields than `EffectiveAt`; a correction of a correction passes it
  (`CorrectionOfCorrectionIsRecorded`, `CorrectionOfCorrectionIsReached`), and the failure is permanent
  (`UnsoundCorrectionIsPermanent`).
- The tables accept a second adjudication of an authorization (`SecondAdjudicationIsRecorded`), after which every load
  fails for good (`CompetingDecisionsInRuns`, `CompetingDecisionsAreReached`). An authorization without an adjudication
  makes every load fail until it gets one (`LoadsExactly`).
- One rejected authorization keeps every snapshot that contains it from resolving, for good (`RejectionIsFinal`).
- Section 7.1 of RFC 9901 rejects disclosures named `_sd` or `...`. The code accepts them (`ReservedNamesAreAccepted`);
  `NamesLeft` and `SkippedNamesLeft` say exactly which names a processed payload then has.
- A hidden property whose name is blank cannot be disclosed, though JSON has such names, nor can anything under a blank
  salt: the disclosure is refused, and with it the whole presentation (`EmptyNameIsRefused`, `BlankSaltIsRefused`).
  `PresentationOfIssued` gives the exact condition on which concealing and disclosing is a round trip.
- Grant ids are distinct within an authorization but not over a snapshot: authorization `a` with event `b:c` and
  authorization `a:b` with event `c` share one (`GrantIdsCollide`); `DistinctOverSnapshot` gives the exact condition.
- The parser also accepts an SD-JWT without its final tilde, and a KB-JWT followed by one (`LooseFormsAreAccepted`), and
  on input without blanks no other loose form (`AcceptedExactly`).
- A trust result outside the three of the trust contract is listed as verified and, once consumed, as unknown
  (`ConsumeAndCloseKeepListing`, `ForeignTrustResultIsReached`).
- A request submitted to an employer whose dispatch mode is not AUTO stays SUBMITTED until it is canceled: no operation
  dispatches it later (`SubmittedUntilCanceled`, `DispatchedIffAuto`).

## Model

| member | source | states |
|---|---|---|
| `Lifecycle.Transition` | apps/evt-api-go/internal/authority/state_machine.go:67-141 | An event is applied exactly when the lifecycle has an edge for it and its conditions are met; otherwise the state stays, and an applied event always changes it. |
| `Journal.AuthorizationJournal.Append` | apps/evt-api-go/internal/authority/registry.go:33-90 | Accepts exactly the well-formed events with a new id that are recorded no earlier than the last one and are either a correction of an event of the same authorization or a transition allowed by replay; appends them and nothing else. |
| `Journal.AuthorizationJournal.Reconstruct` | apps/evt-api-go/internal/authority/registry.go:99-128 | The loop returns the replay of all lifecycle events of the authorization recorded by the cutoff, or fails. |
| `Journal.AuthorizationJournal.EffectiveEvents` | apps/evt-api-go/internal/authority/registry.go:132-217 | The loops with the position and corrected maps return the derived view when it is in order and replays, and fail otherwise. |
| `Journal.AuthorizationJournal.DerivedView` | apps/evt-api-go/internal/authority/registry.go:140-177 | The first loop, with its `break`, amends each corrected event in place in the copy and fails on the first correction that cannot be applied. |
| `Journal.LifecycleHolds` | apps/evt-api-go/internal/authority/registry.go:179-214 | The second loop accepts exactly the histories in order of time, strictly after interval-opening events, whose every transition applies. |
| `JournalReplay.BreakSelectsWhatContinueSelects` | apps/evt-api-go/internal/authority/registry.go:109-151 | For every journal that Append can build, the `break` of one loop and the `continue` of the other select the same events. |
| `JournalReplay.RecordedIsLifecycleOfKnown` | apps/evt-api-go/internal/authority/registry.go:109-157 | What Reconstruct replays are the lifecycle events among those EffectiveEvents reads. |
| `JournalReplay.ReconstructAlwaysSucceeds` | apps/evt-api-go/internal/authority/registry.go:60-128 | On every journal that Append can build, Reconstruct succeeds at every canonical cutoff, also in the past. |
| `JournalReplay.ViewIsAmended` | apps/evt-api-go/internal/authority/registry.go:140-177 | The loop succeeds exactly when every correction amends the time of an earlier lifecycle event that no other correction amends, and then each event carries its corrected time. |
| `JournalReplay.EffectiveHistoryExactly` | apps/evt-api-go/internal/authority/registry.go:132-217 | EffectiveEvents succeeds exactly when the known corrections are sound and the corrected history is in order, never because of a transition, and its final state is the one Reconstruct gives. |
| `JournalReplay.AppendKeepsThePast` | apps/evt-api-go/internal/authority/registry.go:33-217 | No later Append changes either view at a cutoff before the new event was recorded. |
| `JournalReplay.AppendKeepsHistoryExactly` | apps/evt-api-go/internal/authority/registry.go:57-88 | An event that Append accepts leaves the authorization with an effective history iff, for a lifecycle event, it is in order after the last one, and for a correction, it names EffectiveAt and a lifecycle event no other correction amends and leaves the events in order; Append checks none of this. |
| `JournalReplay.UnsoundCorrectionIsPermanent` | apps/evt-api-go/internal/authority/registry.go:153-170 | Once a correction that cannot be applied has been appended, the effective history fails at every later cutoff, whatever is appended afterwards. |
| `Projection.ProjectGrantInterval` | apps/evt-api-go/internal/authority/projection.go:15-34 | Succeeds exactly for canonical bounds in order; at microsecond precision the inclusive interval then contains exactly the canonical instants of the half-open one. |
| `Projection.IntervalBuilder.OpenInterval` | apps/evt-api-go/internal/authority/projection.go:134-143 | Opens an interval exactly when none is open, under the grant id made of the authorization and event ids; otherwise nothing changes. |
| `Projection.IntervalBuilder.CloseInterval` | apps/evt-api-go/internal/authority/projection.go:145-168 | Closes the open interval one microsecond before its end exactly when it has positive canonical length, and appends its grant; otherwise nothing changes. |
| `Projection.IntervalBuilder.Advance` | apps/evt-api-go/internal/authority/projection.go:190-236 | On an ordered history that replays, no guard of the loop body fails, and the open interval and the grants stay those of the prefix read so far. |
| `Projection.IntervalBuilder.Finish` | apps/evt-api-go/internal/authority/projection.go:243-278 | The guards after the loop cannot fail; the last interval is left unbounded. |
| `Projection.HistoryShape` | apps/evt-api-go/internal/authority/registry.go:132-217 | Effective events have canonical times, belong to the authorization and have distinct ids. |
| `Projection.ApprovedOnce` | apps/evt-api-go/internal/authority/projection.go:182-188 | A lifecycle contains at most one APPROVE and is past PENDING ever after, so the approval check of the loop decides once. |
| `Projection.OnlyApproval` | apps/evt-api-go/internal/authority/projection.go:182-188 | The only APPROVE of a history decides whether there is one that matches the adjudication. |
| `Projection.ProjectAuthorityGrants` | apps/evt-api-go/internal/authority/projection.go:84-279 | Projection succeeds exactly when the record and adjudication checks pass, the effective history exists and its APPROVE matches the adjudication; the grants are one per interval-opening event up to the next event that closes it. Every other guard is unreachable. |
| `AuthorityEvaluation.Evaluate` | apps/evt-api-go/internal/authority/evaluator.go:22-100 | The single pass returns the first current active grant in scope, else the first current inactive one, else REVIEW with its reason. |
| `Refinement.GrantsRefineState` | apps/evt-api-go/internal/authority/projection.go:124-278 | At every instant, aligned or not, an active grant is current exactly when the folded lifecycle is ACTIVE now and through the end of the microsecond; likewise an inactive one for SUSPENDED or REVOKED. |
| `Refinement.DecisionRefinesLifecycle` | apps/evt-api-go/internal/authority/evaluator.go:22-76 | For every journal, cutoff, successful projection and instant: AUTHORIZED iff the fold of the events effective by then is ACTIVE throughout the microsecond that follows, UNAUTHORIZED iff it is SUSPENDED or REVOKED throughout. |
| `Refinement.AlignedDecisionRefinesLifecycle` | apps/evt-api-go/internal/authority/projection.go:84-279 | At aligned instants the decision is a function of the folded state: ACTIVE gives AUTHORIZED, SUSPENDED and REVOKED give UNAUTHORIZED, everything else REVIEW. |
| `Refinement.GrantsTileTime` | apps/evt-api-go/internal/authority/projection.go:134-276 | Grants are in order, non-empty, exactly adjacent, only the last one unbounded, with distinct ids, and cover exactly the time from activation until expiry. |
| `GrantIds.SameGrantId` | apps/evt-api-go/internal/authority/projection.go:140-140 | Two grant ids are equal iff authorization and event are, or one authorization id continues the other after a colon and the event ids make up for it. |
| `GrantIds.DistinctOverSnapshot` | apps/evt-api-go/internal/authority/snapshot_resolver.go:34-80 | The grants of a snapshot have distinct ids iff no two opening events of different authorizations are ambiguous in that way. |
| `GrantIds.PlainIdsAreDistinct` | apps/evt-api-go/internal/authority/snapshot_resolver.go:34-80 | So they do when no authorization id has a colon. |
| `GrantIds.GrantIdsCollide` | apps/evt-api-go/internal/authority/projection.go:140-140 | A valid snapshot of authorizations a and a:b whose two grants are both named a:b:c. |
| `Refinement.AppendIsLocal` | apps/evt-api-go/internal/authority/registry.go:74-89 | Appending a lifecycle event leaves every decision at aligned instants before its effective time unchanged. |
| `Refinement.CorrectionIsLocal` | apps/evt-api-go/internal/authority/registry.go:172-177 | A correction keeps all grant ids and states and changes decisions only between the old and the new effective time. |
| `Snapshot.NewSnapshotAuthorityResolver` | apps/evt-api-go/internal/authority/snapshot_resolver.go:34-80 | A resolver is built exactly for a complete snapshot at a canonical cutoff whose entries are coherent, distinct and all project; it holds their grants in order. |
| `Snapshot.ResolveAuthorityGrants` | apps/evt-api-go/internal/authority/snapshot_resolver.go:84-114 | Returns exactly the grants of the issuer and claim type, in order. |
| `Snapshot.SnapshotDecision` | apps/evt-api-go/internal/authority/snapshot_resolver.go:34-114 | Over a snapshot of any number of authorizations at any instant: AUTHORIZED iff some authorization in scope is ACTIVE throughout the microsecond that begins there, else UNAUTHORIZED iff some one in scope is SUSPENDED or REVOKED throughout it, else REVIEW. |
| `Snapshot.AlignedStaysIn` | apps/evt-api-go/internal/authority/evaluator.go:87-100 | At an instant aligned to a whole microsecond that is the lifecycle state at the instant itself. |
| `Verification.EvaluatePolicy` | apps/evt-api-go/internal/verification/evaluator.go:80-175 | The flags set through pointers and the appended reasons amount to the policy table and the reasons in fixed order. |
| `Verification.ReasonsExplainDecision` | apps/evt-api-go/internal/verification/evaluator.go:80-151 | VERIFIED iff there is no reason, REJECTED iff some reason is negative, REVIEW otherwise. |
| `Verification.EvaluateService` | apps/evt-api-go/internal/verification/service.go:41-77 | Resolution, evaluation and policy are composed; a failed resolution is REVIEW. |
| `Verification.VerdictOverSnapshot` | apps/evt-api-go/internal/verification/service.go:41-77 | From snapshot to verdict at any instant: VERIFIED iff the four evidence results are valid and some authorization in scope is ACTIVE throughout the microsecond; REJECTED iff some evidence result is invalid, or none in scope is ACTIVE and some one is SUSPENDED or REVOKED throughout it. |
| `Verification.VerifyAgainstSnapshot` | apps/evt-api-go/internal/verification/service.go:41-77 | The composed methods compute the policy decision of the evaluated snapshot, and that of REVIEW when the snapshot is refused. |
| `RecordingPositions.CompletenessExactly` | apps/evt-api-go/internal/db/authority_repository.go:871-931 | The count, distinct, min and max comparison accepts a table iff its positions are exactly 1 to the boundary without repeats and no row lacks one. |
| `Registry.LoadJournalAtPosition` | apps/evt-api-go/internal/db/authority_repository.go:298-381 | The loading loop returns the visible events exactly when Append accepts them one after the other. |
| `Registry.LoadAdjudicationAtPosition` | apps/evt-api-go/internal/db/authority_repository.go:600-671 | Returns the only visible adjudication; none and several both fail. |
| `Registry.RecordedSound` | apps/evt-api-go/internal/db/authority_repository.go:385-454 | Committing an accepted insert keeps positions exact, journal order the order of positions, and every journal one that Append could have built. |
| `Registry.LaterIsInvisible` | apps/evt-api-go/internal/db/authority_repository.go:298-344 | A row recorded after a position changes nothing that is seen from it: not the records, not the adjudication or the journal of any authorization, not the load of all entries. |
| `Registry.BoundarySeesAll` | apps/evt-api-go/internal/db/authority_repository.go:600-671 | At its boundary a registry shows all of its rows: every record, the adjudication of each authorization with exactly one, every journal in full. |
| `Registry.JournalsAlwaysReload` | apps/evt-api-go/internal/db/authority_repository.go:298-381 | At every position every persisted journal reloads through Append without error, as a prefix of the whole. |
| `Registry.LoadsExactly` | apps/evt-api-go/internal/db/authority_repository.go:821-866 | A load at a position succeeds iff every visible authorization has exactly one visible adjudication; journals never stand in the way. |
| `Registry.SecondAdjudicationIsRecorded` | apps/evt-api-go/migrations/000003_authority_adjudications.sql:1-37 | A second adjudication of an authorization with a fresh decision id is accepted by the tables; its count becomes 2 and every load from the new boundary on fails. |
| `Registry.CompetingDecisionsArePermanent` | apps/evt-api-go/internal/db/authority_repository.go:639-660 | Two visible adjudications of one authorization make every load at that position or later fail, on any later tables that contain these rows. |
| `Registry.CorrectionOfCorrectionIsRecorded` | apps/evt-api-go/migrations/000008_authority_correction_integrity.sql:1-11 | A correction of a correction passes Append and the table constraints, and ends the effective history of the authorization at every later cutoff. |
| `AuthorityRepository.LoadJournal` | apps/evt-api-go/internal/db/authority_repository.go:215-294 | The whole journal, exactly when Append accepts it again. |
| `AuthorityRepository.AuthorityRepository.CreateAuthorization` | apps/evt-api-go/internal/db/authority_repository.go:63-98 | The scope row and the advance of the counter commit together or not at all; an existing id is refused. |
| `AuthorityRepository.AuthorityRepository.CreateAdjudication` | apps/evt-api-go/internal/db/authority_repository.go:102-153 | Likewise for an adjudication of an existing scope with a new decision id. |
| `AuthorityRepository.AuthorityRepository.AppendJournalEvent` | apps/evt-api-go/internal/db/authority_repository.go:385-454 | Under the lock the reloaded journal decides; the row is written iff Append and the table constraints accept it. The reload itself cannot fail. |
| `AuthorityRepository.AuthorityRepository.LoadEntriesAtPosition` | apps/evt-api-go/internal/db/authority_repository.go:821-866 | The loop over the authorizations in id order returns the visible entries, or fails exactly when one of them does. |
| `AuthorityRepository.AuthorityRepository.LoadAuthoritativeSnapshot` | apps/evt-api-go/internal/db/authority_repository.go:936-989 | The completeness check cannot fail on committed tables; a snapshot that is returned resolves. |
| `RecordingProtocol.InvariantKept` | apps/evt-api-go/internal/db/authority_repository.go:32-211 | Every step of any writer, including an abort at any point, keeps the lock discipline and the soundness of the committed tables. |
| `RecordingProtocol.PositionsStayExact` | apps/evt-api-go/internal/db/authority_repository.go:32-58 | In every reachable state of interleaved, aborting writers the evidence positions are exactly 1 to the boundary, and the completeness check accepts them. |
| `RecordingProtocol.NoDeadlock` | apps/evt-api-go/internal/db/authority_repository.go:180-205 | With the fixed lock order only the counter is ever waited for, whoever is waited for does not wait, and it can go on unless its own request is refused. |
| `RecordingProtocol.Serialized` | apps/evt-api-go/internal/db/authority_repository.go:29-58 | Whatever was interleaved, the committed tables are those of the committed writers run one after the other, as many as the boundary says. |
| `RecordingProtocol.TimeTravel` | apps/evt-api-go/internal/db/authority_repository.go:821-866 | From any position up to an earlier boundary every run shows, to each loader and for every authorization, what it showed then. |
| `RecordingProtocol.LoadsThePast` | apps/evt-api-go/internal/db/authority_repository.go:298-381 | For every run and position up to the boundary there is a prefix of the run with that boundary; the records, each adjudication, each journal and the entries loaded at the position are those of the prefix, and they are all of its rows, also where the load of all entries fails. |
| `RecordingProtocol.CompetingDecisionsInRuns` | apps/evt-api-go/internal/db/authority_repository.go:821-866 | Once a run has recorded two adjudications of an authorization by some position, every load from that position on fails in every continuation of the run. |
| `RecordingProtocol.SerialIsReachable` | apps/evt-api-go/internal/db/authority_repository.go:29-58 | Conversely to serialization, whatever can be recorded one after the other is reached by a run. |
| `RecordingExamples.CompetingDecisionsAreReached` | apps/evt-api-go/internal/db/authority_repository.go:102-153 | A concrete run that records two adjudications of one authorization, after which every load fails. |
| `RecordingExamples.CorrectionOfCorrectionIsReached` | apps/evt-api-go/internal/db/authority_repository.go:385-454 | A concrete run that records a correction, and a correction of it that is inserted and ends the effective history. |
| `RecordingProtocol.JournalsReloadAfterAnyRun` | apps/evt-api-go/internal/db/authority_repository.go:346-381 | After any run every journal reloads at every position. |
| `DisclosureProcessing.Processing.ProcessValue` | apps/evt-api-go/internal/credential/sdjwtvc/disclosure.go:239-271 | Terminates, and succeeds exactly when the value expands and references no digest referenced before; the result, the shared sets and the paths are those of the order-free expansion. |
| `DisclosureProcessing.Processing.ProcessObject` | apps/evt-api-go/internal/credential/sdjwtvc/disclosure.go:273-388 | The same for an object: visible properties, then the `_sd` list. |
| `DisclosureProcessing.Processing.ProcessVisible` | apps/evt-api-go/internal/credential/sdjwtvc/disclosure.go:283-302 | The same whatever order the map yields its keys in. |
| `DisclosureProcessing.Processing.ProcessEntry` | apps/evt-api-go/internal/credential/sdjwtvc/disclosure.go:316-385 | The same for one entry of `_sd`: kind, name clash and repeated use are refused. |
| `DisclosureProcessing.Processing.ProcessArray` | apps/evt-api-go/internal/credential/sdjwtvc/disclosure.go:390-492 | The same for an array; an undisclosed element disappears. |
| `DisclosureProcessing.VisitRound` | apps/evt-api-go/internal/credential/sdjwtvc/disclosure.go:283-302 | Visiting one more property in any order applies exactly when it does together with those visited before. |
| `DisclosureApply.ApplyDisclosures` | apps/evt-api-go/internal/credential/sdjwtvc/disclosure.go:43-145 | The traversal, for every order of map iteration, computes one function of the payload and the disclosures. |
| `DisclosureApply.DecodeForgetsOrder` | apps/evt-api-go/internal/credential/sdjwtvc/disclosure.go:78-99 | Decoding and the check for duplicate digests do not depend on the order of the disclosures. |
| `DisclosureApply.Confluence` | apps/evt-api-go/internal/credential/sdjwtvc/disclosure.go:43-145 | Success, payload and sorted paths do not depend on the order in which disclosures are supplied. |
| `DisclosureApply.EveryDisclosureUsedOnce` | apps/evt-api-go/internal/credential/sdjwtvc/disclosure.go:133-144 | On success every disclosure was applied and exactly one path is reported for each. |
| `DisclosureReferences.NoDigestTwice` | apps/evt-api-go/internal/credential/sdjwtvc/disclosure.go:324-331 | On success no digest, supplied or not, has two places in the payload and the disclosed values, and each supplied one has exactly one. |
| `DisclosureNames.NamesLeft` | apps/evt-api-go/internal/credential/sdjwtvc/disclosure.go:43-145 | For every name, `...` included: a processed payload has a property of that name at some depth iff the issuer payload shows it (outside skipped properties and array placeholders) or a disclosure brings it, as its name or visible in its value, other than the disclosures referenced as or inside a top-level disclosure named `_sd_alg`. |
| `DisclosureNames.SkippedNamesLeft` | apps/evt-api-go/internal/credential/sdjwtvc/disclosure.go:284-287 | `_sd` and `_sd_alg` are left iff a disclosure not removed with a top-level `_sd_alg` has that name; without a disclosure named `_sd_alg` nothing is removed. |
| `DisclosureNames.NameIsAccepted` | apps/evt-api-go/internal/credential/sdjwtvc/disclosure.go:196-208 | A payload that conceals one scalar property is processed successfully whatever the name in its encoded disclosure, which is then the name in the payload. |
| `DisclosureNames.ReservedNamesAreAccepted` | apps/evt-api-go/internal/credential/sdjwtvc/disclosure.go:196-208 | In particular encoded disclosures named `_sd` and `...`, which section 7.1 of RFC 9901 has rejected. |
| `DisclosureRoundTrip.Reveals` | apps/evt-api-go/internal/credential/sdjwtvc/disclosure.go:273-492 | Processing a concealed tree yields the tree without its undisclosed nodes and references what the supplied disclosures bring to light. |
| `DisclosureRoundTrip.ClosedIffReached` | apps/evt-api-go/internal/credential/sdjwtvc/disclosure.go:133-140 | All supplied digests are reached iff no disclosure comes from inside an undisclosed node. |
| `DisclosureRoundTrip.DisclosingReveals` | apps/evt-api-go/internal/credential/sdjwtvc/disclosure.go:110-144 | With any disclosures that agree with the tree processing succeeds iff all are of the tree and they are parent-closed, and then returns the tree with the undisclosed nodes removed. |
| `DisclosureRoundTrip.RoundTrip` | apps/evt-api-go/internal/credential/sdjwtvc/disclosure.go:43-145 | Concealing and then disclosing everything returns the original tree. |
| `DisclosureRoundTrip.PresentationReveals` | apps/evt-api-go/internal/credential/sdjwtvc/disclosure.go:43-145 | The same for ApplyDisclosures on any list of texts, with or without `_sd_alg`: accepted iff each text decodes, none comes twice, all are of the tree and they are parent-closed; one path for each disclosure. |
| `DisclosureIssuing.IssuedAgrees` | apps/evt-api-go/internal/credential/sdjwtvc/disclosure.go:147-215 | What decodes under the digests of a tree from the texts its issuer encoded agrees with the tree: kind, name and concealed value. |
| `DisclosureIssuing.DecodesIffReadable` | apps/evt-api-go/internal/credential/sdjwtvc/disclosure.go:181-208 | An issuer's text decodes iff its salt is not blank and, for a property, its name is not blank. |
| `DisclosureIssuing.ChosenDecode` | apps/evt-api-go/internal/credential/sdjwtvc/disclosure.go:78-99 | A list of an issuer's texts decodes iff none comes twice and each can be read back. |
| `DisclosureIssuing.PresentationOfIssued` | apps/evt-api-go/internal/credential/sdjwtvc/disclosure.go:43-145 | From issuer to verifier, for any list of texts: accepted iff all are of the tree, none comes twice, none has a blank salt or property name, and they are parent-closed, with the tree without the other hidden nodes as result; all of them under the same condition give the original tree. |
| `DisclosureExamples.EmptyNameIsRefused` | apps/evt-api-go/internal/credential/sdjwtvc/disclosure.go:196-202 | A sound issuer and a tree with a hidden property named by the empty string: disclosing everything is refused although it is parent-closed; the other property can be disclosed. |
| `DisclosureExamples.BlankSaltIsRefused` | apps/evt-api-go/internal/credential/sdjwtvc/disclosure.go:181-186 | With a blank salt no presentation of the texts of a tree with two hidden properties is accepted. |
| `DisclosureExamples.NestedPresentations` | apps/evt-api-go/internal/credential/sdjwtvc/disclosure.go:43-145 | A sound issuer and a tree with a property inside a property: the outer alone, the inner alone, which is refused, and both. |
| `CompactParser.ParseCompact` | apps/evt-api-go/internal/credential/sdjwtvc/parser.go:36-101 | The loop over the trimmed parts computes the parse, with the position of the first bad disclosure. |
| `CompactParser.ParseUndoesRender` | apps/evt-api-go/internal/credential/sdjwtvc/parser.go:26-101 | Parsing the tilde-joined form of blank-free parts returns exactly those parts. |
| `CompactParser.ParsedIsWellFormed` | apps/evt-api-go/internal/credential/sdjwtvc/parser.go:36-101 | Accepted input consists of a two-dot issuer JWT, dot-free trimmed disclosures and a two-dot KB-JWT or none, all tilde-free. |
| `CompactParser.ReparseExactly` | apps/evt-api-go/internal/credential/sdjwtvc/parser.go:36-101 | On every accepted input, rendering and parsing again gives the same parts iff no KB-JWT was read with blanks at its end. |
| `CompactParser.ReparseWithoutBlanks` | apps/evt-api-go/internal/credential/sdjwtvc/parser.go:36-101 | On accepted blank-free input, parse-render-parse is parse. |
| `CompactParser.AcceptedExactly` | apps/evt-api-go/internal/credential/sdjwtvc/parser.go:36-101 | The accepted language on blank-free input: s parses to p iff p is renderable and s is its rendered form, that form without the final tilde when there is no KB-JWT, or that form with one more tilde when there is. |
| `CompactParser.LooseFormsAreAccepted` | apps/evt-api-go/internal/credential/sdjwtvc/parser.go:64-78 | Two concrete inputs of the latter kinds and what they parse to. |
| `RefreshTokens.AuthServer.HandleAuthRefresh` | apps/evt-api-go/internal/httpapi/refresh.go:55-233 | The transaction takes the branches in the order of the source and leaves exactly the rows of the decided effect. |
| `RefreshTokens.AuthServer.HandleAuthLogout` | apps/evt-api-go/internal/httpapi/logout.go:37-89 | Revokes the session of the token and all its tokens; succeeds without effect for an unknown token. |
| `RefreshTokens.AuthServer.IssueExchange` | apps/evt-api-go/internal/httpapi/auth_handlers.go:161-274 | Creates the user if missing and opens a session with one current token, unless the account is inactive or its role unknown. |
| `RefreshProtocol.InvariantKept` | apps/evt-api-go/internal/httpapi/refresh.go:55-245 | Every step of any client, with aborts anywhere, keeps locks, families and the justification of the commit log. |
| `RefreshProtocol.FamiliesOfRuns` | apps/evt-api-go/internal/httpapi/refresh.go:105-201 | In every reachable state a session has one token more than successful refreshes; a live session has exactly one current token and none revoked, a revoked session none current and all revoked. |
| `RefreshProtocol.RedeemedOnce` | apps/evt-api-go/internal/httpapi/refresh.go:167-201 | No token is redeemed twice in any interleaving. |
| `RefreshProtocol.EndedForGood` | apps/evt-api-go/internal/httpapi/refresh.go:55-66 | Once a session has ended by logout, reuse or deactivation, none of its tokens is refreshable and no refresh of it commits. |
| `RefreshProtocol.ReuseIsDetected` | apps/evt-api-go/internal/httpapi/refresh.go:100-131 | Presenting a redeemed token never issues another; it is detected as reuse and ends the session iff the session is live and the token unexpired, and changes nothing otherwise. |
| `RefreshProtocol.HoldersGoOn` | apps/evt-api-go/internal/httpapi/refresh.go:55-72 | A client that holds a session lock never waits. |
| `RefreshProtocol.AloneIsAtomic` | apps/evt-api-go/internal/httpapi/refresh.go:47-233 | The steps of one request without interruption are the one transaction. |
| `RefreshSerial.Serialized` | apps/evt-api-go/internal/httpapi/refresh.go:47-245 | Serializability: after any run the tables are those of its committed refreshes, logouts, exchanges and user updates run one after the other as whole transactions, in the order of their decisions. |
| `RefreshSerial.OrderIsAhead` | apps/evt-api-go/internal/httpapi/refresh.go:55-233 | At every moment that serial run is ahead of the tables by exactly the decisions that are going to commit. |
| `RefreshSerial.AnsweredAlike` | apps/evt-api-go/internal/httpapi/refresh.go:100-201 | In the serial run each refresh is answered as it was in the interleaved one. |
| `Assignments.AssignmentTables.Authorize` | apps/evt-api-go/internal/employeraccess/assignments.go:18-30 | Succeeds exactly for an active HR reviewer with an unrevoked assignment to the employer. |
| `Assignments.AssignmentTables.Grant` | apps/evt-api-go/internal/employeraccess/assignments.go:54-73 | Succeeds exactly when the checks pass and no active grant exists, and makes an Authorize succeed that failed before. |
| `Assignments.AssignmentTables.Revoke` | apps/evt-api-go/internal/employeraccess/assignments.go:77-104 | Succeeds exactly on an unrevoked grant, also of an inactive principal, and changes that row only. |
| `AssignmentProtocol.InvariantKept` | apps/evt-api-go/migrations/000014_employer_hr_assignments.sql:77-125 | Every step keeps shared and exclusive holders apart, one active grant per principal and employer, and what each holder relies on. |
| `AssignmentProtocol.AuthorizedHolds` | apps/evt-api-go/internal/employeraccess/assignments.go:15-30 | From a successful Authorize until the transaction ends the principal is an active reviewer with an active grant, whatever others do. |
| `AssignmentProtocol.NoChangeWhileShared` | apps/evt-api-go/internal/employeraccess/assignments.go:15-17 | While the shared lock is held nobody can take the exclusive one, hold a pending grant or revocation, or update the principal. |
| `AssignmentProtocol.GrantedExactly` | apps/evt-api-go/internal/employeraccess/assignments.go:54-104 | Over any run from a state without an active grant, the pair is granted iff a grant of it committed and no revocation of theirs since. |
| `AssignmentProtocol.WaiterIsRefused` | apps/evt-api-go/internal/employeraccess/assignments.go:15-17 | An Authorize that meets the revocation being written of the only active grant waits; when it is served, after any steps of other clients, it succeeds iff the principal is still an active reviewer and a grant committed since that no later revocation undid. Without such a grant it is refused. |
| `AssignmentProtocol.WaiterServedAtOnce` | apps/evt-api-go/internal/employeraccess/assignments.go:15-17 | Served right after the revocation it is refused. |
| `AssignmentExamples.InterveningGrantIsHonored` | apps/evt-api-go/internal/employeraccess/assignments.go:54-73 | A concrete run in which a new grant commits between the revocation and the check, which is then allowed. |
| `AssignmentProtocol.RevokedForGood` | apps/evt-api-go/internal/employeraccess/assignments.go:75-104 | Grants are never removed, their identity never changes, and a revoked grant never becomes active again. |
| `AssignmentProtocol.OneActiveInRuns` | apps/evt-api-go/migrations/000014_employer_hr_assignments.sql:66-66 | A principal never has two active grants for one employer. |
| `AttestationProtocol.AttestedWhileAllowed` | apps/evt-api-go/internal/evt/repo.go:322-436 | In every interleaving an attestation commits only for a pending request of its employer, and at that moment its reviewer is active with an active grant for that employer. |
| `AttestationProtocol.NoAttestationAfterRevocation` | apps/evt-api-go/internal/evt/repo.go:328-330 | After the revocation of the only active grant has committed, no attestation of that reviewer for that employer commits, not even one under way, unless a new grant commits first. |
| `AttestationProtocol.AttestationGoesThrough` | apps/evt-api-go/internal/evt/repo.go:322-436 | An authorized client that locks a pending request attests it, whatever steps of others come before its decision and before its commit. |
| `RequestTable.Repo.CandidateCreateDraft` | apps/evt-api-go/internal/evt/repo.go:70-89 | A draft, its first event and, when missing, an AUTO employer configuration. |
| `RequestTable.Repo.CandidateUpdateDraft` | apps/evt-api-go/internal/evt/repo.go:91-111 | Succeeds exactly on an own draft at the expected version. |
| `RequestTable.Repo.CandidateSubmit` | apps/evt-api-go/internal/evt/repo.go:229-287 | DRAFT to SUBMITTED and, in AUTO mode, on to ATTESTATION_PENDING, with one event for each. |
| `RequestTable.Repo.CandidateCancel` | apps/evt-api-go/internal/evt/repo.go:289-318 | Only DRAFT and SUBMITTED requests are canceled. |
| `RequestTable.Repo.EmployerAttest` | apps/evt-api-go/internal/evt/repo.go:322-436 | Authorization against the assignment tables, ownership, status, response type and signer in that order; a signature only for ATTESTED. |
| `RequestTable.Repo.InternalVerify` | apps/evt-api-go/internal/evt/repo.go:552-593 | ATTESTED to VERIFIED or UNVERIFIED with the trust result. |
| `RequestTable.Repo.InternalClose` | apps/evt-api-go/internal/evt/repo.go:595-620 | Only CONSUMED requests are closed. |
| `RequestTable.Repo.RecruiterConsume` | apps/evt-api-go/internal/evt/repo.go:624-661 | Records every consumption, and moves to CONSUMED at the first one only. |
| `RequestTable.PerformedKeeps` | apps/evt-api-go/internal/evt/repo.go:36-57 | Every operation keeps each request in step with its own events in the shared log. |
| `RequestWorkflow.HistoryIsConsistent` | apps/evt-api-go/internal/evt/repo.go:70-661 | In every reachable state the log is a chain of workflow edges that replays to the status, the version has grown once per event other than the creation and a blocked dispatch, and a JWS is present iff the log passed through ATTESTED. |
| `RequestWorkflow.LogIsChain` | apps/evt-api-go/internal/evt/repo.go:36-57 | Each from_status is the previous to_status. |
| `RequestWorkflow.RanksRise` | apps/evt-api-go/internal/evt/repo.go:245-661 | The workflow never goes back: no logged status is ahead of the present one, and those of the same rank equal it. |
| `RequestWorkflow.TerminalForGood` | apps/evt-api-go/internal/evt/repo.go:303-305 | A rejected, canceled or closed request never changes again. |
| `RequestWorkflow.NoLostUpdate` | apps/evt-api-go/internal/evt/repo.go:91-106 | A draft update that succeeds with a version read earlier finds the row as it was read. |
| `RequestWorkflow.ConsumeAndCloseKeepListing` | apps/evt-api-go/internal/evt/repo.go:760-767 | Consuming and closing keep the listed verification state, except for a VERIFIED request whose trust result is outside the trust contract. |
| `RequestWorkflow.ForeignTrustResultIsReached` | apps/evt-api-go/internal/evt/repo.go:567-570 | A concrete history that reaches the exception: listed as verified, and as unknown once consumed. |
| `RequestWorkflow.SubmittedUntilCanceled` | apps/evt-api-go/internal/evt/repo.go:261-287 | A request left SUBMITTED stays so until it is canceled, whatever commands follow. |
| `RequestWorkflow.DispatchedIffAuto` | apps/evt-api-go/internal/evt/repo.go:268-286 | The log passes through ATTESTATION_PENDING iff a submit went through in AUTO mode. |
| `RequestWorkflow.SubmittedOnce` | apps/evt-api-go/internal/evt/repo.go:245-256 | At most one submit of a request goes through. |
| `Pagination.RecruiterCandidateList` | apps/evt-api-go/internal/evt/repo.go:706-1056 | The clamped limit, the probe for one row more, the cursor of the last shown row and the items of the page with their badges, listed state and claim fields. |
| `Pagination.ListCandidates` | apps/evt-api-go/internal/evt/handlers_recruiter_list.go:176-285 | A caller without claims or without the recruiter role is turned away; unknown trust modes, orders and signature values, bad limits and undecodable cursors are refused; everything else is a page of the query they stand for. |
| `QueryLists.ParseCsvOrRepeated` | apps/evt-api-go/internal/evt/handlers_recruiter_list.go:144-174 | The loops collect the list of the values given. |
| `QueryLists.ListExactly` | apps/evt-api-go/internal/evt/handlers_recruiter_list.go:144-174 | That list holds exactly the comma-separated parts that are not blank, trimmed, each once, in the order in which they first come. |
| `Pagination.ListingOrdered` | apps/evt-api-go/internal/evt/repo.go:737-879 | The list is in descending order of update time and id, without repeats, with one row for each candidate, and holds exactly the latest visible rows that pass the filters. |
| `Pagination.FetchIsSlice` | apps/evt-api-go/internal/evt/repo.go:824-879 | The row comparison with a cursor skips exactly the rows already shown. |
| `Pagination.CursorsAreHonored` | apps/evt-api-go/internal/evt/handlers_recruiter_list.go:227-235 | A cursor that was handed out is always accepted. |
| `Pagination.PagesAreTheList` | apps/evt-api-go/internal/evt/repo.go:824-940 | Following the cursors from the start ends after max(1, ceil(n / limit)) pages whose items together are exactly the list. |
| `LifecycleLanguage.ReplaysExactly` | apps/evt-api-go/internal/authority/state_machine.go:67-141 | The accepted lifecycles as words, without states: submission, decision, activation, suspensions and reinstatements in turn, at last an expiry or a revocation from either; the last event tells the state. |
| `LifecycleLanguage.AppendsExactly` | apps/evt-api-go/internal/authority/registry.go:33-90 | Append accepts an event iff it is filled in, at whole microseconds, new and not recorded before the last, and is a correction of an event of its authorization or goes on with its lifecycle under satisfied conditions. |
| `LifecycleLanguage.ReconstructsExactly` | apps/evt-api-go/internal/authority/registry.go:99-128 | Reconstruct answers iff it is given an id and a cutoff at a whole microsecond, with where the lifecycle known by then has come to. |
| `AuthoritySafety.ProjectsExactly` | apps/evt-api-go/internal/authority/projection.go:84-123 | A projection succeeds iff record and cutoff are filled in, the adjudication APPROVES the record's own scope and was known in time, the effective history exists, and the journal holds the APPROVE by the same decision maker on the same evidence, not recorded before the adjudication. |
| `AuthoritySafety.ResolvesExactly` | apps/evt-api-go/internal/authority/snapshot_resolver.go:34-80 | A snapshot resolves iff its authorizations are distinct, hold only their own events recorded by the cutoff, and each is approved in both ways with an effective history. |
| `AuthoritySafety.DecisionExactly` | apps/evt-api-go/internal/authority/evaluator.go:22-76 | AUTHORIZED iff the event in effect of some authorization with the evidence's issuer, claim type and employer is an activation or reinstatement; else UNAUTHORIZED iff that of some one is a suspension or revocation; else REVIEW. |
| `AuthoritySafety.AuthorizedIsApproved` | apps/evt-api-go/internal/authority/projection.go:100-121 | Behind every AUTHORIZED and every VERIFIED stands such an authorization whose own adjudication approves it and whose journal holds the adjudicated approval. |
| `AuthoritySafety.EvaluatesExactly` | apps/evt-api-go/internal/authority/evaluator.go:22-100 | For any list of grants: the id of the first current active one of the scope, else of the first current inactive one, else REVIEW with the reason that tells whether any grant of the scope is out of date. |
| `AuthoritySafety.ReportsItsGrounds` | apps/evt-api-go/internal/authority/evaluator.go:44-76 | The reported grant id names the authorization and the event that the decision rests on. |
| `AuthoritySafety.VerdictExactly` | apps/evt-api-go/internal/verification/evaluator.go:80-151 | VERIFIED and REJECTED told from the four evidence results and the events in effect. |
| `AuthoritySafety.ReasonsExactly` | apps/evt-api-go/internal/verification/evaluator.go:80-175 | One reason for each result that is not valid and each authority that is not positive, of the right kind, in the fixed order. |
| `RecordingSafety.AuthorizationsAccepted` | apps/evt-api-go/internal/db/authority_repository.go:63-98 | An authorization is recorded iff it is filled in and has no row yet. |
| `RecordingSafety.AdjudicationsAccepted` | apps/evt-api-go/internal/db/authority_repository.go:102-152 | An adjudication is recorded iff it is filled in, approves or rejects, has times in order, a new id, and the scope of an existing authorization. |
| `RecordingSafety.EventsAccepted` | apps/evt-api-go/internal/db/authority_repository.go:385-455 | An event is recorded iff its authorization exists, its type is known, its id is new to all journals, it corrects EffectiveAt or carries no correction fields, and its journal's lifecycle goes on with it. |
| `RecordingSafety.RejectionIsFinal` | apps/evt-api-go/internal/authority/projection.go:105-105 | Over all runs: once a rejection of an authorization is recorded, no snapshot that contains the authorization resolves, in any continuation, at any later position and any cutoff. |
| `RecordingSafety.AuthorizedWasRecorded` | apps/evt-api-go/internal/db/authority_repository.go:821-866 | Over all runs: when a snapshot loaded at a position authorizes an issuer, the rows visible there hold its authorization, the adjudication that approved it, and the approval by the same decision maker on the same evidence. |
| `RecordingSafety.EntriesInOrder` | apps/evt-api-go/internal/db/authority_repository.go:719-768 | Entries are loaded in the order of their authorization ids. |
| `RecordingSafety.JournalsLoadExactly` | apps/evt-api-go/internal/db/authority_repository.go:298-381 | On committed tables a journal loads iff an id is given and the position is not negative; nor do entries load at a negative one. |
| `RecordingSafety.UnpositionedFails` | apps/evt-api-go/internal/db/authority_repository.go:298-381 | A row without a position fails every load that it belongs to. |
| `DisclosureAcceptance.AcceptsExactly` | apps/evt-api-go/internal/credential/sdjwtvc/disclosure.go:43-145 | ApplyDisclosures accepts iff there is a payload that names no other algorithm than sha-256, the texts decode without repeats, payload and disclosures have the right shape place by place, no digest has two places and every disclosure has one. |
| `DisclosureAcceptance.AlgorithmDecides` | apps/evt-api-go/internal/credential/sdjwtvc/disclosure.go:54-76 | For every payload, list of texts and codec: naming sha-256 as `_sd_alg` changes nothing, naming anything else, a string or not, is refused. |
| `DisclosureAcceptance.DecodesAs` | apps/evt-api-go/internal/credential/sdjwtvc/disclosure.go:147-215 | What a disclosure decodes to: a salt and a value, or a salt, a name and a value, with salt and name strings that are not blank, under the digest of the trimmed text. |
| `DisclosurePaths.PathsExactly` | apps/evt-api-go/internal/credential/sdjwtvc/disclosure.go:273-520 | The reported paths are sorted and exactly those at which the disclosures are, one each: names joined by dots, positions of the issuer's arrays in brackets. |
| `DisclosurePaths.PositionsAreDecimal` | apps/evt-api-go/internal/credential/sdjwtvc/disclosure.go:478-478 | Positions are written in decimal without leading zeros. |
| `CompactVerdicts.ParsesExactly` | apps/evt-api-go/internal/credential/sdjwtvc/parser.go:36-101 | For every input, told from the parts between its tildes: which error is reported, with which position, and what is returned otherwise. |
| `RefreshAccounts.RefreshExactly` | apps/evt-api-go/internal/httpapi/refresh.go:84-160 | Each answer of a refresh with its exact condition on the rows: issued iff the token is current, unrevoked and unexpired, its session live, and its user active with a known role. |
| `RefreshAccounts.RefreshLeaves` | apps/evt-api-go/internal/httpapi/refresh.go:100-201 | And what each answer leaves: reuse and an inactive account end exactly that session, a rotation spends one token and adds one for thirty days, a refusal changes nothing. |
| `RefreshAccounts.LogoutLeaves` | apps/evt-api-go/internal/httpapi/logout.go:37-89 | A logout ends the session of any known token and nothing else. |
| `RefreshAccounts.ExchangeExactly` | apps/evt-api-go/internal/httpapi/auth_handlers.go:161-274 | Each answer of an exchange with its exact condition and rows; a missing account becomes an active requestor. |
| `RefreshAccounts.InactiveIsRefused` | apps/evt-api-go/internal/httpapi/refresh.go:145-160 | Over all runs: from when a user is made inactive until it is made active, no refresh decided on its sessions issues a token; one with a current token ends the session when it commits, whatever others do before. |
| `AssignmentStanding.AllowedExactly` | apps/evt-api-go/migrations/000014_employer_hr_assignments.sql:95-101 | Authorized iff the row is active with the reviewer role and an unrevoked assignment exists. |
| `AssignmentStanding.ChangesExactly` | apps/evt-api-go/internal/employeraccess/assignments.go:30-104 | When a grant and when a revocation goes through; a revocation does not ask for the standing of the principal. |
| `AssignmentStanding.ChangesWrite` | apps/evt-api-go/internal/employeraccess/assignments.go:54-104 | The row each of them writes. |
| `AssignmentStanding.AuthorizedStands` | apps/evt-api-go/internal/employeraccess/assignments.go:15-30 | Over all runs an authorized client's principal has an active reviewer row and an unrevoked assignment, until its transaction ends. |
| `AssignmentStanding.OutOfOfficeIsDenied` | apps/evt-api-go/migrations/000014_employer_hr_assignments.sql:97-99 | Over all runs: from when a row loses activity or role until it is written so again, every check of the principal ends in a denial and no grant to it commits, while a revocation goes through. |
| `AssignmentStanding.NoAttestationOutOfOffice` | apps/evt-api-go/internal/evt/repo.go:328-330 | Nor does any attestation of it commit, not even one under way. |
| `RequestSafety.UpdatesExactly` | apps/evt-api-go/internal/evt/repo.go:91-111 | Who updates a draft, when, and every field it leaves. |
| `RequestSafety.SubmitsExactly` | apps/evt-api-go/internal/evt/repo.go:229-287 | The same for a submission in each dispatch mode. |
| `RequestSafety.CancelsExactly` | apps/evt-api-go/internal/evt/repo.go:289-318 | The same for a cancellation. |
| `RequestSafety.AttestsExactly` | apps/evt-api-go/internal/evt/repo.go:322-436 | The same for an attestation: full and partial matches are attested with a signature, rejections need none. |
| `RequestSafety.FollowsExactly` | apps/evt-api-go/internal/evt/repo.go:552-661 | The same for verification, reading and closing. |
| `RequestSafety.OnlyItsParties` | apps/evt-api-go/internal/evt/repo.go:91-436 | In every history whoever is not the candidate, or not an authorized reviewer of the employer, changes nothing about a request. |
| `RequestSafety.SignedByAttestation` | apps/evt-api-go/internal/evt/repo.go:322-436 | In every history a request carries a signature only as an authorized reviewer of its employer attested it while pending, with the response it carries. |
| `RequestSafety.ClaimIsFrozen` | apps/evt-api-go/internal/evt/repo.go:91-111 | Once it has left the draft, what a request claims never changes. |
| `RequestSafety.ClaimWasWritten` | apps/evt-api-go/internal/evt/repo.go:91-111 | A request claims what its candidate wrote. |
| `PaginationContents.PagesShowExactly` | apps/evt-api-go/internal/evt/repo.go:824-1056 | The followed pages show exactly the rows the query string asks for, told from the table, the trust map and the words of the query: trust mode, signature words, companies, latest request of each candidate; and each item tells of its row what it should. |
| `PaginationContents.PagesInOrder` | apps/evt-api-go/internal/evt/repo.go:871-879 | Items are in the order of updates, the latest first, one for each candidate. |
| `PaginationContents.PagesAreFull` | apps/evt-api-go/internal/evt/repo.go:719-721 | Every page but the last is full, with 25 items when no limit is given. |
| `PaginationContents.RefusedExactly` | apps/evt-api-go/internal/evt/handlers_recruiter_list.go:186-213 | A query string is refused iff it has an unknown trust mode, order or signature word. |
| `PaginationContents.LimitsExactly` | apps/evt-api-go/internal/evt/handlers_recruiter_list.go:217-235 | And iff its limit is out of range or its cursor does not decode. |

## Left out

- UTC check of timestamps: `Location() == time.UTC` is not modelled; a time is its instant.
- Loaders with a time cutoff (the deprecated `...Through` functions): they select a prefix in the same way.
- PostgreSQL itself: SQL text, plans, privileges, serialization failures other than as aborts.
- The deferred recording triggers of migration 000012: they check what every commit of the model satisfies.
- Signatures, key sets, issuer metadata and JWT claims; HMAC, SHA-256, base64 and JSON are abstract functions.
- `deepCopyJSON`: values are immutable in the model, so the copy is the identity; a payload that JSON cannot encode is not
  representable.
- Visible claim paths (`VisibleEmploymentClaimPaths`): a plain collection of paths.
- Disclosure errors: success or failure is modelled, not which message is reported first.
- E-mail, name and device columns, and access tokens: they take no part in the decisions.
- HTTP handlers other than the paging one, request binding and logging.
- Pagination.ListCandidates: a number that does not parse arrives as 0; the search filter is an arbitrary predicate on rows,
  and claim snapshots arrive as the strings found at the known paths.
- Paging over a table that changes between pages: the source promises nothing there.
- Refresh serialization failures: the model lets a waiting refresh proceed or abort, the database may abort it always.
- UUID parsing of principals: a string that is no UUID is a principal that does not exist.
