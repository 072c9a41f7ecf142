# A Dafny model of the governed listing and community-state engines

The repository is a governance platform: deterministic functions over frozen records, and a
few engines that must keep a promise over whole runs. This project models those engines and
proves the promises. `dafny verify dfyconfig.toml` checks everything.

- **Snapshot diff and selective refresh** (`Snapshot`, `Delta`, `DeltaReplay`, `ImpactRefresh`,
  `RefreshSoundness`, `RefreshChains`, `RefreshAcceptance`). A field-by-field difference of two
  community snapshots drives a plan that rebuilds only the artifacts it affects. The difference is
  an invertible patch. Which properties an artifact is computed from is a parameter: the plan is
  right about an artifact, over all snapshots, exactly when its type reads nothing of properties,
  or it reads no property but the one it is the record of and its type is listed under PROPERTY.
  If every artifact is like that, then over any chain of snapshots the incremental records are
  those of a full rebuild, and no chain of comparable snapshots gets stuck. An artifact that reads
  whatever is in its domains is not like that as soon as its type is listed under a property domain.
- **Canonical text** (`Numbers`, `Datetimes`, `CanonicalJson`, `CanonicalReader`, `SetLikePaths`,
  `SetLikeText`). Every fingerprint rests on equal text meaning equal value. Numbers have one text
  exactly when they round to one value at 28 digits, and marker-free values have one text exactly
  when they are equal up to key order, rounded number and the order of set-like lists. A set-like
  list may be permuted freely exactly when no set-like path passes through one of its indices.
- **Governed execution** (`Execution`, `IdempotencyLedger`, `Reconciliation`, `Holds`,
  `GovernedRuns`, `SampleRuns`, `HoldRuns`, `RollbackOrigins`, `Workspace`, `Incidents`). Approvals,
  authorities, idempotency keys, adapter calls, verification, reconciliation cases, rollbacks,
  incidents, holds and the read-only workspace. Runs are arbitrary interleavings of steps over
  append-only ledgers and the standing holds, with arbitrary adapter replies; a case is resolved by
  a step from outside the engine.
- **Bitemporal history** (`History`, `HistoryOrder`, `Evidence`). An append-only ledger with valid
  time and knowledge time, its views and their order, and scenario evidence drawn from it.
- **Publication** (`Cohorts`, `Publication`). Staged cohorts, compare-and-swap pointer batches and
  rollback.
- **Smaller engines** (`Patterns`, `Exceptions`, `Strategy`, `Timeline`, `Pipeline`). Least squares,
  exception accounting, seller timeline and review items, the staged build pipeline and resume.

`Basics` and `Order` hold the shared datatypes and the theory of sorting.

Conventions. A raised `ValueError` is `Err`. A SHA-256 fingerprint is a datatype that wraps
what it hashes, so equal fingerprints mean equal payloads; in `History` the fingerprint is a
function and collision-freedom is a hypothesis of the one theorem that needs it. Exact binding
therefore assumes two things: that the hash has no collisions, and that records are honest, each
carrying the fingerprint of its own contents. The code compares stored fingerprints of proposals,
approvals, authorities, actions, receipts, cases and holds without recomputing them. A timestamp
carries its text, which sort keys and equality use, and its instant, which comparisons use.
Python's `sorted` is a stable insertion sort by code point, and a dictionary built from a
sequence keeps the last value of a key. Where an identifier is required not to be blank, the
model requires that it is not empty. An adapter is any callable: an object that records its
calls and answers by an arbitrary function of its past calls and the request. Executions and
rollbacks are handed the whole ledger of earlier receipts, which is what the idempotency
promise depends on, and executions all the holds that stand: a hold stands from its creation until
recovery evidence is produced under it.

Where the code and the documentation differ, the model follows the code. The larger differences
come with an input that shows them and with the exact condition under which the two agree.

- A property change targets property records only, whatever the dependency rules say of other
  records. The frozen registry lists all six types under IDENTITY and PROPERTY, yet a community
  record of resale competition gets NO_IMPACT when a property's identity changes, as the
  repository's own test expects (`IdentityChangeMissed`). Under that registry the plan is right
  about exactly the artifacts of other types and those that read no property but their own
  (`ShippedRegistryMissesNothingIff`). Whether a record of the tests reads properties at all is not
  in the repository, so both readings are stated.
- The planner reads none of the registry's scope rules. A community or manifest change targets
  records of either scope, so the rule that it targets community records holds only for a domain no
  type depends on (`ScopeRuleKeptIff`).
- The registry has no rule for the INTELLIGENCE domain.
- Views of history are documented to be ordered by valid_from, known_at and entry_id, and are ordered
  by the text of the timestamps. That is not chronological across time zones (`TokyoShownLast`); it
  is, for every ledger, exactly when on the timestamps in use the order of texts is the order of
  instants (`ViewsInDocumentedOrderIff`).
- A supersession or an end of validity hides no entry from any view.
- The registry asks for exact lineage of the original chain, but the rollback builder takes the
  original action as given and compares only its listing and type with the authority: the adapter
  can be asked to roll back on one listing what was executed on another (`WrongActionRolledBack`).
  The call names what was executed exactly when the action passed has the fingerprint on the
  receipt passed (`RollsBackOriginalIff`).
- The registry prohibits duplicate rollbacks, but the key covers the approval, so two approvals of
  one case are two calls (`CaseRolledBackTwice`). A case is rolled back at most once exactly when
  all its calls carry one action, approval, authority and adapter (`CaseCalledOnceIff`).
- Rollback to completion leaves its reconciliation case open, and no function of the engine
  resolves a case: of the cases of a run only one marked RESOLVED from outside closes an
  unknown-outcome incident (`UnknownNeedsOutsideResolution`). A resolved case is modelled with a
  fingerprint of its own; the repository's own drill keeps the open case's fingerprint on it.
- The registry forbids closing an unknown outcome before independent reconciliation, but closing
  compares neither the incident with the hold's own nor the case with either. A hold placed for an
  unknown outcome is lifted by recovery under another incident (`UnknownHoldLiftedElsewhere`) and,
  under its own incident, by a resolved case about another receipt (`UnrelatedCaseLifts`). A hold is
  lifted only after its own receipt is reconciled exactly when the incident passed, such as its
  own, is about an unknown outcome and the case passed, if resolved, is about that one receipt
  (`LiftsOnlySettledIff`). An incident over several receipts is never reconciled by the one case a
  closure takes.
- The guard in front of executions asks for holds and rollback does not: a rollback does the same
  whatever holds stand (`RollbackIgnoresHolds`), even through an adapter that is held
  (`RollbackUnderHold`).

## Model

| member | source | states |
|---|---|---|
| Snapshot.BuiltSnapshotWellFormed | src/community_temporal_state/snapshot.py:224-367 | every snapshot the constructor returns has strictly sorted parts with one entry per identity and exactly the codes that are not blank; it can be certified exactly when nothing drifted and every given conflict is blank, and certification keeps its contents |
| Delta.ChangeLog.AddChange | src/community_temporal_state/delta.py:354-359 | appending keeps the numbering: the log is always the numbered sequence of the differences recorded so far |
| Delta.ChangeLog.AddAll | src/community_temporal_state/delta.py:361-458 | the loops record exactly the community, property and manifest differences, in the source's order |
| Delta.BuildCommunityDelta | src/community_temporal_state/delta.py:322-511 | the accumulating differ computes the declarative delta, with the same refusals and the sorted change list |
| DeltaReplay.OriginOf | src/community_temporal_state/delta.py:361-458 | every recorded difference comes from one place where the snapshots were compared |
| DeltaReplay.Emitted | src/community_temporal_state/delta.py:361-458 | every place where the snapshots are compared yields its difference |
| DeltaReplay.DiffsFaithful | src/community_temporal_state/delta.py:361-458 | each difference carries the values the two snapshots have at the slots it touches |
| DeltaReplay.DiffsComplete | src/community_temporal_state/delta.py:361-458 | each slot whose value differs is touched by some difference |
| DeltaReplay.DeltaIsInvertiblePatch | src/community_temporal_state/delta.py:322-458 | replaying a delta on the earlier state gives the later state, and replaying its swapped changes on the later state gives the earlier one |
| DeltaReplay.StateDeterminesParts | src/community_temporal_state/delta.py:361-458 | two snapshots have one state exactly when freshness, exclusions, conflicts, properties and the three manifests are equal |
| DeltaReplay.UnchangedMeansSameParts | src/community_temporal_state/delta.py:178-198 | all changes of a delta are UNCHANGED exactly when the two snapshots have the same parts |
| DeltaReplay.ClassifyBackwards | src/community_temporal_state/delta.py:178-198 | comparing in the other direction gives the dual class (known and unknown, introduced and resolved, suppressed and reactivated) |
| ImpactRefresh.DecideAll | src/community_temporal_state/impact_refresh.py:168-193 | the planner's loop decides every record from the changes that target it, and refuses when one is not certified |
| ImpactRefresh.BuildSelectiveRefreshPlan | src/community_temporal_state/impact_refresh.py:150-221 | the planner computes the declarative plan over the sorted records, with the same refusals |
| ImpactRefresh.ApplySelectiveRefresh | src/community_temporal_state/impact_refresh.py:239-318 | the applying loop computes the declarative result, refusing drift, missing or extra replacements and unbound lineage |
| RefreshSoundness.RefreshExactlyWhenViewChanged | src/community_temporal_state/impact_refresh.py:134-193 | whatever properties an artifact reads, if it is well scoped it is refreshed exactly when something it reads changed |
| RefreshSoundness.AddedPropertyMissed | src/community_temporal_state/delta.py:388-407 | an added property is missed by an artifact that reads it without being its record, or whose type reads its fields but is not listed under PROPERTY |
| RefreshSoundness.MissesNothingIff | src/community_temporal_state/impact_refresh.py:134-148 | whatever properties an artifact reads, over all snapshots the plan misses nothing it reads if and only if its type reads nothing of properties, or it reads no property but the one it is the record of and its type is listed under PROPERTY |
| RefreshSoundness.DomainReadersMissNothingIff | src/community_temporal_state/impact_refresh.py:134-148 | an artifact of either scope that reads whatever is in its type's domains is missed by no plan if and only if its type is listed under no property domain |
| RefreshSoundness.KeptIsRightIff | src/community_temporal_state/impact_refresh.py:168-193 | every payload a plan keeps is what a rebuild would give, for every rebuild of what the artifact reads, if and only if the artifact is well scoped |
| RefreshSoundness.OwnReadersMissNothingIff | src/community_temporal_state/impact_refresh.py:134-148 | artifacts that read no property but their own are all safe if and only if every type that reads a property field is listed under PROPERTY |
| RefreshSoundness.ShippedRegistryMissesNothingIff | registries/community_temporal_state/m13-003-impact-refresh-v1.0.yaml:7-89 | under the frozen registry the plan misses nothing an artifact reads if and only if its type is not listed or it reads no property but its own |
| RefreshSoundness.IdentityChangeMissed | tests/unit/community_temporal_state/test_impact_refresh.py:123-157 | a community record of resale competition gets NO_IMPACT from a change of a property's identity, although the frozen registry lists its type under IDENTITY and its domains changed |
| RefreshSoundness.ScopeRuleKeptIff | registries/community_temporal_state/m13-003-impact-refresh-v1.0.yaml:79-85 | changes in a domain target only records of the scope the scope rules name if and only if they are about a property or no type depends on the domain |
| RefreshChains.AppliedFaithfully | src/community_temporal_state/impact_refresh.py:270-292 | an accepted application kept each unaffected record exactly and replaced each affected one by a certified record bound to this snapshot, delta and decision |
| RefreshChains.RefreshOnceIsFullRebuild | src/community_temporal_state/impact_refresh.py:134-318 | if every artifact is well scoped for the properties it reads, one accepted diff, plan and apply leaves every payload as a full rebuild from the later snapshot gives it, and the same artifacts |
| RefreshChains.IncrementalEqualsFullRebuild | src/community_temporal_state/impact_refresh.py:134-318 | under the same condition, over any accepted chain of snapshots the records have the payloads of a full rebuild from the latest snapshot and the artifact set never changes |
| RefreshAcceptance.ApplyAcceptedIff | src/community_temporal_state/impact_refresh.py:239-292 | applying is accepted exactly when the plan replays, ids are distinct, the replacements are those the plan asks for, every decision finds its record unchanged and a bound certified replacement if it needs one, and every current record was decided |
| RefreshAcceptance.FedPlanAccepted | src/community_temporal_state/impact_refresh.py:239-292 | delivering a bound certified rebuild for exactly the artifacts a plan refreshes is accepted |
| RefreshAcceptance.FedChainAccepted | src/community_temporal_state/impact_refresh.py:150-318 | no chain of comparable snapshots gets stuck: rebuilding what each plan asks for is accepted at every step, and if every artifact is well scoped leaves the records of a full rebuild |
| Numbers.RoundsHalfEven | src/shared/normalization.py:33 | normalizing rounds to a nearest multiple, and to the even one of two |
| Numbers.NormalizedExact | src/shared/normalization.py:33 | normalization keeps a decimal exactly when its stripped coefficient has at most 28 digits |
| Numbers.RoundedSameIffExact | src/shared/normalization.py:18-37 | rounding keeps a number's value exactly when it is an integer or has at most 28 significant digits |
| Numbers.TextOfStripped | src/shared/normalization.py:34-37 | positional text of a coefficient without trailing zeros loses nothing to the final stripping and reads back as the same number |
| Numbers.ReadBack | src/shared/normalization.py:18-37 | reading the text of any number gives its rounded value |
| Numbers.ReadBackIffExact | src/shared/normalization.py:18-37 | reading the text back gives the same value exactly when 28 significant digits suffice |
| Numbers.SameTextIffSameRounded | src/shared/normalization.py:18-37 | two numbers have one text exactly when they round to the same value |
| Numbers.NormalForm | src/shared/normalization.py:18-37 | on integers of any size and decimals of at most 28 significant digits, equal text is equal value |
| Numbers.TextIsRereadable | src/shared/normalization.py:18-37 | the text of the number that was read back is the same text |
| Numbers.RoundingCollides | src/shared/normalization.py:33 | a decimal of 29 significant digits takes the text of a different number, so the digit bound is needed |
| Datetimes.PaddedFacts | src/shared/normalization.py:10 | the six-digit fraction reads back as the microseconds |
| Datetimes.FractionDetermines | src/shared/normalization.py:12-15 | stripping zeros keeps a nonzero fraction nonempty and loses nothing |
| Datetimes.DatetimeNormalForm | src/shared/normalization.py:6-16 | two datetimes have one text exactly when they have the same UTC second and microseconds |
| CanonicalJson.UntouchedEverywhere | src/shared/canonical_json.py:10-25 | below a path that no set-like path reaches, canonical structure does not depend on the path |
| CanonicalJson.SortedTextsAgree | src/shared/canonical_json.py:23-25 | sorting elements by their text leaves one sequence of texts whatever order they came in |
| CanonicalJson.MembersAgree | src/shared/canonical_json.py:19-33 | dicts whose members match by key and text have one text, whatever the order of insertion |
| CanonicalJson.TextIgnoresOrder | src/shared/canonical_json.py:10-40 | at every depth the text ignores dict order, and the order of a set-like list through whose indices no set-like path passes |
| CanonicalReader.EscapeReads | src/shared/canonical_json.py:33-36 | every escaped character reads back as that character |
| CanonicalReader.EncodingReads | src/shared/canonical_json.py:28-36 | the reader inverts the encoder on every structure whose lone marker dicts are numbers, whatever follows the text |
| CanonicalReader.CanonicalIsClean | src/shared/canonical_json.py:10-26 | the structure of a marker-free value has sorted dicts and marker dicts only for numbers |
| CanonicalReader.DecodedCanonical | src/shared/canonical_json.py:42-45 | canonicalizing what was decoded gives the structure again |
| CanonicalReader.EncodeInjective | src/shared/canonical_json.py:28-36 | two such structures with one text are one structure |
| CanonicalReader.CanonicalizeKeepsText | src/shared/canonical_json.py:38-45 | encoding the canonicalized value gives the text of the value again |
| CanonicalReader.SameTextIffSame | src/shared/canonical_json.py:10-40 | without set-like paths, marker-free values have one text exactly when they are equal up to key order and rounded number |
| SetLikeText.SameTextIffSameSets | src/shared/canonical_json.py:10-40 | with set-like paths none of which passes through an index of a set-like list, marker-free values have one text exactly when they are equal up to key order, rounded number and the order of set-like lists |
| SetLikeText.DecodableUpToOrder | src/shared/canonical_json.py:10-40 | with at most 28 significant digits everywhere, equal text is then equal value up to those orders |
| CanonicalReader.UniquelyDecodable | src/shared/canonical_json.py:10-40 | with at most 28 significant digits everywhere, equal text is equal value up to key order |
| CanonicalReader.MarkerDictCollides | src/shared/canonical_json.py:30-32 | for every text there is a dict with only the marker key that has it too, so being marker-free is needed |
| SetLikePaths.NestSeesPath | src/shared/canonical_json.py:20-25 | a nested list tells apart two places of which one is set-like |
| SetLikePaths.IgnoresListOrderIff | src/shared/canonical_json.py:20-25 | the text of a set-like list ignores its order for all lists if and only if no set-like path passes through one of its indices |
| Execution.MakeAuthority | src/listing_execution/authorized_execution.py:174-216 | an authority that is made has a nonempty scope and a nonempty validity interval |
| Execution.AuthorizeAction | src/listing_execution/authorized_execution.py:219-296 | an action is authorized only under an approval of that exact pristine proposal (proposed, and not approved, authorized, executable, public or externally capable) and a valid authority that covers its listing, type and time |
| Execution.RetriesShareKey | src/listing_execution/authorized_execution.py:299-327 | requests share a key exactly when proposal, approval, authority, action type, listing and adapter agree, whatever the request id and time |
| Execution.AuthorizedActionExecutes | src/listing_execution/authorized_execution.py:257-434 | an action authorized and requested by the builders carries its own key and is refused at execution exactly for a missing receipt id or an authority not valid at that time |
| Execution.Adapter.Call | src/listing_execution/authorized_execution.py:124 | a call is recorded and answered by the adapter's behaviour |
| Execution.ExecuteAuthorizedAction | src/listing_execution/authorized_execution.py:404-483 | refusals and suppressions leave the adapter uncalled; otherwise it is called once with this request and the receipt records its reply |
| Holds.ExecuteWithIncidentGuard | src/listing_execution/incident_containment.py:273-294 | a matching active hold raises before anything happens; otherwise execution is as above |
| Execution.SuccessIsEvidenced | src/listing_execution/authorized_execution.py:453-483 | a receipt says SUCCEEDED exactly when the adapter answered this very request with success and an id, and an unknown outcome carries no id |
| Holds.CallMeans | src/listing_execution/incident_containment.py:261-294 | a call implies authority at that time, no matching hold and no earlier receipt of the key |
| IdempotencyLedger.NarrowTestIsWide | src/listing_execution/verification_reconciliation.py:478-483 | on a disciplined ledger looking for OUTCOME_UNKNOWN alone finds what looking for blocks as well finds |
| IdempotencyLedger.LaterIsSuppressed | src/listing_execution/authorized_execution.py:436-451 | of two receipts of a key the later is suppressed, and blocked exactly when the attempted one was unknown |
| Reconciliation.VerifyExecution | src/listing_execution/verification_reconciliation.py:228-282 | verification decides by the table of receipt outcome, observation and expectation, once per receipt |
| Reconciliation.RollbackRequestExecutes | src/listing_execution/verification_reconciliation.py:369-476 | a built rollback request names the receipt, verification, case and approval of the case, and the action it was given; it is refused at execution exactly when the authority is not valid then |
| Reconciliation.ExecuteRollback | src/listing_execution/verification_reconciliation.py:452-508 | refusals and suppressions leave the adapter uncalled; otherwise it is called once and the receipt records its reply |
| Reconciliation.RecordRollbackReply | src/listing_execution/verification_reconciliation.py:490-508 | an exception, a misbound response or a success without id becomes an unknown outcome |
| Reconciliation.RollbackAdapter.Call | src/listing_execution/verification_reconciliation.py:158 | a rollback call is recorded and answered by the adapter's behaviour |
| GovernedRuns.ExecuteKeeps | src/listing_execution/authorized_execution.py:404-483 | an execution step keeps the receipt discipline, one call per recorded key, and only authorized calls |
| GovernedRuns.VerifyKeeps | src/listing_execution/verification_reconciliation.py:228-282 | a verification step keeps one verification per receipt and mismatches only on observed receipts |
| GovernedRuns.RollbackChecked | src/listing_execution/verification_reconciliation.py:369-429 | a rollback receipt is written only with the receipt, mismatch, eligible case and approval on the ledgers, and an authority for the listing and type of the action that was passed |
| GovernedRuns.RollbackKeeps | src/listing_execution/verification_reconciliation.py:452-508 | a rollback step keeps the rollback receipt discipline, one call per key and the evidence of every call |
| GovernedRuns.RunIsSafe | src/listing_execution/authorized_execution.py:404-483 | every run of executions, verifications, cases opened and resolved, rollbacks and holds placed and lifted, in any order, keeps all of the above |
| GovernedRuns.RunExtends | src/listing_execution/authorized_execution.py:404-483 | continuing a run only appends to its ledgers |
| GovernedRuns.AtMostOneCall | src/listing_execution/authorized_execution.py:309-316 | in every run a key sees exactly one adapter call if it has a receipt, and none otherwise |
| GovernedRuns.FirstReceiptDecides | src/listing_execution/authorized_execution.py:436-451 | the first receipt of a key records its call; every later one is suppressed, and blocked exactly when the first outcome is unknown |
| GovernedRuns.UnknownStaysBlocked | src/listing_execution/authorized_execution.py:436-445 | an unknown outcome stays blocked in every continuation |
| GovernedRuns.CallsAreAuthorized | src/listing_execution/incident_containment.py:261-294 | every adapter call of a run was authorized at its time and no hold that stood then matched it |
| HoldRuns.NoCallUnderHold | src/listing_execution/incident_containment.py:261-294 | as long as a hold stands, no execution it matches calls an adapter, whatever else the run does |
| HoldRuns.RollbackIgnoresHolds | src/listing_execution/verification_reconciliation.py:452-508 | in every run a rollback step decides, calls and records the same whatever holds stand |
| HoldRuns.RollbackUnderHold | src/listing_execution/verification_reconciliation.py:452-508 | a run in which a rollback calls the adapter that a standing hold is on |
| HoldRuns.ResolvedByStep | src/listing_execution/final_certification.py:348-352 | every resolved case of a run was opened in it and marked by a step from outside |
| HoldRuns.UnknownNeedsOutsideResolution | src/listing_execution/incident_containment.py:242-244 | of the cases of any run, open or resolved, only one that was marked RESOLVED from outside closes an unknown-outcome incident |
| HoldRuns.LiftedIff | src/listing_execution/incident_containment.py:227-258 | with any incident and any case, a standing hold is lifted exactly by a human release of it under fresh validation, and for an unknown-outcome incident with a RESOLVED case and the reconciled flag |
| HoldRuns.LiftsOnlySettledIff | src/listing_execution/incident_containment.py:236-245 | over all runs, releases and validations, passing an incident and a case lifts a hold only after its own receipt is reconciled if and only if the incident is about an unknown outcome and the case, if resolved, is about the hold's one receipt |
| HoldRuns.HoldStandsUntilSettled | src/listing_execution/incident_containment.py:227-294 | if every lift passes such an incident and such a case from the ledger, a hold stands in every continuation until a case about its own receipt is resolved from outside, and until then nothing it matches is executed |
| HoldRuns.UnknownHoldLiftedElsewhere | src/listing_execution/incident_containment.py:236-245 | recovery under a degraded-adapter incident lifts a hold placed for an unknown outcome, with no case at all |
| HoldRuns.UnrelatedCaseLifts | src/listing_execution/incident_containment.py:236-245 | a run in which a resolved case about another receipt lifts a hold under its own incident, although no case about its own receipt was ever opened |
| GovernedRuns.NarrowRollbackTestSuffices | src/listing_execution/verification_reconciliation.py:478-483 | on every reachable rollback ledger the narrower unknown test decides as the executor's wider test |
| GovernedRuns.AtMostOneRollback | src/listing_execution/verification_reconciliation.py:404-413 | in every run a rollback key sees exactly one adapter call if it has a receipt, and none otherwise |
| GovernedRuns.RollbackIsPreceded | src/listing_execution/verification_reconciliation.py:369-508 | a step that calls the rollback adapter found on record an attempted execution, a mismatch of that receipt, an eligible case on it and an approval of that case |
| RollbackOrigins.NamesOriginalIff | src/listing_execution/verification_reconciliation.py:404-429 | in every run a rollback call names the action, proposal, listing and type of the receipt it rolls back if and only if its action is the one on the receipt |
| RollbackOrigins.RollsBackOriginalIff | src/listing_execution/verification_reconciliation.py:369-429 | before the call: it names what was executed if and only if the action passed has the fingerprint on the receipt passed |
| RollbackOrigins.RollsBackExecutedProposal | src/listing_execution/verification_reconciliation.py:395-425 | when it does and the action came from the authorization builder, the call and its authority are about the listing and action type of the executed proposal |
| RollbackOrigins.WrongActionRolledBack | src/listing_execution/verification_reconciliation.py:381-429 | a run in which an unrelated authorized action on another listing is accepted and the adapter is asked to roll back there |
| RollbackOrigins.OneCallPerGrant | src/listing_execution/verification_reconciliation.py:404-413 | of the calls on one case no two carry the same action, approval, authority and adapter |
| RollbackOrigins.CaseCalledOnceIff | registries/listing_execution/m12-003-verification-reconciliation-v1.0.yaml:41 | in every run a case is rolled back at most once if and only if all its calls carry one action, approval, authority and adapter |
| RollbackOrigins.CallsAgainIff | src/listing_execution/verification_reconciliation.py:478-489 | before the step: a rollback that is not refused calls the adapter if and only if no earlier call on its case carries the same action, approval, authority and adapter |
| RollbackOrigins.CaseRolledBackTwice | src/listing_execution/verification_reconciliation.py:404-413 | a run in which two approvals of one case lead to two adapter calls |
| GovernedRuns.VerifiedOnce | src/listing_execution/verification_reconciliation.py:241-242 | no receipt is verified twice |
| Workspace.CollectBlocking | src/listing_execution/execution_workspace.py:201-241 | each blocking reason is reported exactly when its condition holds |
| Workspace.DetermineState | src/listing_execution/execution_workspace.py:243-261 | the state follows the table over how far the chain has come |
| Workspace.BuildWorkspaceItem | src/listing_execution/execution_workspace.py:180-320 | lineage refusals first, then blocking reasons and state; rollback is never reported as authorized |
| Workspace.CompleteMeansKnown | src/listing_execution/execution_workspace.py:224-261 | on the chains of every run COMPLETE means a successful rollback, or a success independently verified with no case, and no outcome of the chain is unknown |
| Workspace.RolledBackStillOpen | src/listing_execution/execution_workspace.py:240-244 | completion by rollback still reports its open reconciliation case |
| Workspace.BuildExecutionWorkspace | src/listing_execution/execution_workspace.py:323-368 | items sorted, duplicates refused, and each state's count is the number of items in it |
| Workspace.CountsAddUp | src/listing_execution/execution_workspace.py:341-344 | the six state counts add up to the number of items |
| Incidents.DetectIncidents | src/listing_execution/incident_containment.py:99-156 | the incidents are exactly those of the conditions items show, and one for the portfolio when two or more outcomes are unknown, sorted |
| Incidents.Conditions | src/listing_execution/incident_containment.py:110-121 | an item's conditions are listed exactly when it shows them |
| Incidents.HoldsContain | src/listing_execution/incident_containment.py:159-181 | any hold that an item's incident allows refuses every execution of the item's proposal through its adapter |
| Incidents.UnknownIsContainable | src/listing_execution/incident_containment.py:115-124 | an unknown outcome anywhere in a chain surfaces as an incident about the chain's one execution receipt, under which the action can be held |
| History.AppendAccepted | src/community_temporal_state/history.py:212-230 | an append is accepted exactly when ids are new and distinct, communities match and links point into the ledger |
| History.AppendsCommute | src/community_temporal_state/history.py:186-230 | batches a ledger accepts each on its own, with different ids, are accepted in either order and give one ledger |
| History.SameEntriesSameLedger | src/community_temporal_state/history.py:186-209 | a ledger is determined by the set of its entries |
| History.CorrectionLinksTarget | src/community_temporal_state/history.py:380-415 | an accepted correction adds exactly one entry about the target's fact, linked to the one entry with the target fingerprint, which stays |
| History.RunIsOk | src/community_temporal_state/history.py:212-230 | every run of appends and corrections leaves a sorted replayable ledger that holds exactly the old and the arrived entries |
| History.OnlyAdds | src/community_temporal_state/history.py:212-230 | no entry ever leaves the ledger |
| History.OrderDoesNotMatter | src/community_temporal_state/history.py:186-230 | runs that add the same entries in whatever order and batches end in one ledger |
| History.LinksStayInside | src/community_temporal_state/history.py:221-225 | from an empty ledger every back-link of every run points into the ledger |
| History.PathGoesBack | src/community_temporal_state/history.py:224-225 | along any path of links the arrival index strictly decreases |
| History.FollowingLinksEnds | src/community_temporal_state/history.py:221-225 | from an empty ledger every path of links is finite and no longer than the arrivals, given collision-free fingerprints |
| History.ViewLists | src/community_temporal_state/history.py:418-473 | a view lists exactly the entries of its scope that its mode and cutoffs admit, in sort-key order |
| HistoryOrder.TokyoShownLast | src/community_temporal_state/history.py:182-183 | a ledger whose view lists the earlier of two facts last, because its timestamp is written in another time zone |
| HistoryOrder.ViewsByValidTimeIff | src/community_temporal_state/history.py:454 | for any set of timestamps, every view of every ledger with valid_from among them is in order of valid time if and only if no text that sorts first is the later one |
| HistoryOrder.ViewsInDocumentedOrderIff | registries/community_temporal_state/m13-004-temporal-history-v1.0.yaml:38-41 | every view over these timestamps is in order of valid_from, known_at and entry_id if and only if on them the order of texts is the order of instants |
| History.KnownThenReproducible | src/community_temporal_state/history.py:448-454 | whatever is appended or corrected with a later knowledge time leaves the KNOWN_THEN view identical |
| History.ViewsGrow | src/community_temporal_state/history.py:441-454 | views grow with both cutoffs and with the ledger, whatever is corrected later |
| Evidence.BuildQuery | src/community_temporal_state/scenario_evidence.py:101-144 | an accepted query has ordered valid-time bounds and a cutoff not before them |
| Evidence.EntryDecision | src/community_temporal_state/scenario_evidence.py:147-182 | an entry is excluded for exactly the reasons that hold of it, and included when none does |
| Evidence.RetrieveScenarioEvidence | src/community_temporal_state/scenario_evidence.py:207-274 | the loop over the ledger splits the records into the sorted included and excluded ones |
| Evidence.EveryEntryAccounted | src/community_temporal_state/scenario_evidence.py:228-236 | each ledger entry appears exactly once, included or excluded |
| Evidence.AdmittedKnown | src/community_temporal_state/scenario_evidence.py:160-181 | admission means that no reason excludes, so the entry is valid in the window and known by the cutoff |
| Evidence.EvidenceReproducible | src/community_temporal_state/scenario_evidence.py:228-238 | what becomes known after the cutoff leaves the included evidence and its sources identical |
| Evidence.EvidenceWasKnown | src/community_temporal_state/scenario_evidence.py:147-182 | an entry is included exactly when the KNOWN_THEN view of its own scope shows it, it is not before the window and nothing else excludes it |
| Cohorts.NextCohort | src/activation/controlled_publication.py:115-135 | a stage given the earlier cohorts freezes exactly the next slice of the sorted fleet, or is refused |
| Cohorts.StagesAreSlices | src/activation/controlled_publication.py:115-135 | any staged plan cuts the sorted fleet into consecutive slices and succeeds exactly when every stage finds enough properties |
| Cohorts.SlicesJoin | src/activation/controlled_publication.py:127-128 | when the last stage takes all that remain the cohorts joined are the whole fleet |
| Cohorts.StagesCutTheFleet | registries/activation/m9-010-controlled-publication-v1.0.yaml:11-29 | the shipped four stages succeed exactly for fleets of more than 625 properties, with sizes 25, 100, 500 and the rest, joined to the fleet without repetition |
| Publication.BuildPublicationBatch | src/activation/controlled_publication.py:152-204 | the loop builds one mutation per property and tier against the current pointers, or refuses |
| Publication.BuiltBatchApplies | src/activation/controlled_publication.py:152-225 | a batch built from a frozen cohort touches each place once and applies to the pointers it was built from |
| Publication.ApplyPointerBatch | src/activation/controlled_publication.py:207-225 | the in-place loop computes the compare-and-swap fold and lists it sorted |
| Publication.RollbackPointerBatch | src/activation/controlled_publication.py:228-245 | the in-place loop computes the rollback fold and lists it sorted |
| Publication.ApplyFacts | src/activation/controlled_publication.py:213-224 | a batch is accepted exactly when every expectation holds, and overwrites its places and nothing else |
| Publication.RollbackFacts | src/activation/controlled_publication.py:236-244 | a rollback is accepted exactly when every place still holds what the batch wrote, and puts those places back and nothing else |
| Publication.RollbackRestores | src/activation/controlled_publication.py:207-245 | apply then rollback restores the pointers exactly |
| Publication.BatchesCommute | src/activation/controlled_publication.py:207-225 | accepted batches over different places are accepted in either order with one result |
| Publication.RollbackIsolates | src/activation/controlled_publication.py:228-245 | rolling back after another batch over other places ran leaves the state in which only that batch ran |
| Publication.SecondBatchRefused | src/activation/controlled_publication.py:213-218 | of two batches built on the same pointers the second is accepted exactly when the first changed nothing where they meet |
| Publication.VerifyPublicationRollback | src/activation/refresh_replay.py:124-133 | the drill composes apply, rollback and comparison with the sorted start |
| Publication.DrillSucceedsIff | src/activation/refresh_replay.py:124-133 | for an accepted batch the drill succeeds if and only if the starting pointers have one pointer per place |
| Patterns.ByMoments | src/community_temporal_state/patterns.py:175-178 | the sums of the estimate and the squared error of any line are polynomials in the power sums |
| Patterns.ErrorGap | src/community_temporal_state/patterns.py:175-179 | how much worse any line is than the fitted one, as a sum of two squares |
| Patterns.LeastSquares | src/community_temporal_state/patterns.py:175-179 | the fitted line has the least squared error of all lines, and is the only such line when exposure varies |
| Patterns.RecoversLine | src/community_temporal_state/patterns.py:175-179 | exactly linear data with varying exposure gives back its slope and intercept |
| Patterns.OrderDoesNotMatter | src/community_temporal_state/patterns.py:169-179 | the fit does not depend on the order of the observations |
| Patterns.NegationNegates | src/community_temporal_state/patterns.py:175-179 | negating all outcomes negates the slope |
| Patterns.EstimateIgnoresOrder | src/community_temporal_state/patterns.py:163-193 | the estimate, or its refusal, ignores the order of the population's ids and of the observations |
| Patterns.NegatedEstimate | src/community_temporal_state/patterns.py:163-193 | negating all outcomes keeps counts and magnitude and the same refusals, swaps positive and negative and keeps a null effect, except for a zero slope under a threshold that is not positive, which is NEGATIVE both ways |
| Exceptions.EvaluateException | src/activation/exception_quarantine.py:73-149 | publication is allowed exactly when the class allows it and the record is not under repair; a waiver never helps |
| Exceptions.AuditExceptionLedger | src/activation/exception_quarantine.py:152-189 | the audit succeeds exactly for distinct acceptable records that include the known exception, and counts them |
| Exceptions.CountsPartition | src/activation/exception_quarantine.py:180-186 | every audited record is counted once as defect or non-defect |
| Exceptions.ValidateExceptionAccounting | src/activation/exception_quarantine.py:192-200 | accounting passes exactly when every earlier exception is present or superseded |
| Exceptions.NeverLost | src/activation/exception_quarantine.py:192-200 | along any accounted history every exception ever recorded is in the last ledger or reaches a member of it by a finite chain of supersessions |
| Exceptions.ValidateRepairReplay | src/activation/exception_quarantine.py:203-227 | changed and unchanged dependencies partition the keys |
| Exceptions.ReplayAcceptedIff | src/activation/exception_quarantine.py:203-227 | a repair replay is accepted if and only if something changed and nothing outside the allowed dependencies did |
| Strategy.BuildDimension | src/seller_intelligence/strategy.py:94-153 | only a current dimension has a state, that of its one eligible finding; missing means no finding at all |
| Strategy.EverySorted | src/seller_intelligence/strategy.py:106-115 | every finding is counted as eligible or as suppressed |
| Timeline.ReviewExactlyWhen | src/seller_intelligence/timeline.py:124-142 | a transition raises a review exactly when the cells differ, except that the state of a cell that stays missing or suppressed is not looked at |
| Timeline.BuiltSurface | src/seller_intelligence/timeline.py:109-121 | the surface of a strategy with built dimensions has states only in current cells |
| Timeline.BuildSellerDecisionTimeline | src/seller_intelligence/timeline.py:236-361 | the loops build the declarative timeline or refuse, on the same inputs |
| Timeline.BuildEntries | src/seller_intelligence/timeline.py:264-337 | the loop that carries the prior snapshot builds each entry from its predecessor |
| Timeline.OrderDoesNotMatter | src/seller_intelligence/timeline.py:247-262 | the timeline is the same for every order of the input snapshots, including whether it is refused |
| Timeline.TimelineListsSnapshots | src/seller_intelligence/timeline.py:259-341 | a timeline lists every snapshot once in order of time, each entry names its predecessor, and all but the last are superseded |
| Timeline.EventExactlyWhenChanged | src/seller_intelligence/timeline.py:284-312 | an entry carries a review event exactly when its strategy surface differs from its predecessor's |
| Timeline.ReviewItems | src/seller_intelligence/workspace.py:152-204 | the loops fold each review's decisions in time order and close the reviews of superseded snapshots |
| Timeline.LastDecisionDecides | src/seller_intelligence/workspace.py:174-182 | the latest acknowledgement, resolution or deferral alone decides the folded status |
| Timeline.AtMostOneOpen | src/seller_intelligence/workspace.py:163-204 | at most one review item is open and it belongs to the current snapshot |
| Pipeline.ExecuteProgressivePipeline | src/evolution/progressive_build_pipeline.py:70-173 | the loop computes the declarative outcome or refuses |
| Pipeline.OutcomeEnds | src/evolution/progressive_build_pipeline.py:92-152 | from any point at which the earlier stages passed, how the rest of the run ends |
| Pipeline.PipelineEnds | src/evolution/progressive_build_pipeline.py:92-173 | with valid inputs the run passes exactly when every check is true and every requirement names an earlier stage; otherwise its results are a prefix in which only the last may fail, and it reports where it stopped |
| Pipeline.ValidateResume | src/evolution/community_factory.py:140-164 | resume is accepted exactly at the first stage without a pass, and nowhere when all passed |
| Pipeline.ResumesWhereStopped | src/evolution/community_factory.py:140-164 | fed the statuses of a run, the resume check accepts exactly the stage where the run stopped |

## Left out

- Change causes and their overrides, effective dates, materiality, explanations and evidence lists of a change: lookups and text beside the patch that is proved.
- The order of impact edges and of source change fingerprints, which follows hash text.
- Record hashes and lineage fingerprint lists of snapshots, receipts and cases where nothing tests them.
- SHA-256 and JSON serialization of fingerprints: fingerprints wrap what they hash.
- Parsing and rejecting timestamp text, and stripping blanks from identifiers: timestamps arrive parsed, identifiers are tested for emptiness.
- Floats, dates and datetimes as values of the canonical encoder, non-string dict keys, non-finite numbers and the exponent limits of the default decimal context.
- CanonicalJson.Encode: when a dict with only the marker key holds something other than a string, the code raises or returns a non-text; the model gives no text.
- CanonicalReader.ReadJson: a reader for the texts the encoder emits, without white space, exponents or escapes beyond those emitted.
- Numbers.ReadNumber: reads digits with an optional point, as the canonical texts have them, without exponents.
- Patterns.EstimatePattern: works over real numbers and leaves the slope unrounded, because the rounding to 12 places is not the point.
- Pattern populations, and discovery, validation and replication reasons, which are threshold tables.
- Datetimes.NormalizeDatetime: takes the UTC calendar text of the second as given; calendars and time zone conversion are left out.
- Evidence lists and lineage of incidents and holds, beyond the execution receipts an incident's evidence leads to, and the portfolio incident's placeholder listing and proposal.
- Building the property projections of a snapshot: they arrive with their codes sorted and without blanks.
- Execution of two steps at the same time: no lock is visible in the code, so each step is atomic.
- Reading registries, files and evidence from disk; registry contents are parameters or stated constants.
- Entries derived from snapshots, deltas and refreshes for the history ledger, and its summary counts.
- Unknowns, limitations and evidence fingerprints attached to scenario evidence, and the replay check that recomputes it.
- Publication policy and repository binding checks, replay audits and failure isolation counts.
- The scan for protected tokens in serialized stage input, which is a parameter of the pipeline, and the candidate fingerprint.
- Assembly of strategies from opportunities, review-trigger reasons, seller communication, scenario position and presentation builders.
- Milestone certification and audit modules, which are long equality tests; SQL repositories, workers and the dispatcher are not part of this model.
