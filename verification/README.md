# Covenant: a verified model

A Dafny model of the parts of AO Covenant that decide what a run may do, what a run leaves behind and who
accepts it: contract validation, policy evaluation, the scheduler with its hash-chained ledger, the closure
matrix, the independent evidence verifier, the canonical JSON under every authority digest, the schema-graph
analyses, evidence bundles, release directories and the governance of autonomous repair.

Everything outside these parts is a parameter: SHA-256, Ed25519 and JSON encoding are functions about which
nothing is assumed beyond what a theorem names; the adapter, the clock and the wording of messages are oracles
that may answer differently at every call; files are maps from paths to contents; timestamps are what an RFC 3339
parser (section 5.6 of RFC 3339) makes of a text. The source's loops and objects are methods and classes proved
against specification functions, and the theorems are about those functions.

| modules | what they model |
|---|---|
| Text, Paths, PathWalk | strings, path cleaning and the five path validators, and what they mean as walks through directories |
| Contracts, Cycles, Validation, ValidContract, Lint, Authoring | contracts, briefs, fail-fast validation and collect-all linting |
| ContractFaults, AuthoringFaults, Listings, ContractListing, BriefListing | what each reported problem says of the contract or brief, and that the problems are exactly the faults in the order of their places |
| Policy, PolicyRulings | policy evaluation, with the reason and the ticket of every ruling |
| Ledger, EventSchema, LineFaults, Run, Executor, Scheduler, LedgerGrammar, RunLines | the event recorder, the schema of a ledger line, a task's turn, the passes of Execute, the shape and the lines of every ledger |
| ScheduleOrder, RunRecords, RunTells | the order in which a run takes its tasks, and that ledger and evidence hold the adapter's answers, the rulings and the failure |
| Closure, ClosureRows, Evidence | the closure matrix, what its rows list and why they are open or closed, and the evidence pack |
| Verifier, Provenance, RunVerify, RunOutcome, RunTickets, DefaultAdapter | the evidence verifier, what its acceptance means, and which runs it accepts |
| JsonValue, CanonicalJson, JsonInjective, JsonReader, JsonStrict | canonical JSON, its injectivity, a reader from RFC 8259 that gives the value back, and that no other text is strict |
| JsonPointer, SchemaWalk, SchemaVersion, SchemaDerivation | JSON Pointers, the schema walk, the schema_version analyses and the derivations that their answers stand for |
| SchemaEval, SchemaSound, SchemaExact, SchemaFailures | JSON Schema validity as a reference, what the analyses promise under it, when they are right, where they are not |
| Checksums, Bundle, BundleVerify, BundleContents, BundleNames, BundleRoundTrip, BundleExport | evidence bundles |
| Governance, RepairAuthority, RepairTheorems, RepairFaults, RepairOrder | governance of autonomous repair |
| Release, ReleasePlan, ReleasePackage, ReleaseRecords, ReleaseVerify, ReleaseFaults, ReleaseRoundTrip, ReleaseExact | release packaging and verification |

## Where the code does less than one might expect

Each of these is stated as a lemma, with the exact condition under which the property holds and, where it fails, an
input that shows it.

- A zero evaluation time means the wall clock, so a later nonzero instant can loosen a verdict
  (`Policy.AntitoneExactly`).
- The greedy matching of decisions with ledger events misses no assignment on any ledger that the event schema lets
  through (`Provenance.LedgerMatchingExact`). Only on chained event lists that bypass the schema can it reject one
  that has an event for every decision: exactly when decisions share an ID and differ in task, status or reason
  (`Provenance.GreedyMisses`, `Provenance.GreedyCompleteExactly`).
- A run in which every task succeeds ends without evidence exactly when a required obligation is claimed by no
  task; validation does not ask for that (`RunOutcome.UnclaimedLosesEvidence`, `RunOutcome.MissingEvidenceExactly`).
- An event's ID has at least six digits and the schema wants exactly six: a run whose lines all pass has at most
  999999 events (`EventSchema.EventIDShapeExactly`, `RunLines.RunLinesExactly`).
- The pointer resolver takes "/" for the whole document, forgives a missing first slash and reads a tilde that escapes
  nothing as itself (`JsonPointer.StrayTildeResolves`, `JsonPointer.ConformsExactly`); and it does not enter arrays
  (`SchemaWalk.ReportedPathResolves`).
- The schema_version analyses follow every local reference as a pointer from the document's root, so a reference to an
  anchor, one with a percent-encoded fragment, or one below a nested identifier leads them to a node that the standard
  never asks (`SchemaFailures.AnchorUnsound`, `SchemaFailures.EncodedUnsound`, `SchemaFailures.EmbeddedUnsound`); and a
  const behind one alternative of an anyOf or oneOf counts as required (`SchemaFailures.RuleTwoUnsound`). They can also
  miss what a schema binds, and report another version, because only the first const found is compared
  (`SchemaFailures.VersionMissed`). Wherever the reference evaluator has an answer and properties ask for scalars,
  finitely many instances and the derivations of `SchemaDerivation` decide when each analysis is right and when it says
  no too often (`SchemaExact.RightExactly`, `SchemaExact.MissedExactly`).
- A snapshot recorded as its folder itself is bundled one level deeper than where verification looks, and one recorded
  with a backslash is bundled from another file than the one that was verified
  (`BundleExport.FolderItselfIsRejected`, `BundleExport.BackslashIsRejected`, `BundleExport.ExportedExactly`).
- A release file with a space in its name, or with the name of the manifest that overwrites it, is packaged and never
  verifies (`ReleaseExact.SpacedNameIsReported`, `ReleaseExact.ReservedNameIsReported`, `ReleaseExact.PackagedExactly`).
- Validation takes an expiry of blanks for none and the evaluator for an invalid one
  (`RunOutcome.BadExpirationExactly`); the schema's date-time format keeps such tickets from Execute.
- The wall-clock budget in nanoseconds wraps around in 64 bits; wrapping can only shorten a window
  (`RepairTheorems.LifetimeBounded`).

## Model

| member | source | states |
|---|---|---|
| `Cycles.HasCycle` | internal/contract/validate.go:243-274 | yes exactly when some chain of dependencies returns to its start; otherwise there is a rank under which every dependency is strictly lower |
| `Cycles.CycleSearch.Visit` | internal/contract/validate.go:251-267 | a find is a real closed walk; otherwise the node is finished, the stack is as before, and finished nodes list their dependencies first; the search ends because the set of nodes neither visiting nor visited shrinks |
| `Cycles.OrderGivesRank` | internal/contract/validate.go:255-266 | a finishing order with dependencies first yields a rank |
| `Cycles.RankExcludesClosedWalk` | internal/contract/validate.go:243-274 | a ranked graph has no closed walk |
| `Validation.Validate` | internal/contract/validate.go:30-131 | the error is the first problem in the order of the checks, or some missed required obligation from the map-ordered last check; success yields a dependency rank |
| `Validation.ValidateTasks` | internal/contract/validate.go:67-104 | first problem of the task loop, and the map of accepted tasks |
| `Validation.ValidateApprovals` | internal/contract/validate.go:133-174 | first problem of the approval tickets, against the effects that tasks declare |
| `ValidContract.NoProblemExactly` | internal/contract/validate.go:30-174 | no problem exactly for a contract valid by a definition without order: good distinct IDs, known references, acyclic dependencies, tickets for declared effects, required obligations evaluated |
| `ValidContract.PublicIDExactly` | internal/contract/validate.go:181-213 | an ID passes exactly when it is nonempty, made of the allowed characters and not a reserved name |
| `ValidContract.TaskListEmpty` | internal/contract/validate.go:67-104 | the task loop is silent exactly for valid, distinct tasks, and then its map holds each task under its ID |
| `ValidContract.TicketListEmpty` | internal/contract/validate.go:133-179 | a ticket passes exactly when it is well formed, new and names an effect that some task declares up to path spelling |
| `ContractFaults.IDFaultExactly` | internal/contract/validate.go:181-213 | an ID is reported as empty, with the first character that is not allowed, or as a reserved name, and in no other way |
| `ContractFaults.OrderedExactly` | internal/contract/validate.go:30-174 | a problem is found by the checks exactly when it is true of the contract, each kind by a definition of its own |
| `ContractListing.ProblemsListed` | internal/contract/validate.go:30-131 | the problems found in a fixed order are exactly the contract's faults, listed by place: the check, the element of the list that it looks at, the check of that element |
| `ContractListing.FirstFault` | internal/contract/validate.go:30-131 | the validator's error is the fault at the earliest place, or, when there is none, some required obligation that the evaluator misses; no error means neither |
| `Lint.LintContract` | internal/contract/lint.go:345-450 | all problems in the order of the checks, then every missed required obligation once |
| `Lint.LintApprovals` | internal/contract/lint.go:452-494 | all problems of the approval tickets, in order |
| `Lint.CollectAllRefinesFailFast` | internal/contract/lint.go:345-494 | lint is clean and the task schemas hold exactly when validation passes; otherwise, with the schemas holding, the validator's error is the first diagnostic, up to the map-ordered last check |
| `ContractFaults.LintExactly` | internal/contract/lint.go:345-494 | linting reports exactly the faults of the contract, the task schemas aside |
| `ContractListing.LintListed` | internal/contract/lint.go:345-494 | the diagnostics are the faults in the order of their places, then each missed required obligation once, and nothing else |
| `Authoring.ValidateStructuredAuthoring` | internal/contract/authoring.go:264-314 | the first diagnostic of the brief |
| `Authoring.LintStructuredAuthoring` | internal/contract/lint.go:287-343 | all diagnostics of the brief, in order and with their lines |
| `Authoring.NoNotesExactly` | internal/contract/authoring.go:264-314 | both are silent exactly for distinct valid IDs, known references and declared writes |
| `AuthoringFaults.NotesExactly` | internal/contract/lint.go:287-343 | linting a brief reports exactly its faults, each with its line, and validation reports one of them |
| `BriefListing.NotesListed` | internal/contract/lint.go:287-343 | the diagnostics of a brief are exactly its faults, each with its line, in the order of their places: obligation IDs, task IDs, then each task's dependencies, obligations and writes |
| `BriefListing.FirstNote` | internal/contract/authoring.go:264-314 | the validator of briefs reports the one at the earliest place |
| `Paths.CleanIdempotent` | internal/run/executor.go:567-569 | cleaning a clean path changes nothing |
| `Paths.SlashCleanIdempotent` | internal/policy/protected_paths.go:17-19 | the same for the backslash-normalising form |
| `PathWalk.CleanLeads` | internal/run/executor.go:567-569 | from every directory the cleaned path leads where the path leads, step by step |
| `PathWalk.CleanIsTheNormalForm` | internal/run/executor.go:567-569 | and it is the only normal path, rooted alike, that does |
| `Paths.EscapesExactly` | internal/run/executor.go:553-576 | the textual escape test is: rooted, drive-prefixed or with a surviving dot-dot segment |
| `PathWalk.VerdictsExactly` | internal/contract/validate.go:215-233 | each of four validators answers by where the path leads: missing, out, or taken in its normal form |
| `PathWalk.SnapshotVerdictExactly` | internal/verify/verifier.go:395-410 | the same for snapshot paths, which must lead to their folder or below |
| `Paths.DoubleSlashIsRooted` | internal/run/executor.go:553-565 | the guard against two leading slashes never decides alone |
| `Paths.SafeJoinStaysInside` | internal/run/executor.go:553-565 | an accepted path's segments follow the base's, with no dot-dot, so the target is the base or below it |
| `Paths.SafeJoinSeesNormalForm` | internal/run/executor.go:553-565 | acceptance and target depend on the normal form alone |
| `Paths.ValidateAgreesWithSafeJoin` | internal/contract/validate.go:224-233 | contract validation accepts exactly the non-blank paths that safeJoin accepts |
| `Paths.ArtifactPathAgreesWithSafeJoin` | internal/verify/verifier.go:412-424 | the verifier accepts a normalised resource exactly when the executor does and it is not the base, and finds the same file |
| `Paths.BundlePathAgreesWithArtifactPath` | internal/bundle/bundle.go:1384-1404 | an accepted artifact path is an accepted bundle path under artifacts/, with the same relative rest |
| `Policy.EvaluateTask` | internal/policy/evaluator.go:13-30 | one decision per declared effect, in order, as PolicyRulings and RunTells say what each of them tells |
| `Policy.DecisionIDInjective` | internal/policy/evaluator.go:18 | decision IDs tell task and effect index apart, whatever dashes task IDs hold |
| `RunTells.DecisionIDTells` | internal/policy/evaluator.go:18 | a decision ID is "policy-", the task, a dash and the effect's number from one |
| `Policy.PolicyIsAntitone` | internal/policy/evaluator.go:32-106 | more revocations or a later effective instant never turn a denial into an allowance, for every effect type |
| `Policy.AntitoneExactly` | internal/policy/evaluator.go:101-106 | for the evaluation-time field as given this holds exactly when the effective instants are ordered, the zero time counting as the wall clock |
| `Policy.VerdictSeesNormalForm` | internal/policy/evaluator.go:32-99 | verdict, reason and ticket depend on all resources only through their normal forms |
| `Policy.LaterMatch` | internal/policy/evaluator.go:79-99 | a later instant leaves the ticket match as it is or makes a valid ticket expired |
| `Policy.AllowedWriteIsDeclared` | internal/policy/protected_paths.go:8-19 | an allowed file.write lands, under every base, on the file of one declared write |
| `Policy.AllowedExactly` | internal/policy/evaluator.go:32-99 | an effect is allowed exactly when, under strict mode, it is a declared read or write, or the first approved ticket that covers it is unexpired and not revoked, with the full evidence named when the claim is the full one |
| `Policy.MatchIsFirstCover` | internal/policy/evaluator.go:79-99 | the ticket search settles on the first approved ticket that covers the effect, expired or not |
| `PolicyRulings.RulingExactly` | internal/policy/evaluator.go:32-99 | every ruling's verdict, reason and ticket: file effects by the declared paths and without a ticket; processes, network requests and claims by the first approved ticket that covers them, by its expiry, revocation and, for the full claim, the evidence it names |
| `PolicyRulings.TicketExactly` | internal/policy/evaluator.go:32-99 | a ruling names exactly the first covering ticket when that has not expired, and none otherwise |
| `PolicyRulings.EvidenceExactly` | internal/policy/governance_classification.go:37-55 | the full claim's reason must mention three phrases, in letters of either case |
| `Ledger.EventRecorder.constructor` | internal/run/executor.go:76-80 | a new recorder has written nothing and links to the genesis value |
| `Ledger.EventRecorder.Append` | internal/run/executor.go:586-660 | adds one event, numbered, linked to the last hash and sealed with its own; earlier lines stay |
| `Ledger.EventRecorder.Emit` | internal/run/executor.go:586-620 | the same for a plain event, whose ID is its line number |
| `Ledger.EventRecorder.EmitPolicyDecision` | internal/run/executor.go:622-660 | the same for a policy decision, with every field of the decision |
| `Ledger.EventIDInjective` | internal/run/executor.go:588-591 | event IDs tell sequence numbers apart, also beyond six digits |
| `RunTells.EventIDTells` | internal/run/executor.go:588-591 | an event ID is "event-" and the number in six digits, or in as many as it needs |
| `RunTells.EventTells` | internal/run/executor.go:586-660 | each event of a ledger tells its draft field by field, under run ID and number, links to the event before it or to sixty-four zeros, and carries the hash of all that |
| `Ledger.ChainAt` | internal/run/executor.go:586-660 | each event of a recorded ledger seals its draft on top of exactly the events before it |
| `Ledger.VerifyChain` | internal/verify/verifier.go:109-129 | accepts exactly the ledgers with one run ID, linked hashes and matching content hashes; otherwise reports the first event that breaks the chain and the first of the three checks that it fails |
| `Ledger.RecordedChainAccepted` | internal/verify/verifier.go:109-129 | every recorded ledger passes the chain check |
| `Ledger.TamperEvidence` | internal/verify/verifier.go:109-129 | two accepted ledgers with one last hash are equal in length and every field, or a collision or a genesis preimage among their payloads is exhibited |
| `EventSchema.ReadLedger` | internal/verify/verifier.go:80-107 | the ledger's events exactly when every line passes the event schema; otherwise the first line that does not |
| `LineFaults.LineExactly` | schemas/covenant.event.v1.schema.json:1-66 | a line passes exactly when it breaks none of the schema's properties, each with its pattern, its words and the types of event that must and must not have it |
| `EventSchema.EventIDShapeExactly` | schemas/covenant.event.v1.schema.json:30 | a recorded event ID has the schema's shape exactly up to number 999999 |
| `EventSchema.DecisionIDHasShape` | schemas/covenant.event.v1.schema.json:54-57 | the decision IDs of a portable task ID have the schema's shape |
| `Closure.Evaluate` | internal/closure/evaluator.go:3-23 | the matrix: one row per obligation, accepted or rejected |
| `Closure.EvaluateObligation` | internal/closure/evaluator.go:25-47 | one row, with claiming tasks, artifacts and decisions |
| `Closure.AcceptedExactly` | internal/closure/evaluator.go:3-47 | accepted exactly when the run succeeded and every required obligation has a claiming task that succeeded |
| `Closure.ClosedExactly` | internal/closure/evaluator.go:25-47 | the same for one row |
| `Closure.ArtifactIDsExact` | internal/closure/evaluator.go:62-68 | a row lists exactly the artifacts of its claiming tasks |
| `Closure.DecisionIDsExact` | internal/closure/evaluator.go:70-82 | and exactly their decisions |
| `Closure.FailedRunStaysOpen` | internal/closure/evaluator.go:3-47 | a failed run's matrix is rejected and all its rows are open |
| `ClosureRows.MatrixTells` | internal/closure/evaluator.go:3-82 | one row per obligation, in order: its ID, status and reason, and its tasks, their artifacts and their decisions, each list in the order of its source and with its repetitions |
| `RunTells.RunMatrixTells` | internal/run/executor.go:179-188 | so it is for the matrix in a run's evidence, by the statuses, artifacts and decisions of that run |
| `RunTells.TaskListTells` | internal/run/executor.go:144-152 | the artifact list of a task is what its own turn produced, in order |
| `RunTells.StatusTells` | internal/run/executor.go:266-272 | a task's status is success, failed for the one that stopped the run, and otherwise none |
| `Executor.ExecuteSideEffects` | internal/run/executor.go:318-334 | calls the adapter for the effects in index order up to the first error, once each, and returns what RunRecords.EffectsGather says |
| `RunRecords.EffectsGather` | internal/run/executor.go:318-334 | actions that succeed return the concatenation, in index order, of what the adapter answered to each |
| `Executor.ExecuteTask` | internal/run/executor.go:303-316 | what a task of each kind does when its turn has come |
| `Executor.RecordArtifacts` | internal/run/executor.go:144-152 | one event per artifact, and each artifact stamped with its event's ID |
| `Executor.VerifyRequiredObligations` | internal/run/executor.go:450-466 | the first required obligation that no successful task claims |
| `Executor.TakeTurn` | internal/run/executor.go:103-157 | a turn: start, decisions, gate, actions, outcome, with everything each of them records |
| `Executor.FinishRun` | internal/run/executor.go:169-214 | the last event, the closure matrix and the evidence pack |
| `Scheduler.Execute` | internal/run/executor.go:22-167 | a contract that its schema or the validation rejects leaves nothing; any other runs a legal history in at most as many passes as tasks and leaves exactly the ledger, evidence and error of that history, of which RunRecords, RunTells and ScheduleOrder say what they hold; "no progress" is unreachable |
| `Scheduler.RunPasses` | internal/run/executor.go:94-162 | the outer loop: passes until every task has succeeded or one has stopped the run, the counter being the number of successful tasks |
| `Scheduler.Pass` | internal/run/executor.go:95-161 | a pass that makes progress completes a task; one that makes none has seen no ready task |
| `Scheduler.SomeReady` | internal/run/executor.go:94-162 | with a rank, while a task is unfinished some task is ready |
| `ScheduleOrder.OrderExactly` | internal/run/executor.go:94-162 | every task runs in the first round that its dependencies leave open: none releases it later and, after the first round, one releases it exactly then; rounds and positions ascend, which fixes the order |
| `ScheduleOrder.OrderIsFixed` | internal/run/executor.go:94-162 | two runs of one contract, whatever their adapters and clocks, take the same tasks as far as both go |
| `LedgerGrammar.HistoryIsRead` | internal/run/executor.go:94-162 | an automaton that knows only the contract reads every history: no task starts twice or before its dependencies succeeded, each effect gets its decision in order, a success lists exactly the artifacts recorded since its start |
| `LedgerGrammar.LedgerInGrammar` | internal/run/executor.go:81-167 | every finished ledger is a word of the grammar from run_started to run_finished, with the right final status |
| `LedgerGrammar.EveryCallIsGated` | internal/run/executor.go:106-133 | every adapter call stands directly behind its task's start and an allowance for each declared effect, in order |
| `LedgerGrammar.CallsInOrder` | internal/run/executor.go:318-334 | a task's effects are performed one after the other from the first |
| `LedgerGrammar.EffectsExactly` | internal/run/executor.go:318-334 | a task's actions succeed exactly when the adapter answers each without error; otherwise the first error ends them and is the message |
| `LedgerGrammar.FailClosed` | internal/run/executor.go:106-143 | nothing is performed after a failed task, and nothing at all for a task with a denied effect |
| `LedgerGrammar.SuccessHasNoFailure` | internal/run/executor.go:94-162 | a history of successes holds no failure and no denial |
| `RunRecords.RunKeepsAnswers` | internal/run/executor.go:144-152 | in every run the evidence lists exactly the artifacts that the adapter answered to the calls of the tasks that succeeded, in order, and the ledger has one artifact_recorded event for each, which the artifact names |
| `RunRecords.RunTellsDecisions` | internal/run/executor.go:109-119 | the policy_decided events are one per decision of the evidence, in order, with all its fields and the status of its verdict |
| `RunTells.TurnIsRuled` | internal/run/executor.go:274-292 | at every turn there is one decision per declared effect, which tells the ruling by the contract's mode, paths and tickets, the run's revocations and the clock at that turn |
| `RunTells.FailureTold` | internal/run/executor.go:120-143 | a run that stopped leaves one failure record; it names the failed task_finished before run_finished, and phase and message are the first denial's, the adapter's first error, or what the task's kind checks |
| `RunTells.EvidenceTells` | internal/run/executor.go:169-214 | IDs, status and ledger digest of the evidence are those of the run and of the ledger beside it |
| `Verifier.PolicyEventIndex.constructor` | internal/verify/verifier.go:293-314 | counts the policy events under their decision IDs, or under task, status and reason when they have none |
| `Verifier.PolicyEventIndex.Consume` | internal/verify/verifier.go:316-327 | takes an event by ID, else by key, and leaves the counters alone when there is none |
| `Verifier.VerifyEvidenceProvenance` | internal/verify/verifier.go:226-291 | accepts exactly when the decisions can be taken in order, every artifact's producer lists it and every row passes in both directions |
| `Verifier.VerifyRevokedApprovalTickets` | internal/verify/verifier.go:342-352 | accepts exactly when no decision used a revoked ticket |
| `Verifier.SummarizeFailures` | internal/verify/verifier.go:426-448 | succeeds exactly when every failure names an event of the ledger, and gives that event's line |
| `Verifier.Verify` | internal/verify/verifier.go:19-78 | the whole check accepts exactly when every line passes the schema and all of its parts accept, and an error tells what is wrong: the first line, event, decision, artifact, row, ticket or failure that fails its check |
| `Provenance.GreedySound` | internal/verify/verifier.go:316-327 | when all decisions can be taken there is a one-to-one assignment of events that vouch for them |
| `Provenance.LedgerMatchingExact` | internal/verify/verifier.go:293-327 | on every ledger whose lines pass the schema the decisions can all be taken exactly when a one-to-one assignment of events that vouch for them exists |
| `Provenance.AcceptedProvenanceExactly` | internal/verify/verifier.go:226-291 | on such ledgers, with distinct IDs, acceptance is exactly: an assignment of policy events, every artifact recorded by its producer and every row exact |
| `Provenance.GreedyCompleteExactly` | internal/verify/verifier.go:316-327 | on chained event lists that no schema has seen, no assignment is missed exactly when decisions that share an ID share task, status and reason |
| `Provenance.GreedyMisses` | internal/verify/verifier.go:316-327 | otherwise there is such a list, with an event for every decision, that is rejected |
| `Provenance.AcceptedRowIsExact` | internal/verify/verifier.go:251-289 | an accepted row lists exactly the artifacts and decisions of its claimed tasks |
| `Provenance.RowAcceptedExactly` | internal/verify/verifier.go:251-289 | with distinct IDs that is also enough |
| `Provenance.AcceptanceMeans` | internal/verify/verifier.go:226-291 | acceptance gives every decision a policy event of its own, every artifact an event that records it and every row its exact contents |
| `RunVerify.FinishedRunAccepted` | internal/verify/verifier.go:19-78 | whatever the adapter answers, ledger and evidence of a finished run, successful or failed, are accepted under any revocations exactly when the ledger's lines pass the event schema, no decision cites a revoked ticket, and artifact IDs are shared only where the last maker claims what the others claim |
| `RunVerify.DistinctIDsClaimed` | internal/verify/verifier.go:226-234 | without shared artifact IDs the last of these conditions holds |
| `RunLines.RunLinesExactly` | internal/run/executor.go:586-660 | the lines of a valid contract's run pass the event schema exactly when the run has at most 999999 events and the adapter's artifact IDs are portable |
| `RunVerify.EventLookup` | internal/verify/verifier.go:354-360 | looking an event up by its ID finds its own line |
| `RunVerify.DecisionsDistinct` | internal/policy/evaluator.go:13-30 | no two decisions of a run share an ID |
| `RunVerify.DecisionsMatch` | internal/verify/verifier.go:298-327 | the decisions of a run are all matched by its ledger |
| `RunVerify.TaskArtifactsExact` | internal/run/executor.go:144-152 | the executor's per-task lists hold exactly what each task produced |
| `RunVerify.RowIsExact` | internal/run/executor.go:179-188 | each row of a run's matrix is exact as the ledger sees it |
| `RunVerify.RunFailuresLocated` | internal/run/executor.go:216-225 | a run's failure record names the line of its failed task_finished |
| `RunOutcome.StatusAndClosureAgree` | internal/run/executor.go:122-167 | no error means an accepted matrix with every required row closed and no revoked ticket; an error with evidence means a failed status, one failure, a rejected matrix and open rows |
| `RunOutcome.ExecutedRunVerified` | internal/verify/verifier.go:19-78 | the evidence that Execute leaves is accepted under the run's own revocations exactly when the ledger's lines pass the event schema, artifact IDs are shared only as above and, after a failure, no decision cites a revoked ticket |
| `RunTickets.CitedExactly` | internal/verify/verifier.go:342-352 | the decisions of a run cite no revoked ticket exactly when no ticket that the run used is revoked |
| `RunTickets.AcceptedByTickets` | internal/verify/verifier.go:19-78 | a finished run is accepted exactly when its lines can be read, artifact IDs are shared only as above and no ticket that it used is revoked |
| `RunTickets.RevokingUsedTicketRejects` | internal/verify/verifier.go:342-352 | every effect that needs a ticket and was let through used one of the contract, and revoking that one makes the verifier reject the run |
| `RunOutcome.BadExpirationExactly` | internal/policy/evaluator.go:32-99 | for a contract that passes validation an effect is denied for an invalid expiration exactly when it needs a ticket and its first approved one carries an expiry of blanks |
| `RunOutcome.MissingEvidenceExactly` | internal/run/executor.go:163-166 | when every task succeeded, evidence is missing exactly if some required obligation is claimed by none |
| `RunOutcome.UnclaimedLosesEvidence` | internal/run/executor.go:163-166 | a valid contract with two required obligations, one of them unclaimed, whose only task succeeds: the run ends with an error and no evidence |
| `RunOutcome.SuccessUsesLiveTickets` | internal/policy/evaluator.go:32-68 | a history of successes used no ticket that the run held revoked |
| `RunOutcome.DeniedExactly` | internal/run/executor.go:106-133 | in every run a task is denied exactly when one of its declared effects is not permitted at its turn |
| `RunOutcome.SucceedsExactly` | internal/run/executor.go:303-334 | an allowed task succeeds exactly when its actions are answered without error, or its declared writes exist, or its dependencies have finished, or the required obligations are claimed by finished tasks, as its kind demands |
| `DefaultAdapter.ArtifactIDInjective` | internal/run/adapter.go:158 | the three ID formats (lines 123, 149 and 158) tell task, action index and source apart |
| `DefaultAdapter.DefaultRunAccepted` | internal/run/adapter.go:36-62 | with the default adapter every finished run of a valid contract is accepted exactly when it has at most 999999 events |
| `CanonicalJson.WriteCanonicalJson` | internal/policy/autonomous_repair_architecture.go:784-831 | appends the canonical text of the value, which by JsonStrict.CanonicalExactly is the only one of its kind |
| `CanonicalJson.WriteJsonString` | internal/policy/autonomous_repair_architecture.go:833-865 | appends the quoted and escaped string |
| `CanonicalJson.GatherKeys` | internal/policy/autonomous_repair_architecture.go:809-814 | the sorted keys, in whatever order the map was ranged over |
| `CanonicalJson.AscendingUnique` | internal/policy/autonomous_repair_architecture.go:809-814 | ascending order leaves no choice |
| `JsonInjective.EscapeUnique` | internal/policy/autonomous_repair_architecture.go:836-863 | the escapes of characters, surrogate pairs included (section 7 of RFC 8259), form a prefix-free code |
| `JsonInjective.JsonStringUnique` | internal/policy/autonomous_repair_architecture.go:833-865 | a string's text ends at its closing quote |
| `JsonInjective.TokenUnique` | internal/policy/autonomous_repair_architecture.go:794-795 | a number ends where number characters end, although it has no closing mark |
| `JsonInjective.Unique` | internal/policy/autonomous_repair_architecture.go:784-831 | texts that agree hold the same value and leave the same rest, wherever they stand in a document |
| `JsonInjective.CanonicalInjective` | internal/policy/autonomous_repair_architecture.go:784-865 | equal canonical texts come from equal values |
| `JsonReader.CanonicalReadBack` | internal/policy/autonomous_repair_architecture.go:784-865 | a reader defined from the grammar of RFC 8259 (literals, arrays, objects, escapes and surrogate pairs of sections 3 to 7) reads every canonical text as the value it was written from |
| `JsonReader.CanonicalIsJson` | internal/policy/autonomous_repair_architecture.go:784-865 | for every decoded value, also under a strict grammar: no white space, ascending members, one spelling for each character |
| `JsonReader.WellFormedReadBack` | internal/policy/autonomous_repair_architecture.go:784-865 | the same for every well-formed value, whatever its number tokens are |
| `JsonReader.PrecedesExactly` | internal/policy/autonomous_repair_architecture.go:809-814 | the order of the keys is that of the first difference |
| `JsonStrict.CanonicalExactly` | internal/policy/autonomous_repair_architecture.go:784-865 | of all texts the strict grammar reads exactly the canonical one as the value |
| `JsonStrict.WellFormedExactly` | internal/policy/autonomous_repair_architecture.go:784-865 | the same with any number tokens |
| `JsonInjective.CanonicalDigest` | internal/policy/autonomous_repair_architecture.go:760-782 | the digest of the document without its digest field; only objects have one |
| `JsonInjective.PreimageFixesFields` | internal/policy/autonomous_repair_architecture.go:760-782 | two documents have one preimage exactly when they agree on every field but the excluded one |
| `JsonPointer.UnescapeEscape` | internal/schema/schema.go:1241-1282 | unescaping in two passes undoes escaping on every text (section 3 of RFC 6901) |
| `JsonPointer.ResolveJSONPointer` | internal/schema/schema.go:1241-1262 | the value that the object members lead to |
| `JsonPointer.FollowExactly` | internal/schema/schema.go:1250-1261 | it finds what section 4 of RFC 6901 finds, exactly on paths through objects only |
| `JsonPointer.ConformsExactly` | internal/schema/schema.go:1241-1249 | what it finds agrees with RFC 6901 on every document exactly for the empty pointer and those that start with a slash, go on and have every tilde before 0 or 1 |
| `JsonPointer.StrayTildeResolves` | internal/schema/schema.go:1279-1282 | "/~2" is no pointer and is followed to the member "~2" |
| `JsonPointer.PointerRoundTrip` | internal/schema/schema.go:1272-1282 | splitting and unescaping a joined path gives its segments back |
| `SchemaWalk.WalkSchema` | internal/schema/schema.go:1085-1126 | visits every subschema and nothing else, each under a path that leads to it |
| `SchemaWalk.ReportedPathResolves` | internal/schema/schema.go:1085-1126 | every reported path is an RFC 6901 pointer to the visited node; the repository's resolver finds it exactly when no array was crossed |
| `SchemaVersion.SchemaNodeRequiresSchemaVersionField` | internal/schema/schema.go:712-756 | the analysis of "requires the field", which SchemaDerivation.FieldExactly characterises; it ends on cyclic references because unseen references, then node size, decrease |
| `SchemaVersion.FirstSchemaVersionConst` | internal/schema/schema.go:758-794 | the first const on the search through allOf, oneOf and anyOf, with the same measure |
| `SchemaVersion.SchemaNodeRequiresSchemaVersion` | internal/schema/schema.go:633-688 | the analysis of "requires this schema version", which SchemaDerivation.VersionExactly characterises, with the same measure |
| `SchemaVersion.RefUsesUp` | internal/schema/schema.go:638-651 | following an unseen reference makes the set of unseen references strictly smaller |
| `SchemaDerivation.FieldExactly` | internal/schema/schema.go:712-756 | the field analysis says yes exactly when a derivation exists: a listed field, a followed reference, some allOf child, all of a nonempty oneOf or anyOf; the references seen on the way do not matter |
| `SchemaDerivation.FieldExactlyAfter` | internal/schema/schema.go:712-756 | the same while references are held as seen |
| `SchemaDerivation.ConstExactly` | internal/schema/schema.go:758-794 | the search finds a const exactly when it stands at the first path of the search order |
| `SchemaDerivation.VersionExactly` | internal/schema/schema.go:633-688 | the version analysis says yes exactly when a derivation exists: a direct const, a followed reference, some allOf child, rule 2, all of a nonempty oneOf, anyOf or allOf |
| `SchemaDerivation.ValidateSchemaVersionDeclaration` | internal/schema/schema.go:624-631 | silent exactly when the schema does not speak of the version or is derived to require it; otherwise the wrong const that it found, or a missing one |
| `SchemaSound.StandardHonours` | internal/schema/schema.go:633-794 | the reference evaluator keeps every demand that the soundness theorems make of a validator (Core sections 8.2.1-8.2.3, 10.2.1, 10.3.2.1; Validation sections 6.1.3 and 6.5.3 of JSON Schema 2020-12) |
| `SchemaSound.FieldSound` | internal/schema/schema.go:712-756 | when the field is required, every object instance that a conforming validator accepts has it, for schemas with ordinary references and one resource |
| `SchemaSound.VersionSound` | internal/schema/schema.go:633-688 | when the version is required and no matching const hides behind alternatives, every such instance carries exactly this ID |
| `SchemaSound.FoundIsForced` | internal/schema/schema.go:758-794 | without oneOf and anyOf on its way, the const that the search finds binds every instance |
| `SchemaEval.FewerTaken` | internal/schema/schema.go:638-651 | the evaluator's answer does not depend on which references were taken on the way to a node |
| `JsonPointer.PlainDecodesToItself` | internal/schema/schema.go:1241-1249 | a fragment without percent signs is its own decoding, by section 2.1 of RFC 3986 over RFC 3629, which the resolver leaves out |
| `SchemaExact.EvalSeesCanon` | internal/schema/schema.go:633-794 | a schema whose properties ask for scalars cannot tell an instance from the one with only its words and scalars, whatever references, anchors, resources and alternatives it has |
| `SchemaExact.AnswersExactly` | internal/schema/schema.go:633-794 | whether the reference evaluator has an answer for every instance is decided by finitely many of them |
| `SchemaExact.RightExactly` | internal/schema/schema.go:624-756 | at every node of these schemas for which the evaluator has an answer, each analysis is right exactly when it says no or the node accepts none of finitely many instances against it |
| `SchemaExact.MissedExactly` | internal/schema/schema.go:624-756 | each analysis says no of a node that binds the version or the field exactly when none of the finitely many instances refutes the node and no derivation reaches it |
| `SchemaExact.OrdinaryIsRight` | internal/schema/schema.go:624-756 | at every node of all schemas with ordinary references and one resource the field analysis is right, and the version analysis is where no const hides behind alternatives |
| `SchemaFailures.RuleTwoUnsound` | internal/schema/schema.go:653-669 | a schema reported as requiring one version accepts an instance with another; its properties ask for scalars, so one of the finitely many instances shows it |
| `SchemaFailures.VersionMissed` | internal/schema/schema.go:758-794 | a schema whose objects all carry one version is reported as requiring another |
| `SchemaFailures.AnchorUnsound` | internal/schema/schema.go:717-728 | a reference to a declared anchor is followed to a member: the field is reported as required, and an instance without it is valid |
| `SchemaFailures.EncodedUnsound` | internal/schema/schema.go:1241-1262 | the same for a percent-encoded pointer, which the resolver takes as written |
| `SchemaFailures.EmbeddedUnsound` | internal/schema/schema.go:717-728 | the same for a reference below a nested identifier |
| `Checksums.LinesReadBack` | internal/bundle/bundle.go:790-815 | trimming and splitting a checksum text gives its lines back |
| `Bundle.Export` | internal/bundle/bundle.go:307-394 | succeeds exactly for a verified run with readable, distinctly named files, and then writes all of them with manifest, signature and checksums; an error tells which of these failed |
| `Bundle.EntriesForFiles` | internal/bundle/bundle.go:1146-1163 | one entry per file exactly when no path is used twice |
| `Bundle.VerifyBundleChecksums` | internal/bundle/bundle.go:790-815 | accepts exactly when the text is not blank and every line names an entry with its digest |
| `Bundle.Extract` | internal/bundle/bundle.go:420-431 | unless an entry would be the folder of another, every entry but manifest and checksums lands at its place, and nothing else does |
| `BundleContents.ZipExactly` | internal/bundle/bundle.go:749-779 | an archive is read exactly when its paths are acceptable and its names differ, and then each file is found under its name |
| `BundleContents.ArchiveTells` | internal/bundle/bundle.go:307-394 | an export holds the files read from their sources, the manifest with exactly their paths, digests and sizes, a demanded signature of that manifest, and a checksum line for every file before the last |
| `BundleVerify.VerifyBundle` | internal/bundle/bundle.go:396-462 | accepts exactly when entries, checksums, a demanded signature, run checks on the landed files and revocations do; an error tells what does not |
| `BundleVerify.LandsApart` | internal/bundle/bundle.go:420-431 | no two accepted entry names land on one file |
| `BundleRoundTrip.ArchiveIsSound` | internal/bundle/bundle.go:781-815 | an export holds every required entry, and its checksum text is accepted exactly when the line of every gathered file reads back |
| `BundleRoundTrip.SnapshotsLand` | internal/bundle/bundle.go:1053-1062 | the snapshots lie where the verifier looks for them exactly when each is below the folder and the bundled file has its digest |
| `BundleRoundTrip.ArtifactsLand` | internal/bundle/bundle.go:1063-1071 | every artifact lies where the verifier looks for it |
| `BundleRoundTrip.RevocationsLand` | internal/bundle/bundle.go:1075-1122 | the bundled lists are the given ones, all readable, when each has a file name |
| `BundleExport.ExportedExactly` | internal/bundle/bundle.go:307-462 | every successful export is accepted, in any extraction directory, exactly when each snapshot is below its folder and was read where its digest holds, lists have file names, no file would be another's folder, the checksum lines read back, a demanded signature holds and no used ticket is revoked |
| `BundleExport.ExportedBundleVerifies` | internal/bundle/bundle.go:307-462 | for tidy names only signature and revoked tickets are left of that condition |
| `BundleNames.SnapshotSource` | internal/bundle/bundle.go:1053-1062 | without backslashes a snapshot is read, from any directory, where the verifier of the run looked |
| `BundleExport.FolderItselfIsRejected` | internal/bundle/bundle.go:1053-1062 | a verified and exported request with a snapshot recorded as its folder itself, whose bundle is rejected |
| `BundleExport.BackslashIsRejected` | internal/bundle/bundle.go:1055-1056 | the same for a snapshot recorded with a backslash when a different file lies at the path as written |
| `Governance.UniqueNonemptyStrings` | internal/policy/autonomous_repair_governance.go:340-352 | yes exactly for distinct nonempty names |
| `Governance.SameUniqueExactly` | internal/policy/autonomous_repair_governance.go:333-361 | the list comparison holds exactly for two orders of one list of distinct nonempty names |
| `RepairAuthority.ValidateArchitectureChecks` | internal/policy/autonomous_repair_architecture.go:615-644 | the check lists, both green at the approved head and both the expected names |
| `RepairTheorems.AuthorisedExactly` | internal/policy/autonomous_repair_governance.go:116-187 | a well-formed write request under a valid policy is authorised exactly when the authority check finds nothing; the denials after it cannot happen |
| `RepairTheorems.WindowIsExact` | internal/policy/autonomous_repair_architecture.go:646-688 | the authorising instants are none or exactly those from the approval up to the action's expiry, at most 24 hours and at most the wall-clock budget |
| `RepairTheorems.MutatesExactly` | internal/policy/autonomous_repair_governance.go:116-187 | under every policy and for every request a mutation is authorised exactly when the evaluation reaches the authority check and that finds nothing |
| `RepairTheorems.EvaluationWindow` | internal/policy/autonomous_repair_governance.go:116-187 | under every policy and for every request the instants at which the whole evaluation authorises a mutation are none or exactly those from the approval up to the action's expiry, within both bounds |
| `RepairTheorems.ChronologyExactly` | internal/policy/autonomous_repair_architecture.go:646-688 | the chronology holds exactly for ordered documents and an instant in that window, saturating subtraction included |
| `RepairTheorems.LifetimeBounded` | internal/policy/autonomous_repair_architecture.go:683-686 | a lifetime that passes is within the budget, although the budget may wrap and the lifetime saturate |
| `RepairTheorems.AuthorisedChecks` | internal/policy/autonomous_repair_architecture.go:615-644 | in an authorised request the three check lists are orders of the policy's list, all green at the approved head |
| `RepairTheorems.AuthorisedMeans` | internal/policy/autonomous_repair_architecture.go:199-345 | an authorised write has documents of one run, repository, issue, action, base and digest chain, a selected candidate with every eligibility flag as it must be, no protected path, the envelope's repair branch, the operator's own fork of this repository or none as the target demands, and an action within its repository class: drafts from a fork outside, human-approved merges in teams, opted-in auto-merge under sole control |
| `RepairFaults.FaultsExactly` | internal/policy/autonomous_repair_architecture.go:199-345 | the authority check finds a reason only where it is true, and every fault of every layer, the fork, branches and bases among them, makes it find one |
| `RepairFaults.AuthorityExactly` | internal/policy/autonomous_repair_architecture.go:199-345 | the check finds nothing exactly when no fault of any kind holds, so that each of them alone denies |
| `RepairFaults.PolicyExactly` | internal/policy/autonomous_repair_governance.go:243-331 | a policy is valid exactly when it is sound by a definition of its own |
| `RepairFaults.ShapeExactly` | internal/policy/autonomous_repair_governance.go:189-233 | a request has one of the two shapes exactly when it asks to write or asks to look |
| `RepairFaults.LifetimeExactly` | internal/policy/autonomous_repair_architecture.go:683-686 | a budget that fits into 64 bits of nanoseconds is taken as it is |
| `RepairFaults.AutomatedExactly` | internal/policy/autonomous_repair_architecture.go:743-749 | a reviewer counts as a program exactly when the name says so, in letters of either case |
| `RepairFaults.DecisionTells` | internal/policy/autonomous_repair_governance.go:116-187 | the whole decision: its class, when it mutates, when it only looks, with which reason, and that every denial's reason is true |
| `RepairOrder.EarliestFault` | internal/policy/autonomous_repair_architecture.go:199-345 | the reason found in the documents is that of the earliest check which any of their faults fails |
| `RepairOrder.DenialInOrder` | internal/policy/autonomous_repair_governance.go:116-187 | every denial names the first thing that is wrong: with the policy, the shape of the request, its schema, its ownership assertion, and then its documents |
| `Release.ReadChecksums` | internal/release/publication_verify.go:476-497 | the checksum map, or nothing when a line is malformed |
| `Release.Report.VerifyItem` | internal/release/publication_verify.go:223-345 | an attestation or supplemental file: its problems, which are also the report's, and verified exactly when there are none |
| `Release.Report.VerifyArtifact` | internal/release/publication_verify.go:75-200 | an artifact is verified exactly when its own problems are empty and all its attestations are verified |
| `ReleaseVerify.Verify` | internal/release/publication_verify.go:22-221 | a report exactly when manifest and checksums can be read; its problems are exactly those that the release has, and it is verified exactly when there are none, in the whole and in every part |
| `ReleaseVerify.CleanExactly` | internal/release/publication_verify.go:22-345 | a release is clean exactly when every manifested file lies inside the directory with its digest, size and checksum line, artifact names differ, metadata and signature hold and every checksum line is accounted for |
| `ReleaseFaults.ItemFaultExactly` | internal/release/publication_verify.go:223-345 | an attestation or supplemental file has a problem exactly when that is true of its path, digest, size or checksum lines |
| `ReleaseFaults.ArtifactFaultExactly` | internal/release/publication_verify.go:75-200 | the same for an artifact, with duplicate names and metadata |
| `ReleaseFaults.ReportExactly` | internal/release/publication_verify.go:22-221 | the problems of a release are exactly its faults: signature, artifacts, attestations of readable artifacts, supplemental files and checksum lines for nothing |
| `ReleaseFaults.ItemInOrder` | internal/release/publication_verify.go:223-345 | the problems of an attestation or supplemental file come in the order of the checks, at most one from each |
| `ReleaseFaults.ArtifactInOrder` | internal/release/publication_verify.go:75-200 | so do an artifact's own, and last one for each disagreement of its metadata |
| `ReleasePackage.Package` | internal/release/publication_package.go:220-335 | succeeds exactly when every binary builds, every attestation finds its artifact, every file can be read, no name is used twice and the manifest passes its schema, so that nothing recorded is empty; it leaves the planned manifest and the files it records; an error tells what failed first |
| `ReleasePackage.MatchAttestationSelector` | internal/release/publication_package.go:173-202 | the first artifact that the selector matches |
| `ReleasePackage.AttachAttestations` | internal/release/publication_package.go:97-156 | each artifact gets exactly the attestations that select it, in order, under new names |
| `ReleasePackage.AddSupplementals` | internal/release/publication_package.go:39-95 | one record per file, in order, under new names |
| `ReleasePackage.WriteChecksums` | internal/release/publication_package.go:469-481 | one line per file |
| `ReleasePlan.MatchIgnoresAttestations` | internal/release/publication_package.go:173-202 | attaching attestations does not change what later selectors match |
| `ReleaseRecords.SelectsExactly` | internal/release/publication_package.go:173-202 | a selector selects an artifact exactly by its name, target or path, or by a name or target after the word that says which |
| `ReleaseRecords.ManifestTells` | internal/release/publication_package.go:220-335 | the manifest's labels, every binary under its name with digest and size, its attestations in order, and every supplemental file |
| `ReleaseRoundTrip.ChecksumsTell` | internal/release/publication_package.go:469-481 | the checksum text: for every artifact its digest, two spaces and its name, its attestations behind it, then the supplemental files |
| `ReleaseRoundTrip.ChecksumsReadBack` | internal/release/publication_verify.go:476-497 | the checksum file of good names and digests reads back as the map it was written from |
| `ReleaseRoundTrip.PackagedReleaseVerifies` | internal/release/publication_verify.go:22-221 | a packaged release with plain, unreserved file names without spaces is verified without a problem |
| `ReleaseExact.PackagedExactly` | internal/release/publication_verify.go:22-345 | a package with names of one segment verifies exactly when no name holds a space, no record has the name of a generated file without its digest and size, the binaries' metadata agrees, and a demanded signature holds of the manifest |
| `ReleaseExact.StillStoredExactly` | internal/release/publication_package.go:290-325 | writing manifest, checksums and signature leaves every recorded file in place exactly under that condition on names |
| `ReleaseExact.SpacedNameIsReported` | internal/release/publication_verify.go:476-497 | a package with a spaced SBOM name, valid and complete, that never verifies |
| `ReleaseExact.ReservedNameIsReported` | internal/release/publication_package.go:290-310 | the same for an SBOM called like the manifest, which overwrites it |

## Left out

Weaker than the source, or under a condition:

- SchemaExact.RightExactly: for schemas whose properties ask for scalars and nodes for which the evaluator has an answer; a reference out of the document, a keyword that is not read or a malformed one leaves the node outside. With properties inside properties no finite set of instances need decide, and SchemaExact.OrdinaryIsRight gives a sufficient condition instead.
- SchemaEval.FewerTaken: the evaluator reads references, allOf, anyOf, oneOf, properties, required and const and gives no answer at a node with another keyword that can reject an instance, for a reference out of the document, for a pointer that crosses into an embedded resource and for an anchor that several nodes declare.
- SchemaSound.FieldSound: states soundness for one resource whose local references are ordinary pointers without percent signs; SchemaFailures shows why all of this is needed.
- SchemaSound.VersionSound: the condition on consts behind alternatives is sufficient and not necessary: a schema that no instance satisfies is sound without it.
- Paths.SafeJoinStaysInside: the base is absolute and clean, as the executor's absoluteDir makes it; symbolic links are not modelled.
- Policy.AntitoneExactly: the direction that exhibits a loosened verdict needs a timestamp text for the earlier instant.
- Provenance.RowAcceptedExactly: the converse needs distinct artifact and decision IDs, because the verifier's maps keep one entry per ID.
- RunVerify.FinishedRunAccepted: artifact files and input snapshots are not compared, since a later write to the same path changes them.
- RunLines.RunLinesExactly: the run ID is portable and hashes print as 64 hexadecimal digits; lines are decoded events, so unknown and mistyped fields do not occur.
- Verifier.Verify: an error tells which check fails and on what, not its wording; the evidence pack's own schema (internal/verify/verifier.go:136) is left out, and artifact and snapshot digests are checked in Bundle, not here.
- Scheduler.Execute: the contract's schema check is a parameter, emitting an event cannot fail, the context is never cancelled, and run ID, directories, declared reads and input snapshots are settled before it starts. When a required obligation is unsatisfied the code returns without flushing its writer (internal/run/executor.go:163-166): the model's ledger is then the one recorded, of which the file may hold only a part.
- Executor.FinishRun: validating the finished evidence pack against its schema is left out; the file is what the model returns.
- CanonicalJson.WriteCanonicalJson: decoded values have no other types than the six of JSON; strings are Unicode scalar values and numbers keep their token.
- JsonInjective.CanonicalInjective: numbers are tokens as a decoder hands them over, so 1 and 1.0 are different values.
- JsonStrict.CanonicalExactly: for values whose numbers are numbers by section 6 of RFC 8259, which are those that a decoder hands over; JsonStrict.WellFormedExactly says the same of all tokens of number characters.
- RunTells.FailureTold: messages are an uninterpreted function of what they tell.
- SchemaWalk.WalkSchema: says which subschemas are visited and under which paths, not in which order.
- RepairFaults.LifetimeExactly: for budgets that fit into 64 bits of nanoseconds; RepairTheorems.LifetimeBounded covers the others.
- BundleExport.ExportedExactly: the fixed entries have plain names apart from the folders', as the standard ones do, the extraction directory is absolute and digests are hexadecimal.
- BundleRoundTrip.RevocationsLand: when a list was stored as the revocations folder itself its tickets are not compared, since the bundle is rejected anyway.
- Bundle.Export: the outcome of verifying the run is a parameter as far as it depends on contract, ledger and evidence alone; path inference for omitted directories is left out.
- BundleVerify.VerifyBundle: the check of a signature file against a key is a parameter; the summary that it returns is left out.
- RepairTheorems.AuthorisedExactly: shape and digest checks of the five documents and the request schema are parameters.
- ReleaseExact.PackagedExactly: file names have one segment, no generated file has a binary's name, as with the standard names, and the manifest's JSON round trip is assumed; the metadata of a binary is that of the file as it was built.
- ReleasePackage.Package: defaults for version, commit, date and targets, the prebuilt map's size check, attestation argument parsing and sources that already lie in the output directory are settled before it starts.
- ReleaseVerify.Verify: the problems of the whole report are given as a set, those of each file in order; the report's single-check flags and provenance summary are left out; host metadata enters as a number of problems.

Not modelled:

- File, zip, process and clock I/O, Scanner line limits, write failures inside the recorder, and its own schema check, which RunLines shows when to pass.
- SHA-256, Ed25519, base64 and JSON encoding: uninterpreted functions.
- The brief parser (internal/contract/authoring.go:62-167, 323-483): line syntax only; the draft it yields is modelled.
- Diagnostic codes and hints derived from message substrings (internal/contract/lint.go:507-687).
- ToLower outside ASCII, and escaping by the %q verb in messages: texts that no modelled decision depends on, apart from evidence reasons and reviewer names.
- Per-keyword schema linting (internal/schema/schema.go:796-1063): one reading settles it.
- Pinned-literal checks of policy tables, the command line, Markdown, SARIF and JUnit rendering, redaction, bundle inspection and reports.
