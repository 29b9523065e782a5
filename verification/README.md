# AgentBench verification

A Dafny model of the parts of AgentBench whose correctness rests on more than one
function: how a published scenario suite is validated and scored, how commands
are delivered, how a hosted attempt is created, advanced and ended, how a run is
completed or cancelled, and the smaller stateful parts around them. Each part of
the source that works by updating state is modelled as a class or as a
transition system with one step per effect; each part that computes is a
function. What is proved holds for all inputs, all interleavings and all runs.

`dafny verify dfyconfig.toml` checks everything.

## The parts

- **Validation and scoring.** `cycle_detection.dfy`, `scenario_graph.dfy`,
  `capability_matrix.dfy` and `suite_manifest.dfy` are the refinements a published
  manifest passes, the cycle search included. `rounding.dfy`, `scoring.dfy`,
  `scenario_verdict.dfy`, `capability_aggregation.dfy`, `suite_score.dfy` and
  `capability_guarantees.dfy` fold sessions, evaluators and telemetry into tracks,
  dimensions, a graph verdict and a suite status. `mean_laws.dfy`,
  `score_meaning.dfy`, `scenario_parts.dfy`, `component_meaning.dfy` and
  `evaluation_meaning.dfy` say what every status, score, count and component is, in
  terms of the sessions, the coverage and the graph alone. Main results: the search is
  exact; for an accepted manifest no check of the pipeline can throw; interaction
  cost decides no status and a lower cost never lowers a score.
- **Command processing.** `command_protocol.dfy` has one step per effect of
  `processMessage`, with an interruption possible anywhere; `command_worker.dfy` is
  the imperative worker, proved to be a path of that system;
  `command_guarantees.dfy` and `command_success.dfy` hold the delivery guarantees. `partition_leases.dfy` is
  how a partition comes to have one consumer.
- **Attempts.** `attempt_initialization.dfy` is the idempotent initialization by any
  number of callers. `attempt_lifecycle.dfy` and `attempt_guarantees.dfy` are the
  completion of sessions by concurrent workers, against the Postgres routines that
  complete, time out and cancel, and the read model that says what comes next;
  `attempt_scoring.dfy` joins them to the capability evaluation, and
  `stored_score.dfy` says what a finished attempt has stored.
- **Runs.** `run_race.dfy` and `run_outcome.dfy` are completion, cancellation and
  annotation of one run as transactions over a locked row.
- **Faults.** `fault_machine.dfy` and `fault_guarantees.dfy` are the deterministic
  faults of a session. `fault_recovery.dfy` says which schedules can be recovered
  completely, and `scenario_solvability.dfy` which published graphs can be passed.
- **Calibration.** `confidence.dfy` proves the Wilson and mean intervals;
  `calibration.dfy`, `calibration_guarantees.dfy` and `report_meaning.dfy` are the
  report on top.
- **Smaller state.** `session_cache.dfy`, `action_cost.dfy`, `rate_limiter.dfy`.

`collections.dfy`, `text.dfy` and `json.dfy` are shared.

## What the proofs found

- The coverage key of the capability matrix and the identity key of calibration
  observations join fields with a colon, so distinct entries can be refused as
  duplicates. Exactly when: the tasks, or the cohort cells, differ and one joined
  prefix starts the other
  (`CapabilityMatrix.CoverageKeysCollideIffPrefix`,
  `CalibrationGuarantees.IdentitiesCollideIffPrefix`).
- Attempt recovery compares the number of sessions, not the revision: two callers
  with different revisions of equally many sessions can be handed one attempt
  (`AttemptInitialization.OwnRevisionIffAgreement`).
- The same command id published to two partitions is handled and written twice
  (`CommandGuarantees.SingleResultIffOnePartition`).
- A success of the handler can still end as a dead letter. The retry key is deleted
  inside the `try` of the retry loop, so a failure of that deletion counts as a failed
  attempt, at the last attempt a fatal one
  (`CommandGuarantees.SuccessCanBeDeadLettered`); and an interruption before the result
  is stored starts over (`CommandSuccess.InterruptedSuccessCanBeDeadLettered`). In
  every run with neither, what the handler returned is what is stored
  (`CommandSuccess.ReturnedValueIsStored`). An interruption also restarts the budget of
  attempts, so handler calls are bounded per interruption
  (`CommandGuarantees.DeliveryGuarantees`).
- The rollback of a refused lease acquisition deletes without comparing owners and
  can free a lease that another worker holds by then
  (`PartitionLeases.RollbackCanAdmitTwoConsumers`). That a second consumer
  appears only after a lease of one of the two has expired is certain if and only if
  no worker is assigned more than one partition
  (`PartitionLeases.ExclusiveIffAllShort`).
- `resolveAdvance` answers `complete` when the attempt has ended, which after a
  timeout or a cancellation is before all sessions are finished
  (`AttemptGuarantees.AdvanceIsNeverPremature`).
- `appendEvent` moves a run's status without a guard. Which events reopen an ended
  run, which end an open one without a winner, and which add an outcome event is
  stated exactly (`RunOutcome.SecondWinnerIffReopened`, `RunOutcome.AppendedOutcome`,
  `RunOutcome.CancelledEventThenWinner`).
- An annotation writes a status computed before its transaction and can set a running
  run back to `agent_connected` (`RunOutcome.AnnotationCanStepBack`); when it writes
  the status that follows the current one is stated exactly
  (`RunOutcome.AnnotationFollowsIffFresh`).
- The schema accepts scenario graphs that no attempt can pass: two required faults of
  one task and request class at adjacent occurrences, of which the request that
  recovers the first is the only one due for the second, or a required fault or
  revision on a distractor. These are all
  (`ScenarioSolvability.PassableIffSolvable`, `FaultRecovery.RecoverableIffNoCollision`).
- A cache lookup with a token that starts with `id:` reads an index entry and fails to
  decode it (`SessionCache.RedisSessionCache.Get`).
- The rate limiter admits one call less than twice its limit in a window length,
  and no more (`RateLimiter.TwiceTheLimitLessOneIsReached`).

## Model

| member | source | states |
|---|---|---|
| CycleDetection.Detector.Search | packages/test-cases/src/capability-benchmark.ts:285-297 | the recursive search terminates; `true` comes with a walk that returns to an earlier node, `false` finishes the node, restores the visiting set and keeps the finishing order topological |
| CycleDetection.AnyCycle | packages/test-cases/src/capability-benchmark.ts:279-304 | the search over all nodes answers `true` exactly when a cycle can be reached from a listed node; otherwise it yields a topological order of all of them |
| CycleDetection.AcyclicIffRanked | packages/test-cases/src/capability-benchmark.ts:279-304 | a relation has no cycle if and only if some rank strictly increases along every link |
| ScenarioGraph.Validate | packages/test-cases/src/capability-benchmark.ts:214-305 | an issue is reported if and only if it holds of the graph: duplicate ids, unknown references, repeated request triggers, cycles |
| ScenarioGraph.AcceptedGraphIsRanked | packages/test-cases/src/capability-benchmark.ts:279-304 | every accepted graph is acyclic and has a rank that strictly increases along each edge |
| ScenarioGraph.CycleDiagnosticIsExact | packages/test-cases/src/capability-benchmark.ts:279-304 | with known endpoints, the cycle diagnostic is given if and only if the edges contain a cycle |
| ScenarioGraph.TriggerKeyIdentifiesTrigger | packages/test-cases/src/capability-benchmark.ts:264-277 | two faults share a trigger key if and only if they share session, request class and occurrence, so read and navigation collide |
| ScenarioGraph.TriggerTaskMeaning | packages/test-cases/src/capability-benchmark.ts:264-268 | a fault is keyed by the session of its node, of several nodes with one id by the last, and of an unknown node by the node id |
| CapabilityMatrix.Validate | packages/test-cases/src/capability-benchmark.ts:45-142 | an issue is reported if and only if it holds of the matrix |
| CapabilityMatrix.InteractionCostNeverGates | packages/test-cases/src/capability-benchmark.ts:111-118 | no accepted matrix requires the interaction-cost dimension |
| CapabilityMatrix.CoverageKeysCollideIffPrefix | packages/test-cases/src/capability-benchmark.ts:53-67 | the joined keys of two tasks collide for some variants of distinct entries if and only if the task slugs differ and one of them, with its colon, starts the other with its colon |
| CapabilityMatrix.CoverageKeyExactWithoutColons | packages/test-cases/src/capability-benchmark.ts:53-67 | so the key identifies task and variant when no task slug contains a colon, or no variant does |
| CapabilityMatrix.CoverageKeyCanCollide | packages/test-cases/src/capability-benchmark.ts:53-67 | two different, valid coverage entries that share a key |
| SuiteManifest.Validate | packages/test-cases/src/schemas.ts:43-142 | an issue is reported if and only if it holds of the suite: session order, variants, and every cross reference between sessions, matrix and graph |
| SuiteManifest.LastSessionWins | packages/test-cases/src/schemas.ts:64-68 | of several sessions of one task the last is the one a reference is compared with |
| Rounding.RoundedIsNearest | packages/scoring/src/calibration.ts:81-83 | rounding gives a multiple of 1/10000 at most half a step away |
| Rounding.RoundedIsMonotone | packages/scoring/src/calibration.ts:81-83 | rounding keeps order, also across zero |
| Rounding.TiesGoAwayFromZero | packages/scoring/src/calibration.ts:81-83 | a value half a step from two multiples goes to the one farther from zero |
| MeanLaws.WeightedMeanLaws | packages/scoring/src/capability.ts:64-72 | the weighted mean is zero without a positive weight, a single weighted part's own score, and adds up over two lists when multiplied by the total weight; negative weights count as zero |
| MeanLaws.LawsDetermineTheMean | packages/scoring/src/capability.ts:64-72 | no other function has these laws |
| ScoreMeaning.BreakdownMeaning | packages/scoring/src/capability.ts:60-158 | a track erred if and only if a required component naming it did, and passed if and only if all of them passed and, for a required track, there is one; likewise dimensions; the whole erred if and only if a required track or dimension did and passed if and only if all of them did; every score is the rounded mean over exactly its components, the total that over the dimensions by weight |
| ScoreMeaning.AggregationMeaning | packages/scoring/src/capability.ts:87-120 | the aggregation throws exactly for the first broken check, in order, and returns a breakdown if and only if none is broken |
| Scoring.BreakdownStaysInUnit | packages/scoring/src/capability.ts:60-158 | components in [0,1] give tracks, dimensions and a total in [0,1] through all roundings |
| Scoring.BreakdownRises | packages/scoring/src/capability.ts:60-158 | raising scores of optional components lowers no track, dimension or total score, through every rounding |
| Scoring.StatusesIgnoreOptional | packages/scoring/src/capability.ts:84-158 | the statuses of tracks, required dimensions and the whole depend on the required components only |
| ScenarioVerdict.VerdictMeaning | packages/scoring/src/capability.ts:241-329 | for any graph, also with edges to unknown nodes: it passes if and only if all required nodes passed, all distractors were ignored, every required revision is recorded, every required fault was recovered without error and every required edge has known endpoints; it errs if and only if a required node, or the node of a required fault, erred |
| ScenarioVerdict.OrderingEdgesNeverDecide | packages/scoring/src/capability.ts:281-329 | replacing the edges by any others with the same required `revises` edges changes the status if and only if the scenario is satisfied and exactly one of the two edge lists names an unknown node in a required edge |
| ScenarioVerdict.ProjectionConserves | packages/scoring/src/capability.ts:331-349 | the public counts add up to the number of nodes, edges and faults |
| ScenarioParts.EvaluationMeaning | packages/scoring/src/capability.ts:241-329 | the result of every node, edge and fault: id, status, score, weight and whether it is required; and the graph score as the rounded mean over all of them |
| ScenarioParts.EvaluatorMeaning | packages/scoring/src/capability.ts:241-254 | which of its four refusals the evaluator throws, and that it otherwise returns that evaluation |
| ScenarioParts.ProjectionMeaning | packages/scoring/src/capability.ts:331-349 | the projection keeps status and score; each count is the number of satisfied, or of erred, nodes, edges and faults, and the rest has failed |
| ScenarioVerdict.EvaluationNeverThrows | packages/scoring/src/capability.ts:241-254 | an accepted graph with one outcome per known node passes every check of the evaluator |
| ScenarioVerdict.PartsStayInUnit | packages/scoring/src/capability.ts:241-329 | all part scores and the graph score stay in [0,1] |
| CapabilityAggregation.BuildCapabilityAttemptEvaluation | apps/hosted-orchestrator/src/capability-aggregation.ts:253-287 | the imperative pipeline returns or throws what `EvaluationMeaning` characterises |
| ComponentMeaning.SessionComponentsMeaning | apps/hosted-orchestrator/src/capability-aggregation.ts:82-160 | a session component exists if and only if the first coverage entry for its session lists the dimension: the final state with the session's own status and score, the evidence over its required in-range evaluators, the cost linear between the two budgets |
| ComponentMeaning.GraphComponentsMeaning | apps/hosted-orchestrator/src/capability-aggregation.ts:203-251 | each edge and each fault whose node's selected coverage lists the dimension gives a component with its own status, score, weight and requirement, and there are no others |
| ComponentMeaning.OutcomeMeaning | apps/hosted-orchestrator/src/capability-aggregation.ts:162-201 | a node's outcome is that of the last session of its task; a distractor has none if and only if its first avoidance evaluator passed; a revision is recorded if and only if a revising edge's proof evaluator passed |
| ScenarioSolvability.OutcomeIsOfNode | apps/hosted-orchestrator/src/capability-aggregation.ts:162-201 | in an accepted graph the evaluator finds for each node exactly that outcome |
| EvaluationMeaning.AttemptMeaning | apps/hosted-orchestrator/src/capability-aggregation.ts:253-287 | for every published manifest and attempt, the breakdown sums up exactly these components, each once, and the scenario is the projected evaluation of these outcomes |
| EvaluationMeaning.RefusalMeaning | apps/hosted-orchestrator/src/capability-aggregation.ts:253-268 | metadata is refused if and only if there is a graph without a matrix, or a matrix or else a graph that the schema does not accept |
| CapabilityGuarantees.KeysIdentify | apps/hosted-orchestrator/src/capability-aggregation.ts:82-251 | component ids of the five families coincide only for the same family and the same source |
| CapabilityGuarantees.EvaluationNeverThrows | apps/hosted-orchestrator/src/capability-aggregation.ts:253-287 | for every manifest the suite schema accepts and sessions with distinct ids and scores in [0,1], none of the throws is reached and all scores stay in [0,1] |
| CapabilityGuarantees.InteractionCostNeverDecides | apps/hosted-orchestrator/src/capability-aggregation.ts:93-122 | two attempts that differ in recorded costs only get the same track, required-dimension, scenario and suite statuses |
| CapabilityGuarantees.LowerCostNeverLowersScore | apps/hosted-orchestrator/src/capability-aggregation.ts:93-122 | lowering recorded costs lowers no score, up to the suite score |
| SuiteScore.SuiteStatusMeaning | packages/scoring/src/index.ts:169-228 | the suite passes if and only if every required part passed, and errs if and only if a required session, the capabilities or the scenario erred |
| SuiteScore.SuiteScoreMeaning | packages/scoring/src/index.ts:189-201 | the score is that of the capabilities, if there are any, and otherwise the rounded mean over sessions and checks together |
| SuiteScore.SuiteScoreInUnit | packages/scoring/src/index.ts:169-228 | the suite score stays in [0,1] |
| CommandProtocol.StepKeepsInv | apps/hosted-orchestrator/src/command-backbone.ts:156-268 | every step of any worker, delivery or interruption keeps the protocol invariant |
| CommandGuarantees.DeliveryGuarantees | apps/hosted-orchestrator/src/command-backbone.ts:156-268 | in every run: an acknowledged well-formed message has a result, written once and equal to every reply; the retry counter never exceeds the limit; handler calls are bounded per interruption; a dead-letter result follows a completed report with exactly the limit of attempts, and any other result was returned by the handler for that command |
| CommandGuarantees.RepliesAreBacked | apps/hosted-orchestrator/src/command-backbone.ts:211-253 | in every run on any number of partitions, whatever is stored or pushed is a value the handler returned for that command, or a reported dead letter |
| CommandGuarantees.SuccessCanBeDeadLettered | apps/hosted-orchestrator/src/command-backbone.ts:211-247 | for every limit and every value: a run without interruption in which the handler returns the value and a dead letter is stored |
| CommandSuccess.InterruptedSuccessCanBeDeadLettered | apps/hosted-orchestrator/src/command-backbone.ts:168-253 | for every limit and every value: a run in which the handler returns the value, every clearing after a success works, an interruption follows and a dead letter is stored |
| CommandSuccess.ReturnedValueIsStored | apps/hosted-orchestrator/src/command-backbone.ts:211-253 | in every run with one partition per command in which no clearing fails at a command's last attempt and no interruption falls between its success and its result: once the handler has returned for it, its stored result is a returned value and never a dead letter |
| CommandGuarantees.ResultIsFinal | apps/hosted-orchestrator/src/command-backbone.ts:168-177 | once stored, a result is never changed or written again and the handler is never called for it |
| CommandGuarantees.ProcessingTerminates | apps/hosted-orchestrator/src/command-backbone.ts:182-253 | an uninterrupted worker always has a next effect and a decreasing measure, so the retry loop ends |
| CommandGuarantees.TwoPartitionsWriteTwice | apps/hosted-orchestrator/src/command-backbone.ts:168-253 | one command id on two partitions, whether its payload parses or not: a run that writes its result twice |
| CommandGuarantees.SingleResultIffOnePartition | apps/hosted-orchestrator/src/command-backbone.ts:320-336 | no run writes a second result if and only if every command id is published to one partition |
| CommandWorker.Worker.ProcessMessage | apps/hosted-orchestrator/src/command-backbone.ts:162-255 | processing follows the protocol, acknowledges the message, and stores and pushes the answer that the persisted counter and the handler's outcomes determine; it changes nothing else when a result was already there |
| CommandWorker.Worker.AttemptUntilSettled | apps/hosted-orchestrator/src/command-backbone.ts:211-247 | the retry loop follows the protocol and ends with the response that the handler's outcomes within the remaining attempts determine |
| CommandWorker.ExpectedMeaning | apps/hosted-orchestrator/src/command-backbone.ts:211-247 | that response is a dead letter if and only if no attempt settles, an attempt settling when the handler returns and, at the last attempt, its keys are also cleared; otherwise it is the first value returned |
| PartitionLeases.OneConsumerUnlessExpired | apps/hosted-orchestrator/src/command-backbone.ts:109-142 | as long as no lease expires under a starting worker, two workers consume one partition only after a lease of one of them on it expired |
| PartitionLeases.RollbackCanAdmitTwoConsumers | apps/hosted-orchestrator/src/command-backbone.ts:112-118 | a run in which an expiry under a starting worker lets its rollback free another worker's lease, so that two workers with unexpired leases consume one partition |
| PartitionLeases.ExclusiveIffAllShort | apps/hosted-orchestrator/src/command-backbone.ts:109-142 | with duplicate-free assignment lists, as `parseWorkerPartitions` makes them, and leases expiring at any moment: in every run two workers consume one partition only after a lease of one of them on it expired, if and only if no list names more than one partition |
| PartitionLeases.LostLeaseEndsAtRenewal | apps/hosted-orchestrator/src/command-backbone.ts:123-133 | a worker that has lost a lease never gets it back and stops consuming at its next renewal of it, whatever else happens |
| PartitionLeases.GivesUpOnlyAfterExpiry | apps/hosted-orchestrator/src/command-backbone.ts:123-133 | as long as no lease expires under a starting worker, a worker gives up only after a lease of its own has expired |
| PartitionLeases.StoppingGivesBack | apps/hosted-orchestrator/src/command-backbone.ts:135-142 | a worker that stops undisturbed gives back every lease it still owns, and no other lease changes |
| AttemptInitialization.InitializationIsIdempotent | apps/hosted-orchestrator/src/idempotent-initializer.ts:7-35 | for any interleaving, with locks contended, absent or expiring: at most one attempt per run and case, and every caller that returns holds it with its full set of sessions |
| AttemptInitialization.OwnRevisionIffAgreement | apps/hosted-orchestrator/src/server.ts:715-849 | callers are always given an attempt of their own revision if and only if confusable callers agree on the revision |
| AttemptInitialization.AgreementGivesOwnRevision | apps/hosted-orchestrator/src/server.ts:918-966 | with agreement, whoever returns holds an attempt of its own revision |
| AttemptInitialization.LockExcludes | apps/hosted-orchestrator/src/server.ts:968-990 | in every run in which a lock does not expire, at most one caller works under it and the lock is that caller's |
| AttemptInitialization.ExpiryAdmitsTwo | apps/hosted-orchestrator/src/server.ts:968-990 | one expiry suffices for two callers to work under the same lock |
| AttemptInitialization.OnlyOwnerCreates | apps/hosted-orchestrator/src/idempotent-initializer.ts:14-34 | in every run with a reachable lock that does not expire, only its owner creates; whoever finds it taken recovers |
| AttemptInitialization.ReturnedHoldsNoLock | apps/hosted-orchestrator/src/idempotent-initializer.ts:14-34 | in every run a caller that has returned holds no lock |
| AttemptInitialization.FinishedHoldsNoLock | apps/hosted-orchestrator/src/idempotent-initializer.ts:29-34 | in every run a caller that failed has given its lock back too, unless it crashed or the release itself failed |
| AttemptInitialization.CreatesAlone | apps/hosted-orchestrator/src/idempotent-initializer.ts:14-34 | an undisturbed caller without an attempt and with a free lock creates one with all its sessions, returns it and leaves the lock free |
| AttemptInitialization.FindsAlone | apps/hosted-orchestrator/src/idempotent-initializer.ts:14-18 | an undisturbed caller returns its complete attempt and writes nothing |
| AttemptInitialization.WaitsHundredPolls | apps/hosted-orchestrator/src/server.ts:715-849 | a caller whose attempt stays without its sessions fails after exactly a hundred polls |
| AttemptInitialization.LatecomerIsRefused | apps/hosted-orchestrator/src/server.ts:918-945 | whoever looks for an attempt that exists with another revision is refused, whatever else happens |
| AttemptInitialization.CallerTerminates | apps/hosted-orchestrator/src/idempotent-initializer.ts:14-34 | every caller ends after a bounded number of its own steps |
| AttemptLifecycle.BuildAttemptUpdate | apps/hosted-orchestrator/src/attempt-lifecycle.ts:287-466 | the maps and lists filled in loops give exactly the specified update |
| AttemptGuarantees.UpdateAtActive | apps/hosted-orchestrator/src/attempt-lifecycle.ts:350-466 | with exactly the sessions before the active one persisted, the update promotes the following session, or for the last one carries the aggregate over all results |
| AttemptGuarantees.ActiveSessionCompletes | packages/database/drizzle/migrations/0001_portable_routines.sql:156-325 | completing the active session from a fresh reading is never refused and moves the attempt on by one; the score appears exactly with the last session |
| AttemptGuarantees.CompletionNeverRaises | packages/database/drizzle/migrations/0001_portable_routines.sql:278-297 | in every reachable state `cannot be promoted` is not raised, and the reply is what is persisted |
| AttemptGuarantees.TimeoutKeepsProgress | packages/database/drizzle/migrations/0001_portable_routines.sql:328-403 | timing out or cancelling keeps finished sessions and closes exactly the rest |
| AttemptGuarantees.LifecycleIsSerial | apps/hosted-orchestrator/src/attempt-lifecycle.ts:508-541 | after any interleaving of completions, timeouts and cancellations the finished sessions are a prefix with the pointer at the next one; the aggregate exists if and only if all sessions have results, and is built from one real result per session |
| AttemptGuarantees.FinishedWorkersAgree | apps/hosted-orchestrator/src/attempt-lifecycle.ts:487-541 | everyone who finishes a session is answered with the one persisted result, and all aggregates handed out are the same |
| AttemptGuarantees.OneFirstCompletion | packages/database/drizzle/migrations/0001_portable_routines.sql:185-325 | after any interleaving exactly one of those who completed a session was told that it was no duplicate, and the persisted result is the one it brought |
| AttemptGuarantees.EndedAttemptsAreFinal | packages/database/drizzle/migrations/0003_attempt_cancellation.sql:37-49 | an ended attempt never changes again; no result or score is overwritten |
| AttemptGuarantees.AdvanceIsNeverPremature | packages/shared/src/index.ts:127-161 | whichever of its two readings is older, `resolveAdvance` says complete if and only if both saw an ended attempt, and otherwise names a session that was active |
| AttemptGuarantees.AdvanceOfAnyReadings | packages/shared/src/index.ts:127-161 | for any two readings: invalid if and only if the session is not of the attempt; the metadata's pointer decides, then the first active session, then the first open one; complete only if nothing is named and nothing is open |
| AttemptGuarantees.SerialCompletionsFinish | packages/database/src/hosted-orchestrator/repository.ts:90-115 | from creation, any list of results can be completed in order and ends the attempt with exactly these results |
| AttemptScoring.NoCompletionThrows | apps/hosted-orchestrator/src/attempt-lifecycle.ts:381-440 | for an accepted manifest and results with scores in [0,1], after any interleaving, the evaluation throws for no worker that is about to complete a session, whatever telemetry it reads |
| AttemptScoring.AggregateEvaluatesThePersistedResults | apps/hosted-orchestrator/src/attempt-lifecycle.ts:381-440 | once all sessions have results, after any interleaving, the attempt's score is the suite score over the capability evaluation of exactly the persisted results, and lies in [0,1] |
| StoredScore.StoredScoreMeaning | apps/hosted-orchestrator/src/attempt-lifecycle.ts:381-447 | once all sessions have results, after any interleaving, each session was evaluated with its own persisted result; the stored score is that of the capabilities, or else the mean over results and checks; it passed if and only if every required session, every required check, the capabilities and the graph did, and erred if and only if a required session, the capabilities or the graph did; only then the attempt is failed |
| AttemptScoring.SerialCompletionsAreEvaluated | apps/hosted-orchestrator/src/attempt-lifecycle.ts:487-541 | from creation, any list of results with scores in [0,1] can be completed in order with every completion evaluated |
| RunOutcome.OneOutcome | packages/database/src/web-control-plane/repository.ts:140-219 | for any interleaving of completions, cancellations and annotations: at most one winner and one outcome event; row, event and artifacts, file by file, are those of the winner's request, and every other answer is the winner's row |
| RunOutcome.OutcomeIsFinal | packages/database/src/web-control-plane/repository.ts:140-219 | the row with score and completion time, the artifacts and the outcome event of an ended run never change |
| RunOutcome.SecondWinnerIffReopened | packages/database/src/web-control-plane/repository.ts:118-138 | an event appended to an ended run lets a second request win if and only if it reports a connected or running agent |
| RunOutcome.AppendedOutcome | apps/web/lib/db.ts:487-514 | an event appended to an open run ends it with no winner, ever, if and only if it reports completion or failure; an event that announces an outcome leaves one outcome event on an open run and two on an ended one; the status moves as reported, the completion time is set only with an end, and score, message and artifacts stay |
| RunOutcome.CancelledEventThenWinner | packages/database/src/web-control-plane/repository.ts:118-138 | after an appended cancellation on an unlocked open run, a winner can follow and announce a second outcome |
| RunOutcome.AnnotationCanStepBack | apps/web/lib/run-metadata.ts:57-89 | from any new run that waits for its agent: a run in which an annotation commits `agent_connected` over a status that was running |
| RunOutcome.AnnotationFollowsIffFresh | apps/web/lib/run-metadata.ts:57-89 | whatever happens between an annotation's first reading of the status and its commit, it writes the status that follows the current one if and only if the status is the one it read or the two are waiting and connected |
| RunOutcome.HelloIffStillWaiting | packages/database/src/web-control-plane/repository.ts:221-243 | in every run an annotation announces the agent if and only if the run was waiting for it both at the first reading and at the commit |
| RunOutcome.ForeignCancelLearnsNothing | packages/database/src/web-control-plane/repository.ts:179-217 | in every run a cancellation by someone else never gets as far as its update and is answered with nothing |
| RunRace.CommitCloses | packages/database/src/web-control-plane/repository.ts:146-175 | a committing winner leaves exactly its row, its artifacts and its one event |
| FaultMachine.SessionMetadata.ObserveDeterministicFault | apps/hosted-sites/src/runtime/deterministic-faults.ts:84-127 | one request reads, updates and stores the state as specified and reports exactly what was injected or recovered |
| FaultMachine.StateRoundTrip | apps/hosted-sites/src/runtime/deterministic-faults.ts:59-82 | a stored fault state is read back unchanged |
| FaultMachine.UnreadableFallsBack | apps/hosted-sites/src/runtime/deterministic-faults.ts:59-82 | without the right version and counters the state is empty, and otherwise every unreadable field falls back by itself |
| FaultGuarantees.SessionScheduleOk | apps/hosted-orchestrator/src/scenario-runtime.ts:8-26 | the schedule of a session of an accepted graph has distinct ids and distinct triggers |
| FaultGuarantees.CountersAgree | apps/hosted-sites/src/server.ts:285-313 | read and navigation counters always equal the number of read requests, the mutation counter that of mutations |
| FaultGuarantees.CounterCountsItsAction | apps/hosted-sites/src/runtime/deterministic-faults.ts:84-97 | over requests with any action lists every counter is the number of requests that carried its action |
| FaultGuarantees.DueIsUnique | apps/hosted-sites/src/runtime/deterministic-faults.ts:114-117 | at most one fault is due per request, and each fault at one request only |
| FaultGuarantees.EveryStateIsSound | apps/hosted-sites/src/runtime/deterministic-faults.ts:84-127 | in every reachable state each fault was applied at most once, recovered faults were applied, and the applied faults that require recovery are the recovered ones plus the single pending one |
| FaultGuarantees.InjectedIffDueAndClear | apps/hosted-sites/src/runtime/deterministic-faults.ts:95-127 | a request injects a fault if and only if its counter reaches the trigger and no recovery is pending |
| FaultGuarantees.AppliedIffDueWhileClear | apps/hosted-sites/src/runtime/deterministic-faults.ts:95-127 | over a whole session, a fault was applied if and only if it came due while nothing was pending |
| FaultGuarantees.RecoveredByFirstMatchingRequest | apps/hosted-sites/src/runtime/deterministic-faults.ts:99-112 | a pending fault is recovered by the first later request with its action, and nothing is injected before |
| FaultGuarantees.AnswersMatchFaults | apps/hosted-sites/src/runtime/deterministic-faults.ts:84-127 | at any request, what is answered names an injection or a recovery exactly when one happens, never both, with the kind of the one fault it concerns |
| FaultRecovery.AdjacentExclude | apps/hosted-sites/src/runtime/deterministic-faults.ts:84-127 | whatever is requested, a fault that requires recovery and one of its class due one request later are never both applied |
| FaultRecovery.RecoverableIffNoCollision | apps/hosted-sites/src/runtime/deterministic-faults.ts:84-127 | some sequence of requests recovers every required fault of a schedule if and only if no two required faults of one request class trigger at adjacent occurrences |
| ScenarioSolvability.PassableIffSolvable | packages/test-cases/src/capability-benchmark.ts:214-305 | some attempt, with recoveries as its sessions' fault machines record them, passes an accepted graph if and only if no task has such two faults and no required fault is placed on a distractor and no required revision leads to one |
| Confidence.RootsAreTheSolutions | packages/scoring/src/calibration.ts:90-95 | the quotients with a plus and a minus margin are the only two solutions of the score equation |
| Confidence.RootsInUnit | packages/scoring/src/calibration.ts:90-95 | both solutions lie in [0,1], one on each side of the proportion |
| Confidence.BoundsAreTheSolutions | packages/scoring/src/calibration.ts:89-95 | for any quantile the bounds around the center are exactly the two solutions of the score equation and lie in [0,1] around the proportion |
| Confidence.WilsonIsExact | packages/scoring/src/calibration.ts:85-103 | the interval rounds exactly these solutions: neither clamp fires |
| Confidence.WilsonOrdered | packages/scoring/src/calibration.ts:85-103 | after rounding, 0 <= lower <= estimate <= upper <= 1 |
| Confidence.MarginMeaning | packages/scoring/src/calibration.ts:128-132 | the margin of the mean is never negative and vanishes if and only if all values agree |
| Confidence.MarginSquared | packages/scoring/src/calibration.ts:118-132 | the squared margin times n(n-1) is the squared critical value times the squared deviations from the mean |
| Confidence.MeanTimesCount | packages/scoring/src/calibration.ts:118-120 | the mean times the number of values is their sum |
| Confidence.CriticalFalls | packages/scoring/src/calibration.ts:106-112 | the critical values never rise with the sample and reach 1.96 exactly behind the table |
| Confidence.MeanIntervalMeaning | packages/scoring/src/calibration.ts:114-142 | the interval is the rounded mean with the rounded bounds, cut off at the given minimum and maximum |
| Confidence.MeanOrdered | packages/scoring/src/calibration.ts:114-142 | the mean interval encloses its estimate and respects its bounds |
| CalibrationGuarantees.WilsonAndMeanAreOk | packages/scoring/src/calibration.ts:85-142 | the source's two intervals have what every statement about a report relies on: order, natural bounds, sample size, a rounded estimate |
| Text.SortedUniqueMeaning | packages/scoring/src/calibration.ts:148-151 | deduplicating and sorting lists each value once in ascending order |
| Text.LessMeaning | packages/scoring/src/calibration.ts:148-151 | the order puts a proper prefix first and otherwise decides at the first difference |
| CalibrationGuarantees.ReadyMeaning | packages/scoring/src/calibration.ts:224-245 | a report is ready if and only if enough families occur in both cohorts and each has enough seeds in both |
| CalibrationGuarantees.AnswerMeaning | packages/scoring/src/calibration.ts:195-268 | observations are accepted if and only if the revisions differ, all are well formed, no identity key repeats and both revisions occur; an accepted report has no reasons against it if and only if the two cohorts have enough families and seeds |
| ReportMeaning.RefusalMeaning | packages/scoring/src/calibration.ts:203-222 | which refusal is thrown, in the order of the checks |
| ReportMeaning.CohortsMean | packages/scoring/src/calibration.ts:144-193 | both cohorts of an accepted report field by field: counts by status, pass rate, the means of times and costs, every family and every track with its own counts, scores and rate |
| ReportMeaning.ListsMean | packages/scoring/src/calibration.ts:224-245 | the families in both cohorts in order, and exactly the reasons that hold |
| ReportMeaning.HarderMeans | packages/scoring/src/calibration.ts:246-266 | `measurablyHarder` if and only if there is enough data and the whole pass-rate interval of the candidate lies below the baseline's; the difference is that of the estimates |
| Calibration.BuildCalibrationReport | packages/scoring/src/calibration.ts:195-268 | the nested loops and refusals give the answer that `AnswerMeaning` and `ReportMeaning` characterise |
| CalibrationGuarantees.SeedsAreRuns | packages/scoring/src/calibration.ts:208-245 | in an accepted report a family has as many distinct seeds as runs |
| CalibrationGuarantees.IdentitiesCollideIffPrefix | packages/scoring/src/calibration.ts:208-213 | observations of two cohort cells that differ can share an identity key if and only if one joined prefix starts the other |
| CalibrationGuarantees.IdentityExactWithoutColons | packages/scoring/src/calibration.ts:208-213 | without colons in revision and family the key identifies revision, family and seed |
| CalibrationGuarantees.CohortCountsAddUp | packages/scoring/src/calibration.ts:144-193 | status counts and family run counts both add up to the run count, and exactly the families that occur are listed, once |
| CalibrationGuarantees.TrackSampleSize | packages/scoring/src/calibration.ts:168-180 | a track's samples are the runs that report it |
| CalibrationGuarantees.CohortIntervalsAreOrdered | packages/scoring/src/calibration.ts:144-193 | every interval of a cohort encloses its estimate within its natural bounds |
| CalibrationGuarantees.HarderIsAntisymmetric | packages/scoring/src/calibration.ts:261-266 | `measurablyHarder` makes the reported difference negative, and swapping the revisions negates it and cannot also be harder |
| SessionCache.RedisSessionCache.CancelByIds | apps/hosted-sites/src/runtime/session-cache.ts:191-217 | for any scan order with repeats, exactly the cached listed sessions are cancelled, no stored value fails to decode, and the index invariant is kept |
| SessionCache.RedisSessionCache.WriteSession | apps/hosted-sites/src/runtime/session-cache.ts:163-169 | writing a session changes its own two keys and keeps the invariant |
| SessionCache.RedisSessionCache.Get | apps/hosted-sites/src/runtime/session-cache.ts:172-179 | a lookup finds exactly the session cached under its token; a token that starts with `id:` never finds one and fails to decode the index entry it reads |
| SessionCache.RedisSessionCache.Delete | apps/hosted-sites/src/runtime/session-cache.ts:186-189 | deleting removes the session only and keeps the invariant, with a dangling index entry |
| SessionCache.IndexFindsTheSession | apps/hosted-sites/src/runtime/session-cache.ts:194-201 | what the index entry of an id leads to is the session with that id |
| SessionCache.ListedSessionsExactly | apps/hosted-sites/src/runtime/session-cache.ts:191-217 | every cached session that is listed ends cancelled without expiry, also with a missing or dangling index entry, and every other one is unchanged |
| ActionCost.CollectNormalizedActionCosts | apps/hosted-orchestrator/src/action-cost.ts:30-52 | the two maps of the loop compute each session's own cost; a session is listed if and only if it costs something |
| ActionCost.InterleavingNeverCounts | apps/hosted-orchestrator/src/action-cost.ts:30-52 | a session's cost depends on its own events in order only |
| ActionCost.CostCountsNewActs | apps/hosted-orchestrator/src/action-cost.ts:25-52 | the cost is the number of acts that do not repeat the field edit just before them |
| ActionCost.DirectEventSeparates | apps/hosted-orchestrator/src/action-cost.ts:7-52 | a page load, navigation, click or submit costs one and separates the edits before and after it |
| ActionCost.OtherEventsAreInvisible | apps/hosted-orchestrator/src/action-cost.ts:25-52 | an event of any other kind but an edit costs nothing and interrupts no edit, wherever it comes |
| ActionCost.FieldKeyMeaning | apps/hosted-orchestrator/src/action-cost.ts:13-23 | an edit is keyed by the name of its field, without one by its tag in lower case, and otherwise by nothing |
| ActionCost.SplitCostsAtMostOneMore | apps/hosted-orchestrator/src/action-cost.ts:30-52 | splitting a log costs one more if and only if the cut goes through an edit burst |
| RateLimiter.FixedWindowRateLimiter.Check | apps/web/lib/connect-rate-limit.ts:29-52 | a check updates the table as specified, keeps the checked key, and leaves at most the maximum of entries |
| RateLimiter.CheckedKeepsTable | apps/web/lib/connect-rate-limit.ts:36-43 | a check evicts at most the oldest other key, and only from a full table for a new key |
| RateLimiter.SpanAllowsLessThanTwiceTheLimit | apps/web/lib/connect-rate-limit.ts:29-52 | with a clock that never goes back and a key that is not evicted, any span of one window length admits at most one call less than twice the limit |
| RateLimiter.TwiceTheLimitLessOneIsReached | apps/web/lib/connect-rate-limit.ts:21-52 | every configuration reaches that bound |
| RateLimiter.MeterReadsTheLimiter | apps/web/lib/connect-rate-limit.ts:45-51 | the calls counted by the bound are those the limiter answered with `allowed` |
| RateLimiter.RemainingIsExact | apps/web/lib/connect-rate-limit.ts:45-51 | exactly the announced number of further checks at the same moment is allowed |
| RateLimiter.RetryAfterIsEnough | apps/web/lib/connect-rate-limit.ts:45-51 | the advised time is at least a second, and after it the next check of the key is allowed |
| RateLimiter.RetryAfterIsLeast | apps/web/lib/connect-rate-limit.ts:45-51 | for a key that has used up its limit no smaller number of seconds is enough |
| RateLimiter.ResetIsExact | apps/web/lib/connect-rate-limit.ts:45-51 | such a key is allowed again exactly from `resetAt` on |
| RateLimiter.ConfigureMeaning | apps/web/lib/connect-rate-limit.ts:21-27 | an option at or above its minimum is kept up to its fraction, and one below is raised to it |

## Left out

- Arithmetic is over exact reals: floating-point error is not modelled, and rounding is `toFixed(4)` for values below 1e21.
- `Math.sqrt` and `String.toLowerCase` are parameters; of the square root only its defining equation is assumed.
- Redis and Postgres drivers, HTTP routing, zod itself, JSON text, hashing, random ids and token signing: each call is one atomic effect, each decoded value a datatype.
- Key TTLs and MAXLEN trimming in the command processor; leases and initialization locks may expire at any moment instead.
- `maxCommandAttempts`, partition counts and lease durations are numbers already truncated and clamped; retry delays are not modelled.
- One consumer per partition is assumed by the command protocol; `PartitionLeases` states exactly when it can be lost without an expired lease.
- A raw metadata value that is not a record, and `readSchedule` on malformed schedules: schedules come from an accepted graph.
- The evaluators that score a session and the consistency checks of a suite are not modelled; their results are inputs, and so are the variants, recovered faults and action costs that the last completion reads.
- The lifecycle covers one attempt whose sessions all belong to it; sessions that were never persisted, the Supabase fallback with the same queries, callbacks, cache invalidation and expiry times are left out.
- `createAttemptWithSessions` is modelled for suites whose sequence indexes are the positions, which `SuiteManifest.Validate` enforces.
- The `scoring` session status can be read but nothing in the model writes it, as nothing in the source does.
- The read-then-update race of `cancelByIds` with a concurrent writer of the same session: each cache operation runs alone.
- RunOutcome.OneOutcome: appended events that announce an outcome or move an ended run are excluded; what they do is stated exactly by `RunOutcome.SecondWinnerIffReopened`, `RunOutcome.AppendedOutcome` and `RunOutcome.CancelledEventThenWinner`.
- RateLimiter.SpanAllowsLessThanTwiceTheLimit: says nothing of a key that is evicted between its calls, because its counter then starts over.
- The live view URL that a `run.running` event can carry into the run's row.
- Non-finite limiter options and clock values.
- Sorting compares characters by code point, not by UTF-16 unit.
- `createSingleFlight`, the read-only diagnostics, log redaction, auth, cookies, parsers, search ranking and the user interface are not part of this model.
