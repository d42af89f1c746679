# Mitigation-check verification

A Dafny model of the mitigation-check service, with proofs about the three parts of it that carry its promises:

* **the lease-fenced run lifecycle** (`api/lifecycle_store.go`, `api/worker.go`, `api/databricks.go`,
  `api/callback.go`): any number of workers drive a run through guarded updates of one ledger row, publish its result
  once to an insert-only table, and announce it through an outbox;
* **the shared contract** (`api/shared_contract_v2.go`): the coverage walk, the completeness check, the bundle check,
  the WAF that a bundle is compiled to and its evaluation, and the accounting of the results;
* **canonical JSON** (`api/executor_locator.go`, `api/shared_contract_catalog.go`, `api/shared_contract_v2.go`): the
  RFC 8785 writer and its key order, the string encoder, the duplicate-key check, and JSON pointers.

`dafny verify dfyconfig.toml` verifies everything. Nothing here executes the service.

## How the model is laid out

**The lifecycle** is a step system. `Ledger` has the row, one `Statement` for each guarded update (`Matches` is its
WHERE clause, `Written` its SET clause), `Sink` the insert-only table. `Protocol` puts them together: rows, a clock, drawn
identifiers, one program counter with the local variables of `executeOne` for every activation, MERGE statements in
flight, and the table. A run of the system is any sequence of actions: leases, single steps of an activation, heartbeats,
crashes, cancellations, sweeps, late or repeated MERGEs, callback claims. A store call that ends in an error makes
`executeOne` return, so it is a crash before the statement or after it. `Invariant` and `Preservation` have the inductive
invariant, `Safety`, `LateExecution`, `Progress`, `Endings`, `Timing`, `Reasons` and `Outbox` what follows from it for
whole runs. `RunStore` and `Worker`
are the imperative side: a class with one method for each statement, and `executeOne` written out step by step with
everybody else moving between any two of its steps. Its methods are proved to be steps of the machine, so every theorem
about runs is a theorem about it; and what it does to the world, in order (entering the executor, each statement and its
answer, its report, the flags of its heartbeat goroutine, the MERGE, each readback), is proved to follow the `Script` of
`Activations`, branch by branch.

**The shared contract** is a set of methods with loops, as in the source, each proved to accept exactly the documents
that satisfy a stated condition; the lemmas then say what that condition gives. `Refs` has typed references and the set
helpers, `Coverage` the walk, `Semantics` the documents, then `Completeness` and `Mirror`, `BundleDigests` and `Bundle`,
`Waf`, `WafEvaluation` and `WafMeaning`, `Accounting`; `Witnesses` has a document and a bundle that are accepted.

**Canonical JSON**: `JsonValues`, `Utf16`, `CanonicalJson`, `CanonicalText`, `DuplicateKeys`, `JsonPointer`.

## What is assumed

* `newID` never repeats a value; every run has its own result_id and request_id; `now()` never goes back.
* The attempt limit and the verification limit are positive. Durations count nanoseconds and are not negative.
* Nobody else writes the result table. A SELECT sees every MERGE that has returned.
* An executor's outcome carries the identity of its run, and an accepted payload is the marshalling of its outcome
  (`validateCanonicalResultPayload`), so an outcome stands for its bytes.
* Go's `json.Decoder` hands out tokens as modelled in `DuplicateKeys.Decoder`.
* Of the number encoder only this: the numbers that numerals stand for are written as numerals, different ones
  differently. `CanonicalText.FaithfulEncodersExist` has an encoder that meets it.
* Of SHA-256 nothing: where equal digests are used, the alternative is that two given texts collide.

## Where the code and its documentation disagree

* `README.md:94-95` says that recovery republishes the same staged bytes. The code (`api/worker.go:239-269`) only reads
  back once publication_pending is durable; it publishes again only a result that was staged but not yet pending. The
  model follows the code.
* The state diagram of `mitigation-check-lld.md:111-119` has no way from delivering back to delivering; the code lets
  a claim take over a delivery whose lease has run out (`api/lifecycle_store.go:663-667`).
* `README.md:94-95` also says that recovery never reruns the check. But `LeaseNext` and the call of the
  executor are two steps, and an activation that stalls between them can start after another one has staged. The promise
  holds exactly when a run has a single attempt (`LateExecution.LateExecutionsNeedRetries`); an activation that still holds
  its lease always keeps it (`Safety.HolderExecutesUnstagedOnly`).

## What else the code does

* The rules of a prepared WAF and the carrier bindings need not correspond one to one: the duplicate guard
  (`api/shared_contract_v2.go:1272`) looks at the identifier of the earlier rule, so a rule without one is silently
  replaced by a later rule for its component (`Waf.UnnamedRuleIsLost`). And the joined keys of that loop are ambiguous as
  soon as a part holds a NUL (`Waf.KeyIsUnambiguous`), so two rules can use one binding and leave another one idle
  (`Waf.NulSharesABinding`). `Waf.BijectionExactly` has the exact condition: no two rules share a component, and no two
  share a joined key.
* Route-bound alternatives are compared with the coverage lists by joined keys only, so a list that names one component
  with a NUL in it is accepted for the conjunction of two (`Waf.NulListIsMisread`). Conditions that can be checked
  beforehand are in `Waf.RouteBoundByKeys` (when the keys tell the coverage lists apart: no alternative has the key of
  another list) and `Waf.RouteBoundUnlessNul` (when the rules' components hold no NUL: no coverage list does).
  `Waf.RouteBoundExactly` needs neither hypothesis, but where two lists share a key it can only ask for both of them on
  both sides.
* `canonicalJSONString` (`api/executor_locator.go:953-954`) replaces the text of two escapes after escaping, and so also
  hits a string that holds a backslash followed by u2028 or u2029; its output is then not JSON. It is right exactly for all
  other strings (`CanonicalText.CanonicalUnlessSpelled`), and it still tells all strings apart
  (`CanonicalText.CanonicalStringDelimits`).

## Model

| member | source | states |
|---|---|---|
| `Preservation.StepKeepsInv` | api/worker.go:84-295 | any step by anybody keeps the invariant that ties each activation's local variables, however stale, to the row it was leased from |
| `Preservation.RunKeepsInv` | api/worker.go:58-295 | the invariant holds after every run of the system, whatever workers crash, lose leases or race a cancellation |
| `Preservation.ReadbackNeverConflicts` | api/databricks.go:145-174 | an activation past the cutoff never reads back a conflicting row, so the conflict branch is dead as long as nobody else writes the table |
| `Safety.CompletedMeansPublishedExactly` | api/worker.go:195-317 | in every reachable system a completed run has exactly one sink row for its result_id, with its run_id and exactly the ledger's staged bytes |
| `Safety.CompletedStaysPublished` | api/databricks.go:97-174 | that stays so for ever, whatever MERGE lands later |
| `Safety.SinkHoldsOnlyStagedResults` | api/databricks.go:184-188 | every sink row is the staged result of its run and the only row of its key |
| `Safety.StagedForGood` | api/lifecycle_store.go:405-418 | the bytes first staged are never replaced, and the publication cutoff once passed is never undone, over whole runs |
| `Safety.StatusFollowsGraph` | README.md:121-124 | every status change is a documented edge, and recovery ends a run only when its lease is over |
| `Safety.TerminalIsFinal` | README.md:123-124 | after a terminal status no step ever changes status, result, response, completion, failure, cancellation or retry count |
| `Safety.EffectsAreBounded` | api/worker.go:151-165 | the executor is entered at most maxAttempts times for a run, by different activations, and MERGE is issued at most once, after the cutoff |
| `Safety.CutoffHappensOnce` | api/lifecycle_store.go:544-554 | once the cutoff is passed MarkPublicationPending never matches the row again |
| `Safety.HolderExecutesUnstagedOnly` | api/worker.go:151-165 | an activation that still holds its lease enters the executor only while nothing is staged or pending |
| `LateExecution.LateExecutionsNeedRetries` | api/worker.go:58-165 | executions never start after staging, in every run, if and only if one attempt is allowed; otherwise a concrete run starts one late |
| `Progress.UndisturbedRunCompletes` | api/worker.go:84-295 | from any reachable state, an undisturbed activation about to execute, with a live lease on an uncancelled run, completes it in twelve steps with one execution and one MERGE, and its sink row is exact |
| `Progress.StagedRunCompletes` | api/worker.go:151-295 | an activation that recovered a staged result before its cutoff completes the run without another execution and with one MERGE |
| `Progress.PendingRunVerifies` | api/worker.go:239-317 | an activation that recovered a result past its cutoff executes and merges nothing: the run completes if its row is in the sink, is requeued with the delay of its number of retries if it is not, and fails when none is left |
| `Progress.AmbiguityIsVerified` | api/worker.go:264-282 | an ambiguous answer to the MERGE, or a readback that is not exact or not answered, is verified when the publisher can verify and tried again later otherwise |
| `Progress.RefusalIsRetried` | api/worker.go:224-282 | a publisher that refuses before the MERGE, or cannot verify a recovered run, leaves it to a later retry, with no MERGE issued |
| `Endings.SeenCancellationCancels` | api/worker.go:166-174 | from every reachable state in which an activation has noticed a cancellation before the cutoff, has its outcome and is named by its row, two steps cancel the run, whatever the outcome is |
| `Endings.CancellationDuringExecution` | api/worker.go:110-174 | a run asked to stop while its first result is computed is canceled by its holder three steps after the next heartbeat; nothing is staged or published |
| `Endings.CancellationAtStaging` | api/worker.go:200-222 | a cancellation no heartbeat noticed makes the staging fail, and is then committed |
| `Endings.CancellationAtFence` | api/worker.go:240-252 | and at the latest the heartbeat before the cutoff finds it, and it is committed |
| `Endings.ExecutorErrorFails` | api/worker.go:156-186 | an executor that returns an error or panics fails the run as execution_failed, without a response |
| `Endings.MalfunctionFails` | api/worker.go:187-194 | a malfunctioning check fails the run and leaves its outcome as the response |
| `Endings.NoPublisherFails` | api/worker.go:224-235 | without a publisher, or without a reference, a first publication fails the run; the staged bytes stay |
| `Endings.LostLeaseStops` | api/worker.go:175-178 | an activation that has noticed the loss of its lease, and no cancellation to commit, stops without a statement |
| `Endings.HeartbeatNotices` | api/worker.go:110-137 | a heartbeat of the holder extends the lease to a full one, notices a requested cancellation, and changes nothing else |
| `Endings.HeartbeatMisses` | api/worker.go:124-129 | a heartbeat that finds the row not held notices the loss, and touches no row |
| `Timing.LeasesExactly` | api/lifecycle_store.go:342-378 | LeaseNext hands a run out exactly when its retry time (or creation) has come, nobody holds it, it is not asked to stop before its cutoff and has an attempt or a result left; then for a whole lease, counting the attempt and clearing the retry time |
| `Timing.LeasedOnlyInTime` | api/lifecycle_store.go:342-378 | in any step of any run in which a row comes to be held by another token, its time had come and nobody held it |
| `Timing.RetryIsWaitedFor` | api/lifecycle_store.go:556-578 | over every run of the system, a run requeued after k other retries stays queued at every clock before that time plus base times two to the k |
| `Timing.LiveLeaseIsKept` | api/lifecycle_store.go:342-594 | over every run without steps of its holder, a lease stays with it until it has run out |
| `Timing.ClaimsExactly` | api/lifecycle_store.go:656-688 | an event is claimed exactly when the run is finished, its time has come and no delivery of it is under an unexpired lease, and then for a whole lease |
| `Timing.SettlesExactly` | api/lifecycle_store.go:690-710 | a settlement by the token of the delivery marks it delivered, refused or postponed from now, counts it and frees it; by any other token it does nothing |
| `Timing.PostponementIsWaitedFor` | api/lifecycle_store.go:656-702 | over every run a postponed event is not claimed at any clock before its time |
| `Reasons.EndsForAReason` | api/lifecycle_store.go:420-594 | every ending of a run has its exact occasion: who may cause it, under which columns and clock; a conflict is none, as nobody else writes the result table |
| `Reasons.StagedForAReason` | api/lifecycle_store.go:405-418 | a result is staged only by the live holder of a run not asked to stop and without a result, and is the sound outcome of that activation |
| `Reasons.CutoffForAReason` | api/lifecycle_store.go:544-554 | the cutoff is passed only by the live holder of a run not asked to stop, with its result staged |
| `Reasons.MergesForAReason` | api/databricks.go:97-144 | a MERGE is put on its way only by an activation past the cutoff, with the result it holds, which carries its reference in the result store |
| `Reasons.CancelsExactly` | api/lifecycle_store.go:513-528 | what a cancellation does to a row: a queued one before the cutoff ends, any other open one is flagged, a finished one stays |
| `Reasons.CancelWins` | api/lifecycle_store.go:513-554 | an open run that is asked to stop before its cutoff never completes and never gets a sink row, over any future |
| `Reasons.RecoversExactly` | api/lifecycle_store.go:503-511 | recovery cancels exactly the expired runs asked to stop before their cutoff |
| `Reasons.ExhaustsExactly` | api/lifecycle_store.go:492-501 | and fails exactly the expired ones with no attempt and no result left that were not asked to stop |
| `Reasons.SubmitsExactly` | api/lifecycle_store.go:207-238 | a new request inserts exactly one queued, untried run unless one of its identifiers is taken |
| `Progress.SomeRunCompletes` | api/worker.go:58-295 | some run of the system reaches completed under every valid configuration with a positive lease, so the safety theorems are not empty |
| `Safety.ExactlyOneRecovery` | api/lifecycle_store.go:342-366 | an unfinished run whose lease is over and whose time has come enables exactly one of RecoverCanceled, FailExhausted and LeaseNext, and which one |
| `Safety.NoRecoveryBeforeTime` | api/lifecycle_store.go:342-366 | in every reachable state none of the three touches a run that is finished, whose time has not come, or whose lease is live |
| `Safety.CancelBeforeCutoffWins` | api/lifecycle_store.go:503-554 | a run cancelled while publication is not pending never completes and never gets a sink row |
| `Safety.CutoffBeatsCancel` | api/lifecycle_store.go:530-554 | once publication is pending a run never ends canceled |
| `Safety.StaleTokenIsFenced` | api/lifecycle_store.go:380-594 | a drawn token that does not hold the row never holds it again: every later call carrying it reports not-written and changes nothing |
| `Safety.NewLeaseMakesStale` | api/lifecycle_store.go:342-378 | handing out a lease makes the previous holder stale |
| `Safety.WhoChangesARunningRow` | api/lifecycle_store.go:342-594 | a running row changes only by its holder, by Cancel, or by lease or recovery after expiry |
| `Safety.WhoChangesBetweenLeases` | api/lifecycle_store.go:342-594 | over every run from one lease of a row to the next, whatever happens to it in between: while running it changes only by its holder, by Cancel or by recovery after expiry, while queued again only by Cancel, and once finished only by the outbox |
| `Safety.RetriesAreBounded` | api/lifecycle_store.go:556-578 | at most the configured number of verification retries take effect in any run, fewer while it is unfinished, and the one that reaches the bound has failed it for unverified publication |
| `Safety.RetryWaitsItsDelay` | api/worker.go:319-339 | the retry that takes effect after k others, whoever sends it, requeues the run to wait exactly base times two to the k, held at five minutes, or fails it at the bound |
| `Safety.HolderKnowsItsRetries` | api/worker.go:319-328 | in every reachable state an activation that holds its lease remembers the number of retries in its row, although it computes the delay from its own copy |
| `Backoff.VerificationDelay` | api/worker.go:330-339 | the doubling loop returns base times two to the attempt, held at five minutes |
| `Backoff.DelayBounded` | api/worker.go:330-339 | the ceiling is respected if and only if the configured base respects it, and delays never shrink |
| `Backoff.DelayDoubles` | api/worker.go:330-339 | the first delay is the base, and each attempt doubles it up to five minutes |
| `Sink.MergeInsertsOnce` | api/databricks.go:184-188 | a MERGE never removes or rewrites a row, touches no other key, and repeating it inserts nothing |
| `Sink.ReadbackMeans` | api/databricks.go:145-174 | absent means no row has the key, exact means exactly one row has it and it is the expected one |
| `Sink.DatabricksSink.ExecuteMerge` | api/databricks.go:184-188 | the insert-only MERGE on the table |
| `Sink.DatabricksSink.VerifyPayload` | api/databricks.go:145-174 | the row loop answers exact, absent or conflict exactly by what is stored under the key |
| `RunStores.RunStore.CreateOrGet` | api/lifecycle_store.go:207-238 | a new request inserts a queued run, a repeated one returns the stored run and changes nothing |
| `RunStores.RunStore.LeaseNext` | api/lifecycle_store.go:342-378 | the oldest row whose time has come, that nobody holds and that has an attempt or a result left is leased and no other row changes; nothing is returned only when there is none |
| `RunStores.RunStore.Heartbeat` | api/lifecycle_store.go:380-389 | the guarded lease extension, and whether the row was owned and cancelled |
| `RunStores.RunStore.StageOutcome` | api/lifecycle_store.go:405-418 | the guarded staging of the first result |
| `RunStores.RunStore.MarkPublicationPending` | api/lifecycle_store.go:544-554 | the guarded publication cutoff |
| `RunStores.RunStore.CompletePublished` | api/lifecycle_store.go:424-451 | the guarded completion, refused without an authoritative reference |
| `RunStores.RunStore.Fail` | api/lifecycle_store.go:453-466 | the guarded failure without an outcome |
| `RunStores.RunStore.FailOutcome` | api/lifecycle_store.go:468-490 | the guarded failure with an outcome, which leaves the staged bytes alone |
| `RunStores.RunStore.FailExhausted` | api/lifecycle_store.go:492-501 | all rows out of attempts fail in one statement, no other row changes |
| `RunStores.RunStore.RecoverCanceled` | api/lifecycle_store.go:503-511 | all expired cancelled rows before the cutoff are cancelled in one statement, no other row changes |
| `RunStores.RunStore.Cancel` | api/lifecycle_store.go:513-528 | a queued run before the cutoff is cancelled at once, any other unfinished run is flagged |
| `RunStores.RunStore.MarkCanceled` | api/lifecycle_store.go:530-542 | the guarded commit of a requested cancellation |
| `RunStores.RunStore.RetryVerification` | api/lifecycle_store.go:556-578 | the guarded requeue with a retry time, or the failure that ends the retries |
| `RunStores.RunStore.FailPublicationConflict` | api/lifecycle_store.go:580-594 | the guarded failure on a conflict |
| `RunStores.RunStore.ClaimNextCallback` | api/lifecycle_store.go:656-688 | the longest due event of a finished run is claimed, of the oldest run where several are due since the same time; nothing is returned only when none is claimable |
| `RunStores.RunStore.CallbackSucceeded` | api/lifecycle_store.go:690-695 | the settlement of a delivery by the holder of its lease |
| `RunStores.RunStore.CallbackFailed` | api/lifecycle_store.go:697-702 | the postponement of a delivery by the holder of its lease |
| `RunStores.RunStore.CallbackConfigurationFailed` | api/lifecycle_store.go:704-710 | the refusal of a delivery by the holder of its lease |
| `Worker.RunWorker.ExecuteOne` | api/worker.go:84-295 | with anybody moving between its steps and calls failing anywhere, executeOne takes only steps of the machine and ends; what it does follows its script, and if its calls are answered the whole of it; completed runs stay published |
| `Worker.RunWorker.Send` | api/worker.go:84-295 | one store call: the statement the next step asks for reaches the ledger and its answer decides where the activation goes; without an answer it ends, with the statement applied or not |
| `Activations.ExecutesInSequence` | api/worker.go:195-317 | in whatever executeOne does a completion comes right after an exact readback, a conflict failure right after a conflicting one, the MERGE right after the cutoff was written, and the cutoff right after a heartbeat that found the lease held and no cancellation |
| `Activations.RecoveredOnlyVerifies` | api/worker.go:239-317 | an activation that recovered a result past its cutoff only reads the sink and then sends one completion, conflict failure or retry |
| `Activations.SilentOnlyWithoutLease` | api/worker.go:166-178 | when every call is answered, an activation that sends nothing after its flags has read there that its lease is lost, and no cancellation it had to commit |
| `Activations.SeenCancellationIsSent` | api/worker.go:166-174 | and one that has seen a cancellation before the cutoff sends MarkCanceled and nothing else |
| `Worker.RunWorker.PublishOrReconcile` | api/worker.go:224-295 | from a staged result on, exactly: without a publisher the failure, or the retry past the cutoff; with one, verification only when the cutoff had been passed before the lease, otherwise the fence, the cancellation it reports or the cutoff, and the publication |
| `Worker.RunWorker.Publish` | api/worker.go:260-295 | after the cutoff, exactly: the retry when the publisher refuses, otherwise the MERGE of this very outcome, then completion on an exact readback, and verification or the retry on any other answer |
| `Worker.RunWorker.Reconcile` | api/worker.go:297-317 | exactly one readback, followed by the completion on an exact row, the conflict failure on a conflicting one, and the retry on an absent row or an error |
| `Worker.RunWorker.Poll` | api/worker.go:58-82 | one round of the loop with others moving in between and any of its calls failing: both sweeps, then an oldest leasable run is leased and executed to the end by its script, or nothing is leased because the call failed or no run is leasable |
| `Outbox.WaitsUntilTerminal` | mitigation-check-lld.md:76-87 | with a callback URL the event waits if and only if the run is unfinished, and nobody claims it before |
| `Outbox.AnnouncedWithTheVerdict` | mitigation-check-lld.md:76-87 | an event becomes pending in exactly the step that ends the run; event id and URL never change; settled events never move |
| `Outbox.AnnouncedExactlyOnce` | mitigation-check-lld.md:76-87 | over any run of the system an event becomes pending exactly once if the run ends and never otherwise |
| `Outbox.OutboxIsSeparate` | mitigation-check-lld.md:85-87 | no callback statement alters lifecycle or result fields, and no lifecycle statement on a finished run alters the outbox |
| `Outbox.SettledForGood` | mitigation-check-lld.md:111-119 | delivered and configuration_failed are absorbing |
| `Outbox.ClaimsDoNotOverlap` | api/lifecycle_store.go:656-688 | the holder of a claim keeps it until it settles it or its lease runs out |
| `Outbox.SettlementsByAnswer` | api/callback.go:142-218 | only 202 delivers; exactly transport errors and retryable statuses ask for another attempt, after at least Retry-After |
| `Outbox.CallbackDispatcher.Deliver` | api/callback.go:142-189 | each class of answer makes exactly its one store call |
| `Outbox.CallbackDispatcher.Retry` | api/callback.go:191-201 | the longer of the two delays is scheduled |
| `Refs.SameStringSet` | api/shared_contract_v2.go:935-950 | decides equality with multiplicity, not of sets |
| `Refs.CheckedRefs` | api/shared_contract_v2.go:994-1008 | accepts exactly lists of known references of the right kind and scope without repetition |
| `Refs.Keys` | api/shared_contract_v2.go:986-993 | lists every key once, in the order of the characters |
| `Refs.ListsMeans` | api/shared_contract_v2.go:935-993 | comparing a list with the keys of a map by multiplicity decides that it names each of them exactly once |
| `Coverage.RequirementsDecide` | api/shared_contract_v2.go:807-882 | the walk succeeds if and only if identifiers are unique and everything reachable by paths is known, in scope, acyclic and agrees with its ancestry; it then returns exactly the reachable inputs and members |
| `Coverage.WalkDecides` | api/shared_contract_v2.go:826-878 | the same for every reference and every set of groups already being visited |
| `Coverage.CoverageWalk.Visit` | api/shared_contract_v2.go:826-878 | the recursion that mutates the visiting set computes that walk, terminates on cyclic graphs, and restores the set |
| `Coverage.CoverageRequirements` | api/shared_contract_v2.go:807-882 | the whole function, with its two indexes |
| `Coverage.ReachedIsSound` | api/shared_contract_v2.go:826-878 | when the walk succeeds, every reference a path leads to is in scope and names a component with inputs and members of their kinds, or a group that lists exactly the members below it, and no path meets a group twice |
| `Completeness.ValidateCompleteness` | api/shared_contract_v2.go:423-623 | accepts exactly the complete documents, check by check |
| `Completeness.CheckObligations` | api/shared_contract_v2.go:554-579 | the loop over obligations accepts exactly unique, required obligations that agree with their coverage |
| `Completeness.CheckArtifacts` | api/shared_contract_v2.go:499-539 | the loop over source artifacts, and the counts of what they claim to be the semantics of |
| `Completeness.AcceptancePartitions` | api/shared_contract_v2.go:603-621 | represented and unsupported partition the source members, the source artifacts and the outer inputs, although for the last two only sizes are compared |
| `Completeness.ClaimsAreComplete` | api/shared_contract_v2.go:519-539 | the artifacts that claim the semantics are exactly the represented ones and together claim every component and obligation |
| `Completeness.ObligationsMatchCoverage` | api/shared_contract_v2.go:556-579 | an accepted obligation requires exactly the inputs its coverage reaches, each once, all of them known |
| `Mirror.EachStandsForOne` | api/shared_contract_v2.go:423-553 | in accepted documents every source member, source artifact and test input has an outer one with the same identifier and agreeing in every field that both have |
| `Mirror.EachHasOne` | api/shared_contract_v2.go:423-539 | and every outer member and outer artifact has its source member and source artifact |
| `Mirror.CountsMirrored` | api/shared_contract_v2.go:423-470 | the declared counts are those of both documents |
| `Mirror.ObligationsStayInside` | api/shared_contract_v2.go:554-602 | accepted obligations are required, distinct and ask for known test inputs; unsupported dimensions have a name, a reason and known members and artifacts |
| `Mirror.TestedOrExcused` | api/shared_contract_v2.go:540-621 | every source member, source artifact and outer input is tested by some input or excused by some unsupported dimension, and none both |
| `Mirror.ClaimedAndTested` | api/shared_contract_v2.go:519-539 | an artifact is tested exactly when its outer artifact claims to be the semantics, and these claim every component and obligation |
| `Accounting.AcceptedIsAccounted` | api/shared_contract_v2.go:1050-1100 | for every document the completeness check accepts and whatever the cases come to, the results and counts built pass the validator: the malfunction branch is dead |
| `Accounting.AccountedIsExact` | api/shared_contract_v2.go:1117-1173 | in results the validator accepts, every required pair of obligation and input has exactly one case, validly disposed, and no other case exists |
| `Accounting.ValidateAccounting` | api/shared_contract_v2.go:1117-1173 | accepts exactly accounted results |
| `Accounting.AccountedCounts` | api/shared_contract_v2.go:1149-1173 | in results the validator accepts every count is the true one and nothing is unaccounted |
| `Accounting.SumRequired` | api/shared_contract_v2.go:1162-1165 | the sum over a map in any order is the number of required pairs |
| `Accounting.Execute` | api/shared_contract_v2.go:1050-1115 | in terms of what the cases came to: one case for each obligation and input in their order with that very outcome; could-not-test exactly when a required case was stopped or unsupported, blocked exactly when all were blocked, not-blocked otherwise; malfunction exactly when the validator rejects |
| `Accounting.ExecuteAccepted` | api/shared_contract_v2.go:1050-1115 | end to end: an accepted document is executed without malfunction, every required pair gets its case with its outcome, the counts are those of the document with nothing unaccounted, and the verdict is that of the outcomes |
| `Bundle.ValidateBundle` | api/shared_contract_v2.go:690-805 | accepts exactly the bundles with the right identity, candidate and bundle digests over the document, semantics binding, artifacts, unit, groups, directives, mappings and provenance |
| `Bundle.DigestIdentifiesBundle` | api/shared_contract_v2.go:694-705 | two accepted bundles with one bundle_digest have the same document up to the digests and the spelling of numbers, and one candidate_digest, unless two given texts collide |
| `Bundle.BindingIdentifiesDocument` | api/shared_contract_v2.go:706-711 | two accepted bundles with one semantics binding are bound to one Check Generation document and one semantics, unless two given texts collide |
| `BundleDigests.SignsAllButItself` | api/shared_contract_v2.go:694-705 | the digests sign every member of document and candidate as it is, except the two digests, which can be anything |
| `BundleDigests.UriTellsPlace` | api/shared_contract_v2.go:708 | the URI of the binding tells the place of the result, given that escaped parts hold no separator and differ |
| `Bundle.DigestIdentifiesContent` | api/shared_contract_v2.go:713-722 | artifacts with one digest have one content, also across accepted bundles, unless the two contents collide; digest, length and locator are those of the content |
| `Bundle.AppliedAsAWhole` | api/shared_contract_v2.go:725-803 | an accepted bundle and each of its groups is applied, rolled back and removed as a whole, directives are distinct and name artifacts, provenance counts from zero |
| `Bundle.MappingsStayInside` | api/shared_contract_v2.go:770-795 | mappings are exact and name only source members, artifacts and directives that exist |
| `Witnesses.CompleteDocument` | api/shared_contract_v2.go:423-623 | a document with one member, artifact, input and obligation that the completeness check accepts, so what is proved of accepted documents is not proved of none |
| `Witnesses.AcceptedBundle` | api/shared_contract_v2.go:690-805 | a bundle for that document that the bundle check accepts, whatever SHA-256 and the escapings are |
| `Bundle.OrderIsTopological` | api/shared_contract_v2.go:745-757 | along every chain of dependencies positions strictly fall, so depends_on is acyclic |
| `Bundle.DependenciesAreKnown` | api/shared_contract_v2.go:749-752 | every dependency is an artifact of the bundle |
| `Bundle.GroupsPartition` | api/shared_contract_v2.go:730-748 | every artifact is in exactly one atomic group and groups hold nothing else |
| `Bundle.UnitIsEverything` | api/shared_contract_v2.go:712-729 | the application unit and the contents are exactly the artifacts |
| `Bundle.MappingsAreExact` | api/shared_contract_v2.go:766-795 | mappings and obligations are in bijection and each maps to exactly the members its coverage reaches |
| `Bundle.LocatorsTellArtifactsApart` | api/shared_contract_v2.go:898-901 | different artifacts of a result have different locators |
| `Waf.Prepare` | api/shared_contract_v2.go:1234-1385 | accepts exactly the preparable document pairs; the alternatives prepared are the routes, or the coverage lists, or one for each rule, in order |
| `Waf.CompileRules` | api/shared_contract_v2.go:1269-1298 | the loop over the rules with its duplicate guard as it is written |
| `Waf.CheckRouteBound` | api/shared_contract_v2.go:1299-1357 | the route-bound branch accepts exactly alternatives that fit coverage and authenticated inputs |
| `Waf.PreparedRunsOnItsRules` | api/shared_contract_v2.go:1365-1379 | every alternative is non-empty and names only compiled rules that have identifiers |
| `Waf.BijectionExactly` | api/shared_contract_v2.go:1258-1298 | in every accepted document compiled rules and carrier bindings correspond one to one if and only if no two rules share a component and no two share a joined key |
| `Waf.BijectionUnlessUnnamed` | api/shared_contract_v2.go:1258-1298 | when no component identifier holds a NUL, that is so if and only if no rule without an identifier shares its component with a later one |
| `Waf.NulSharesABinding` | api/shared_contract_v2.go:1261-1274 | an accepted document, all its rules named and for different components, in which two rules use one carrier binding |
| `Waf.UnnamedRuleIsLost` | api/shared_contract_v2.go:1270-1274 | an accepted document in which a rule is lost |
| `Waf.KeyIsUnambiguous` | api/shared_contract_v2.go:1261-1271 | a joined key stands for one component, carrier and name if and only if none of the three holds a NUL |
| `Waf.RouteBoundExactly` | api/shared_contract_v2.go:1299-1357 | in every accepted route-bound document the alternatives are exactly the coverage lists if and only if different lists with one joined key stand on both sides |
| `Waf.RouteBoundByKeys` | api/shared_contract_v2.go:1299-1357 | when the joined keys tell the coverage lists apart, the alternatives are exactly these lists if and only if none of them has the joined key of another list |
| `Waf.RouteBoundUnlessNul` | api/shared_contract_v2.go:1299-1357 | when no rule is for a component with a NUL in its identifier, that is so if and only if no coverage list holds a NUL |
| `Waf.RouteBoundCoversEveryAlternative` | api/shared_contract_v2.go:1299-1357 | with NUL-free lists on both sides the route-bound alternatives are exactly the Boolean alternatives |
| `Waf.NulListIsMisread` | api/shared_contract_v2.go:1303-1357 | an accepted document whose coverage names one component, with a NUL in it, and which gets the conjunction of two others |
| `Waf.BoundToAuthenticatedInputs` | api/shared_contract_v2.go:1331-1351 | a component is bound to exactly its authenticated inputs on the alternative's route, at least one |
| `Waf.AppliesIsEquality` | api/shared_contract_v2.go:1581-1625 | a valid bound route applies to an executed route if and only if they are equal |
| `WafMeaning.BlocksAsDocumented` | api/shared_contract_v2.go:1234-1670 | for every accepted document and request: blocked exactly when a route alternative for this very route, or a coverage list, has all components matching, or without coverage lists any rule does; otherwise let through when everything delivered can be read and transformed |
| `WafMeaning.PatternMeans` | api/shared_contract_v2.go:1275-1292 | a pattern is preceded by a group of the rule's flags other than u, in order; which flags and transformations are accepted |
| `WafMeaning.BoundByName` | api/shared_contract_v2.go:1261-1274 | without NULs a rule is admitted exactly when a binding has its component, its carrier and, up to case, its name |
| `WafMeaning.BoundToItsInputs` | api/shared_contract_v2.go:1331-1351 | in terms of the documents: the binding of a component lists exactly those of its own inputs that are sent over the alternative's route, at least one |
| `WafMeaning.RouteMeans` | api/shared_contract_v2.go:1581-1605 | over which route an input is sent |
| `WafMeaning.AcceptedRules` | api/shared_contract_v2.go:1256-1296 | what rules and bindings of an accepted pair of documents look like |
| `WafMeaning.AcceptedAlternatives` | api/shared_contract_v2.go:1299-1357 | what the alternatives of an accepted route-bound document look like |
| `WafEvaluation.Evaluate` | api/shared_contract_v2.go:1627-1670 | the nested loops with their early exits and the kept first error |
| `WafEvaluation.EvaluationExactly` | api/shared_contract_v2.go:1627-1670 | for every request: blocked if and only if some applicable alternative has all components hit and no applicable one before it aborts; let through if and only if every applicable alternative misses |
| `WafEvaluation.EvaluationIsBoolean` | api/shared_contract_v2.go:1627-1670 | as long as no value delivered by this request fails to be transformed, it is blocked if and only if some applicable alternative has all components matching: order and carrier errors hide nothing; evaluation fails only when nothing matches and an applicable alternative meets a carrier error |
| `WafEvaluation.FirstDecides` | api/shared_contract_v2.go:1627-1670 | the first applicable alternative that hits or aborts decides, whatever carrier errors came before |
| `WafEvaluation.FaultSurfaces` | api/shared_contract_v2.go:1627-1670 | when none hits or aborts, a carrier error surfaces if and only if some applicable alternative met one |
| `WafEvaluation.BlockedNamesItsRule` | api/shared_contract_v2.go:1634-1664 | a blocked request names the last rule of the first applicable alternative with all components hit |
| `Utf16.Utf16Less` | api/executor_locator.go:969-977 | the index loop decides the order of the UTF-16 code units |
| `Utf16.StrictTotalOrder` | api/executor_locator.go:969-977 | that order is strict and total on all strings |
| `Utf16.SurrogatesComeFirst` | api/executor_locator.go:969-977 | it is not the order of code points: U+1F600 comes before U+FF21 |
| `Utf16.UnitsGiveBack` | api/executor_locator.go:969-977 | the code units of a character give it back |
| `CanonicalJson.WriteValue` | api/executor_locator.go:895-946 | whatever order maps are iterated in, exactly the canonical text is appended; it fails if and only if some numeral is no finite float |
| `CanonicalJson.Marshal` | api/executor_locator.go:888-894 | the same for a whole document |
| `CanonicalJson.KeysAreWrittenInOrder` | api/executor_locator.go:924-941 | members are written along the one strictly increasing list of the keys |
| `CanonicalJson.CanonicalIsInjective` | api/executor_locator.go:895-946 | two documents are written alike if and only if they are equal up to the spelling of numbers, given faithful leaf encoders |
| `CanonicalText.CanonicalUnlessSpelled` | api/executor_locator.go:947-955 | a string is written as section 3.2.2.2 of RFC 8785 asks if and only if it nowhere holds a backslash followed by u2028 or u2029 |
| `CanonicalText.SpelledIsMangled` | api/executor_locator.go:953-954 | a six-character string that is written as four characters which are not JSON |
| `CanonicalText.CanonicalStringDelimits` | api/executor_locator.go:947-955 | the output always determines the string and where it ends |
| `CanonicalText.CanonicalStringIsRead` | api/executor_locator.go:947-955 | a JSON reader (section 7 of RFC 8259) gets back exactly the string that was written, if and only if it spells out no separator; what is written for any other string it rejects |
| `CanonicalText.SampleIsWritten` | api/executor_locator.go:888-946 | one document with every kind of value, letter by letter |
| `CanonicalText.WriterIsInjective` | api/executor_locator.go:895-955 | with this very string encoder the writer is injective on all documents up to the spelling of numbers, given a number encoder that tells numbers apart |
| `CanonicalText.FaithfulEncodersExist` | api/executor_locator.go:947-955 | what the two injectivity theorems assume of the encoders can be met, by this string encoder and integers in decimal |
| `DuplicateKeys.RejectDuplicateKeys` | api/shared_contract_catalog.go:268-325 | accepts exactly the lexemes of one JSON value whose objects have pairwise distinct keys at every depth, with nothing left over |
| `DuplicateKeys.CheckValue` | api/shared_contract_catalog.go:271-315 | the recursive closure succeeds exactly where there is such a value and stops right behind it, for every decoder state it is called in |
| `DuplicateKeys.RecognizesAcceptable` | api/shared_contract_catalog.go:268-325 | soundness and completeness against the lexemes of values |
| `JsonPointer.EscapeRoundTrip` | api/shared_contract_v2.go:898-901 | unescaping undoes the two-pass escaping for every string, and an escaped key holds no separator |
| `JsonPointer.UnescapeRoundTrip` | api/shared_contract_v2.go:1560 | escaping undoes unescaping if and only if the token is well escaped |
| `JsonPointer.EscapesByCharacter` | api/shared_contract_v2.go:898-901 | a tilde is escaped as ~0, a separator as ~1, everything else as itself |
| `JsonPointer.PointerRoundTrip` | api/shared_contract_v2.go:1551-1579 | a pointer built from any tokens is read back as exactly those tokens |
| `JsonPointer.Resolve` | api/shared_contract_v2.go:1551-1579 | the loop follows exactly those tokens, with every error case |
| `JsonPointer.ResolutionIsSo` | api/shared_contract_v2.go:1551-1579 | what is reached lies at the end of the way the tokens lead, through members of objects and items of arrays by their index; when it fails, they lead to a value at which the next token fails for the reason given |
| `JsonPointer.ReachedIfLed` | api/shared_contract_v2.go:1551-1579 | and where the tokens lead, resolution gets |
| `JsonPointer.PointerReachesSubtree` | api/shared_contract_v2.go:1551-1579 | a pointer built from object keys resolves to exactly the subtree they lead to |
| `JsonPointer.ContentPointerFinds` | api/shared_contract_v2.go:898-901 | the pointer that the locator of a candidate artifact has to carry leads to that artifact's content in the result document, whatever the identifier holds |
| `JsonPointer.FragmentReachesSubtree` | api/shared_contract_v2.go:1523-1538 | the percent-decoding of a locator's fragment leaves the plain pointer of some keys alone if and only if none of them holds a percent sign, and then the fragment leads to exactly the subtree below those keys |
| `JsonPointer.EncodingRoundTrip` | api/shared_contract_v2.go:1531 | decoding undoes the encoding of percent signs for every string |
| `JsonPointer.EncodedFragmentReachesSubtree` | api/shared_contract_v2.go:1523-1538 | a fragment with its percent signs encoded leads to exactly the subtree below its keys, whatever they hold |

## Left out

- HTTP handlers, CORS, OpenAPI, the UI, deployment, logging and `UpdateProgress`, which changes only diagnostic text.
- The execution substrates, `executeSharedCase` up to its four dispositions, and forwarding: outcomes are arbitrary.
- Schema migration and payload backfill (`api/lifecycle_store.go:88-205`), which run once.
- PostgreSQL and Databricks themselves: a statement is one atomic step, `FOR UPDATE SKIP LOCKED` picks among all rows.
- Safety.CompletedMeansPublishedExactly: says nothing of failed runs, because a MERGE may still land after a run has failed.
- Safety.EffectsAreBounded: counts fresh leases; the code does not bound how often a staged result that is not yet pending is leased again.
- Safety.TerminalIsFinal: after `FailOutcome` the response need not be the staged bytes, which are result_payload.
- Backoff.VerificationDelay: a negative base and wrap-around of 64-bit durations, which the ceiling keeps out of reach.
- Outbox.CallbackDispatcher.Retry: jitter and the retry schedule of `callbackRetryDelay`; the local delay is arbitrary.
- Refs.Keys: `sort.Strings` is a selection of the least element.
- Bundle.GroupsPartition: that application_group_ref names the very group that holds the artifact is not checked by the code, only that the group exists.
- Bundle.ValidateBundle: that the decoded bundle and the JSON document it is checked against come from the same bytes; lengths in UTF-8 and the escapings of net/url are parameters.
- Bundle.DigestIdentifiesBundle: leaves out the empty digest, which `digestAny` returns for a document that cannot be written and the schema does not admit.
- Completeness.ValidateCompleteness: JSON Schema validation, digests of the documents and the resolution of internal locators are given as their outcomes; references that do not decode are dropped before.
- WafEvaluation.Evaluate: regular expressions, carrier parsing, URL, base64 and hex decoding are parameters.
- Waf.Prepare: component input references that do not decode, which the completeness check has excluded.
- CanonicalJson.WriteValue: `ecmaNumber` and the parsing of floats are parameters; `sort.Slice` is an insertion sort.
- DuplicateKeys.RejectDuplicateKeys: the division of bytes into lexemes.
- JsonPointer.Resolve: how `fmt.Sscanf` reads an array index, a parameter here; it also takes tokens that section 4 of RFC 6901 forbids.
- Liveness under a fair scheduler and wall-clock accuracy.
