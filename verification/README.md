# Verified model of the dirty-data-to-OLAP platform's decision logic

This project models, in Dafny 4.11, the parts of the platform that decide something a reader has to
trust, and proves what each decision guarantees. Run `dafny verify dfyconfig.toml` to check all of it.

| file | what it models |
|---|---|
| `ExecutionState.dfy` | the web of mutually recursive predicates that recognises how far the recorded execution state has got, and which gates it backs |
| `ExecutionRecord.dfy` | the same recogniser as a table of data, and the states that completing each step leaves |
| `JobLeases.dfy`, `Admission.dfy` | the durable job queue as a protocol over whole runs: leases, fencing, expiry, admission limits |
| `JobLaws.dfy` | the queue's operations in the columns of its tables: what each can touch, whom a claim takes, what becomes of a job |
| `JobDiscipline.dfy`, `Cancellation.dfy` | what the workers' own checks add: rows that agree, handlers not started twice, cancellations that stay |
| `RunCompletion.dfy` | scheduling and completion: stages after their dependencies, runs after their required stages |
| `ControlStore.dfy` | the same queue as an object whose content is at every moment the run of the protocol over the calls it received |
| `PlanGraph.dfy` | the acyclicity check of an execution plan |
| `EntityResolution.dfy`, `EntityEvaluation.dfy` | incremental component merging and the evaluation built on it |
| `SemanticForm.dfy` | the normal form that decides whether two provider runs agree |
| `TruthShuffle.dfy` | the in-place truth shuffle used as a negative control |
| `Ranking.dfy`, `Percentile.dfy`, `Frontier.dfy` | ranking metrics, latency percentiles, the calibration threshold frontier |
| `LeakageAudit.dfy` | the split-leakage audit |
| `Polling.dfy` | the polling protocol against an arbitrary server |
| `MediumDataset.dfy` | the deterministic data generator and its oracle |
| `Topology.dfy` | the engineering plan's data-flow check |
| `Text.dfy`, `Sorting.dfy`, `Common.dfy` | decimal numerals, text order, sorting by a total order, optional values |

How the model reads the system:

- An execution state is an arbitrary record: every field may hold a flag, a number, a text, a nested
  document, something else, or nothing. The recogniser's functions terminate on every state and every
  pair of bounds; the `decreases` clauses carry the measure (whether the pointer has passed the ceiling,
  then the order of the closures).
- A run of the job queue is any sequence of store operations by any workers, each with any time: the times need
  not be in order. A refused operation leaves the store as it was. What the workers add to the store's own checks is the
  predicate `JobDiscipline.Disciplined`, taken from `src/dirty_data_to_olap/application/jobs.py`; only the
  results that need it ask for it. The workers check on rows they read in an earlier transaction
  (`JobDiscipline.WorkerRun`); `StaleCheckSuffices` shows that this is as good, because the fence and the
  revisions refuse an operation whose rows have moved.
- Loops over a Python `set` or `dict` take the elements in any order.
- Floating point is modelled by exact reals.

Seven properties one might expect turn out to be false of the code; each has a concrete counterexample and an
exact condition:

- Closing step 34 does not always keep step 33 closed (`Step34DoesNotImplyStep33`); it does exactly unless the
  pointer is on step 36 and step 36 is not recorded as not started (`Step34KeepsEarlier`).
- A job can succeed after its cancellation was recorded: a command job through the command finaliser
  (`CancelledCommandSucceeds`), a stage job after a resume that clears the request (`ReopenedStageSucceeds`).
  `SuccessAfterCancellation` says exactly when, over every run. A stage job of a cancelled run never succeeds
  (`CancelledRunNeverSucceeds`); one of a run that had already succeeded never does if nothing is resumed in an
  ended run (`CancellationIsFinal`).
- The caps on live leases are not unconditional. A worker sends the time it read before its claim again later,
  and a heartbeat with such a time can make a lease live that had run out before another job was claimed
  (`LateHeartbeatOverrunsCap`). The cap holds at every moment exactly when no heartbeat does that in a full group
  (`AdmissionExactly`), for example when no heartbeat carries a time older than a claim before it
  (`AdmissionBound`).
- For the same reason an expired token can pass the fence again (`LateHeartbeatRevivesToken`), exactly through
  its own late heartbeats (`ExpiryIsFinalExactly`).
- One review idempotency key can be posted for two different checkpoints (`KeyReusedForAnotherCheckpoint`); two
  posts share a key exactly when nothing was recorded for their run in between (`PostedKeysShared`).
- The frontier misses a threshold above every score when some score reaches 1 (`ThresholdAboveOneUnlisted`), and
  misses nothing else (`FrontierComplete`).
- The leakage audit can accept a chain that joins two roles through a record of no group
  (`UngroupedRecordHidesLeak`). Its flags are enough for every split exactly when such records connect nothing
  new (`SafeExactly`), for example when each of them lies in at most one truth entity (`FreeChainSameSide`).

Where documentation and code disagree the code is followed: the flag named `truth_cluster_leakage` is true
when there is no leakage, and the oracle of the data generator raises on an empty table rather than judging it.

## Model

| member | source | states |
|---|---|---|
| `ExecutionState.Step32Flat` | tools/execution_state.py:250-305 | in every state the step-32 closure, with its calls into nearly the whole web, equals one non-recursive case split: terminal, or a well-formed pointer past 32 whose own row of the table holds |
| `ExecutionState.ClosedFlat` | tools/execution_state.py:182-226 | every closure from 30 to 41 except 34 equals that flat reading, so the web of mutual calls collapses to one table |
| `ExecutionState.Step34Flat` | tools/execution_state.py:492-501 | the step-34 closure is the flat reading plus one extra case: pointer on 36 with only the step-34 evidence |
| `ExecutionState.LateClosuresFlat` | tools/execution_state.py:642-786 | the closures of steps 37 to 40 and the incomplete-step-38 handoff, said without recursion |
| `ExecutionState.AuthorizedFlat` | tools/execution_state.py:89-131 | for every pair of bounds, authorization means terminal, or a well-formed pointer inside the bounds or past the ceiling with its own row holding; the relaxed ceilings of steps 32 and 33 included |
| `ExecutionState.LateAheadOfPointer` | tools/execution_state.py:678-730 | a ceiling the pointer has not passed is compared literally, and a closure ahead of the pointer accepts exactly its own row |
| `ExecutionState.ConsultedClosure` | tools/execution_state.py:107-119 | the closure that a relaxed ceiling consults says exactly what the row of the current step says |
| `ExecutionState.LaterClosureKeepsEarlier` | tools/execution_state.py:636-675 | in every state, closing step k keeps every earlier step from 30 on closed (for k = 34 see the next two rows) |
| `ExecutionState.Step36KeptByRelaxation` | tools/execution_state.py:636-639 | where step 37 is freshly closed, step 36 stays closed through the ceiling relaxation alone: the pointer is past the literal ceiling and every other disjunct is false |
| `ExecutionState.Step35KeptByRelaxation` | tools/execution_state.py:552-555 | the same for step 35, after step 36 or step 37 |
| `ExecutionState.Step34KeepsEarlier` | tools/execution_state.py:492-501 | a closed step 34 keeps steps 30 to 33 closed if and only if a pointer on 36 comes with step 36 recorded as not started |
| `ExecutionState.Step34DoesNotImplyStep33` | tools/execution_state.py:523-549 | a concrete state where step 34 is closed and step 33 is not |
| `ExecutionState.EvidenceChain` | tools/execution_state.py:616-633 | completion evidence of step 36 carries that of 35, 35 that of 34, 34 that of 33, 33 that of 31 |
| `ExecutionState.RowBacksGates` | tools/execution_state.py:308-353 | every row of the table carries the gate passes of the steps closed before it: G6-G8 past step 31, up to G9, G10, G11, G12, G13 and G14 past steps 32, 33, 36, 38, 39 and 40 |
| `ExecutionState.ClosureBacksGates` | tools/execution_state.py:678-837 | whatever closure from 30 to 41 accepts a state, G8 has passed, nothing is blocked, and all gates from G6 up to the one that closure stands for have passed |
| `ExecutionState.CoherentGates` | tools/execution_state.py:1031-1051 | in every coherent state G7 to G15 are PENDING or PASS, and a PASS at G9, G10, G13, G14 or G15 means every gate from G6 up to it is PASS |
| `ExecutionState.ClosedNeverExternallyBlocked` | tools/execution_state.py:987-1028 | the step-30 closure and the externally blocked state never hold together |
| `ExecutionState.RelaxedAtMostOnce` | tools/execution_state.py:95-119 | on no path of calls is the ceiling relaxation entered twice |
| `ExecutionState.QuietForever` | tools/execution_state.py:293-305 | once every ceiling is at or above the pointer it stays so along the rest of the call path |
| `ExecutionRecord.ClosureIsRecorded` | tools/execution_state.py:182-786 | in every state that is not terminal, each closure from 30 to 40 except 34 accepts exactly a well-formed pointer past its step whose entry in a table of data is shown: the completed steps, the passed and signed documents, the passed and pending gates, the titles and the last commit |
| `ExecutionRecord.PointerIsOnFirstOpenStep` | tools/execution_state.py:182-837 | whatever closure from 30 to 40 accepts, the pointer's step is recorded as not begun (step 38 may be held up), the last completed step is the one before, and every step from 30 up to it is recorded as completed; the step-34 closure at pointer 36 is set aside, and step 32 is looked at at pointer 33 and from 39 on |
| `ExecutionRecord.CompletedStepIsAccepted` | tools/execution_state.py:182-937 | for every step from 30 to 41 and every commit: the state that completing it leaves is accepted by its own closure and every earlier one, and by no later one |
| `ExecutionRecord.AfterStepCoherent` | tools/execution_state.py:1031-1051 | the gates such a state shows are coherent |
| `ExecutionRecord.HeldUpIsAccepted` | tools/execution_state.py:940-984 | with step 38 begun and held up, step 37 stays closed, the handoff is recognised and step 38 is not closed |
| `ExecutionRecord.ExternallyBlockedIsRecognised` | tools/execution_state.py:987-1028 | a step 31 blocked by the external CI alone is recognised, and step 30 is not closed in it |
| `ExecutionRecord.ExternallyBlockedIsCoherent` | tools/execution_state.py:1031-1051 | its gates are coherent all the same |
| `ExecutionRecord.PointerIsAuthorized` | tools/execution_state.py:95-131 | a pointer on any step from 6 to 41 is authorised under every range that contains it; the alias of the last role is taken at step 26 (and anything at step 6) alone |
| `ExecutionRecord.PointerExactly` | tools/execution_state.py:101-131 | a pointer is well formed exactly if it names a step from 6 to 41 with its role, the step before with its role (or its alias), and a next step whose text begins with the step's own name |
| `ExecutionRecord.TerminalExactly` | tools/execution_state.py:892-931 | the terminal closure holds exactly if no pointer is left, steps 29 to 41 are completed and nothing of a step 42 is recorded, all sixteen gates have passed, nothing is blocked, and the last receipt holds |
| `ExecutionRecord.FinalReceiptExactly` | tools/execution_state.py:844-889 | the last receipt: a validated build of the last commit whose review and gate files both mention that commit and its CI run |
| `ExecutionRecord.ReceiptsExactly` | tools/execution_state.py:504-613 | the receipts of steps 35 to 38, field by field |
| `ExecutionRecord.BlockedExactly` | tools/execution_state.py:987-1028 | the externally blocked state, field by field |
| `ExecutionRecord.CoherentExactly` | tools/execution_state.py:1031-1051 | gates are coherent exactly if G3 to G6 have one of their statuses and each later one is pending or has its own closure or receipt behind it |
| `ExecutionRecord.Step29Exactly` | tools/execution_state.py:134-147 | the gate of step 29, field by field |
| `ExecutionRecord.CommitExactly` | tools/execution_state.py:840-841 | a commit is a text of exactly forty hexadecimal digits |
| `ExecutionRecord.FieldsExactly` | tools/execution_state.py:79-86 | steps, gates and documents are read from the fields named after them, and a missing one counts as absent |
| `JobLeases.StaleWorkerIsInert` | src/dirty_data_to_olap/adapters/platform/sqlite_control_store.py:1303-1311 | once its lease was taken over or given up, a worker's fenced operations never change the store again, whatever any workers do in between and whatever the clock says |
| `JobLeases.ExpiredWorkerIsInert` | src/dirty_data_to_olap/adapters/platform/sqlite_control_store.py:1303-1311 | a token that does not hold at some time, expired or taken over, reclaimed or not, has no operation with that time or a later one accepted any more, over every run in which its own heartbeats carry that time or a later one or ask for too short a lease to reach it; all other operations may carry any time |
| `JobLeases.ExpiryIsFinalExactly` | src/dirty_data_to_olap/adapters/platform/sqlite_control_store.py:1199-1208 | over every run with any times, such a token never passes the fence of that time again if and only if no heartbeat of its own, sent with an older time, is accepted and reaches beyond it |
| `JobLeases.LostForever` | src/dirty_data_to_olap/adapters/platform/sqlite_control_store.py:1199-1208 | a lost token stays lost over every run |
| `JobLeases.ClaimTakesOver` | src/dirty_data_to_olap/adapters/platform/sqlite_control_store.py:1177-1197 | a claim is granted only when no issued token can pass the fence any more; it leaves every earlier token lost and the claimant holding |
| `JobLeases.PhaseKeptWhileHeld` | src/dirty_data_to_olap/adapters/platform/sqlite_control_store.py:1259-1301 | over every run, a worker that holds its lease at both ends and only sent heartbeats finds phase, attempt and recorded result as they were |
| `JobLeases.StepOnJob` | src/dirty_data_to_olap/adapters/platform/sqlite_control_store.py:1090-1398 | any operation on any job: identity columns survive, a changed row has its revision raised by one, only a claim raises the generation, succeeded and cancelled rows never change |
| `JobLeases.RunKeepsJob` | src/dirty_data_to_olap/adapters/platform/sqlite_control_store.py:1090-1398 | the same over whole runs: no job is lost, generations and revisions never fall, a final success or cancellation is permanent |
| `JobLeases.EnqueueBindsOnce` | src/dirty_data_to_olap/adapters/platform/sqlite_control_store.py:1090-1152 | an enqueued id is bound for good: over every later run the job keeps its run, kind, scope and replay safety, and enqueuing the id again changes nothing |
| `JobLeases.UpdateIsCompareAndSwap` | src/dirty_data_to_olap/adapters/platform/sqlite_control_store.py:480-489 | an update of a run based on an earlier read is accepted if and only if the row is still the one that was read, whatever happened in between |
| `JobLaws.JobFrame` | src/dirty_data_to_olap/adapters/platform/sqlite_control_store.py:1090-1398 | a job row changes only by an operation that names the job, carries a token for it, or cancels its own run; it appears only by being enqueued |
| `JobLaws.AttemptFrame` | src/dirty_data_to_olap/adapters/platform/sqlite_control_store.py:1210-1354 | the attempts of a job change only by an operation with a token for that job |
| `JobLaws.RunFrame` | src/dirty_data_to_olap/adapters/platform/sqlite_control_store.py:397-489 | a run row changes or appears only by an operation that names the run |
| `JobLaws.EligibleExactly` | src/dirty_data_to_olap/adapters/platform/sqlite_control_store.py:1183-1183 | the WHERE clause admits exactly the jobs that are due and not asked to stop, and the running ones whose lease has ended, with room in their run and on their source |
| `JobLaws.BeforeExactly` | src/dirty_data_to_olap/adapters/platform/sqlite_control_store.py:1183-1183 | the ORDER BY is priority, then availability, then age, then id |
| `JobLaws.CrashedJobIsRecovered` | src/dirty_data_to_olap/adapters/platform/sqlite_control_store.py:1183-1183 | a job left running can be claimed by anyone from the end of its lease on when nobody else holds a lease in its run or on its source |
| `JobLaws.TokenMustHold` | src/dirty_data_to_olap/adapters/platform/sqlite_control_store.py:1303-1311 | an operation with a token is accepted only while the job runs under that worker, generation and unexpired lease |
| `JobLaws.AttemptMustMatch` | src/dirty_data_to_olap/adapters/platform/sqlite_control_store.py:1283-1335 | a result or completion is accepted only for the job's own attempt, at the revision that was seen |
| `JobLaws.AttemptIsCompareAndSwap` | src/dirty_data_to_olap/adapters/platform/sqlite_control_store.py:1283-1335 | what is recorded or completed is the very attempt row the worker read, whatever happened in between |
| `JobLaws.LeaseLasts` | src/dirty_data_to_olap/adapters/platform/sqlite_control_store.py:1190-1208 | a claim or heartbeat gives exactly the times up to the end of the lease asked for, and changes nothing else of the job |
| `JobLaws.StageRunsThrough` | src/dirty_data_to_olap/adapters/platform/sqlite_control_store.py:1177-1354 | a due stage job that is claimed, begun, delivered, recorded and finalised within one lease has every operation accepted, and ends with the outcome, outputs, result and attempt asked for and its lease released; only a cancelled run turns the outcome, and then no outputs are kept |
| `JobLaws.RetryIsDue` | src/dirty_data_to_olap/adapters/platform/sqlite_control_store.py:1336-1344 | a job waiting for its retry is due again exactly from the time it is available, without an attempt |
| `JobLaws.EnqueuedIsDue` | src/dirty_data_to_olap/adapters/platform/sqlite_control_store.py:1090-1152 | a new job is due from its time on, exactly as it was asked for |
| `JobLaws.ResumeStartsOver` | src/dirty_data_to_olap/adapters/platform/sqlite_control_store.py:1384-1398 | a job can be resumed exactly out of review, blocked or failed, is due at once, and has lost its attempt, result and cancellation request and nothing else |
| `JobLaws.CancelTouches` | src/dirty_data_to_olap/adapters/platform/sqlite_control_store.py:1370-1382 | a cancellation touches exactly the unfinished jobs of its own run: waiting ones are cancelled, running ones asked to stop |
| `JobLaws.CommandCloses` | src/dirty_data_to_olap/adapters/platform/sqlite_control_store.py:1356-1368 | a command is closed with the outcome its holder names and its lease is given up |
| `JobLaws.RunsAreWritten` | src/dirty_data_to_olap/adapters/platform/sqlite_control_store.py:397-489 | a run is created once with the status given, and an update gives it the status asked for and a new revision |
| `Admission.AdmissionExactly` | src/dirty_data_to_olap/adapters/platform/sqlite_control_store.py:1177-1208 | over every run with any times, the leases of a run or a source that are live at the latest claim time so far are at every moment within the cap the claims were made under, if and only if no accepted heartbeat makes live, in a full group, a lease that was dead at that time |
| `Admission.AdmissionBound` | src/dirty_data_to_olap/adapters/platform/sqlite_control_store.py:1177-1208 | if no heartbeat carries a time older than a claim before it, the live leases of a run or a source are within the cap at the latest claim time and ever after; all other operations may carry any time |
| `Admission.ClaimKeepsCap` | src/dirty_data_to_olap/adapters/platform/sqlite_control_store.py:1177-1197 | a claim keeps the cap at the latest claim time even when it carries an older time itself |
| `Admission.LateHeartbeatOverrunsCap` | src/dirty_data_to_olap/application/jobs.py:495-497 | a concrete race under a cap of one that leaves two jobs of a run live at once: expiry, a claim by another worker, a heartbeat with a time read before the expiry |
| `Admission.LateHeartbeatRevivesToken` | src/dirty_data_to_olap/application/jobs.py:473-473 | a concrete token that fails the fence at some time and passes it after a heartbeat with an older time |
| `Admission.NewlyLive` | src/dirty_data_to_olap/adapters/platform/sqlite_control_store.py:1177-1208 | at whatever time one looks, only a granted claim or a heartbeat with an older time makes a job live that was not |
| `JobDiscipline.WorkerRunIsDisciplined` | src/dirty_data_to_olap/application/jobs.py:405-488 | workers that check phase, replay safety, kind and run status on rows read in earlier transactions satisfy those checks at the moment their operations are accepted |
| `JobDiscipline.StaleCheckSuffices` | src/dirty_data_to_olap/application/jobs.py:457-488 | one such check: if the operation is still accepted, what it rests on has not changed since it was read |
| `JobDiscipline.ConsistentRun` | src/dirty_data_to_olap/application/jobs.py:399-530 | in every store a disciplined run reaches, lease columns match the status, deliveries match generations, the job's phase is its attempt's phase, and every other attempt is finalised |
| `JobDiscipline.AttemptsAdvance` | src/dirty_data_to_olap/adapters/platform/sqlite_control_store.py:1210-1354 | over every run attempt rows are never dropped, never return to the created phase, and are frozen once finalised |
| `JobDiscipline.DeliveredOnce` | src/dirty_data_to_olap/application/jobs.py:455-490 | across crashes, expiries and takeovers a handler is started twice for one attempt only if the stage is replay safe |
| `JobDiscipline.HandlerStartedOnce` | src/dirty_data_to_olap/application/jobs.py:405-488 | the same for any two starts in one run of workers that check on rows read earlier |
| `Cancellation.SuccessAfterCancellation` | src/dirty_data_to_olap/adapters/platform/sqlite_control_store.py:1313-1398 | over every run, disciplined or not, a job with a recorded cancellation ends succeeded if and only if the holder finalised it as a succeeded command, or as a succeeded stage in an uncancelled run after a resume |
| `Cancellation.SuccessStep` | src/dirty_data_to_olap/adapters/platform/sqlite_control_store.py:1313-1368 | there are two doors to success: the command finaliser, and the stage finaliser while neither the job nor its run is cancelled |
| `Cancellation.CancelledRunNeverSucceeds` | src/dirty_data_to_olap/application/jobs.py:819-836 | over every disciplined run a stage job of a cancelled run never succeeds and the run stays cancelled |
| `Cancellation.CancellationIsFinal` | src/dirty_data_to_olap/application/jobs.py:289-295 | once cancellation is requested no unfinished stage job of the run ever succeeds, over every run of workers that check before they act; only if the run had already succeeded must they also resume nothing in an ended run |
| `Cancellation.CancelledCommandSucceeds` | src/dirty_data_to_olap/application/jobs.py:236-247 | a concrete command job, in a consistent store and a disciplined run, that succeeds after its cancellation was recorded |
| `Cancellation.ReopenedStageSucceeds` | src/dirty_data_to_olap/adapters/platform/sqlite_control_store.py:1384-1398 | a concrete stage job that succeeds after its cancellation was recorded, because it failed and was resumed in a run that had already succeeded |
| `ControlStore.FirstIsUnique` | src/dirty_data_to_olap/adapters/platform/sqlite_control_store.py:1183-1184 | the claim query's order leaves at most one first row |
| `ControlStore.Store.constructor` | src/dirty_data_to_olap/adapters/platform/sqlite_control_store.py:199-208 | a new store is empty, with an empty history |
| `ControlStore.Store.SelectClaimable` | src/dirty_data_to_olap/adapters/platform/sqlite_control_store.py:1182-1188 | the scan over all rows finds the first eligible one in priority, availability, age and id order, and finds none only if none is eligible |
| `ControlStore.Store.CountInRun` | src/dirty_data_to_olap/adapters/platform/sqlite_control_store.py:1183-1184 | the subquery of the claim counts exactly the live leases of the run |
| `ControlStore.Store.ClaimNextJob` | src/dirty_data_to_olap/adapters/platform/sqlite_control_store.py:1177-1197 | a job is claimed whenever some job is due or left behind by an ended lease and has room; it is the next one in priority, availability, age and id order, and the history grows by that claim; nothing claimed means nothing changed |
| `ControlStore.Store.HeartbeatJob` | src/dirty_data_to_olap/adapters/platform/sqlite_control_store.py:1199-1208 | accepted exactly under the lease fence; the content stays the run of the protocol over the history |
| `ControlStore.Store.EnsureStageAttempt` | src/dirty_data_to_olap/adapters/platform/sqlite_control_store.py:1210-1257 | the job's attempt is returned, a new one created exactly when it has none |
| `ControlStore.Store.MarkHandlerDeliveryStarted` | src/dirty_data_to_olap/adapters/platform/sqlite_control_store.py:1259-1281 | job and attempt rows move to delivery started together, or nothing changes |
| `ControlStore.Store.RecordStageResult` | src/dirty_data_to_olap/adapters/platform/sqlite_control_store.py:1283-1301 | the result is recorded exactly under the fence and the attempt's revision check |
| `ControlStore.Store.FinalizeStageJob` | src/dirty_data_to_olap/adapters/platform/sqlite_control_store.py:1313-1354 | the completion, its cancellation race and the retry reset are one step of the protocol |
| `ControlStore.Store.FinalizeCommandJob` | src/dirty_data_to_olap/adapters/platform/sqlite_control_store.py:1356-1368 | a command is finalised exactly under the fence |
| `ControlStore.Store.UpdateRun` | src/dirty_data_to_olap/adapters/platform/sqlite_control_store.py:480-489 | an accepted update replaces the very row its caller read, at whatever earlier moment of the history that was |
| `ControlStore.Store.RequestRunCancellation` | src/dirty_data_to_olap/adapters/platform/sqlite_control_store.py:1370-1382 | the scan over the rows is the protocol's cancellation, dooms every unfinished stage job of the run, and leaves the jobs of other runs, the other runs and all attempts as they were |
| `ControlStore.Store.ResumeJob` | src/dirty_data_to_olap/adapters/platform/sqlite_control_store.py:1384-1398 | only a job in review, blocked or failed is put back, with attempt and cancellation cleared |
| `ControlStore.Store.EnqueueJob` | src/dirty_data_to_olap/adapters/platform/sqlite_control_store.py:1090-1152 | a job is added if and only if its run exists and no earlier call in the history enqueued its id or, for a stage job, a job for the same stage of the run |
| `ControlStore.Store.HasStage` | src/dirty_data_to_olap/adapters/platform/sqlite_control_store.py:1129-1131 | the lookup finds a job exactly when the stage has one in the run, whatever plan it came from |
| `ControlStore.OneJobPerStage` | src/dirty_data_to_olap/adapters/platform/sqlite_control_store.py:1129-1131 | no reachable store has two jobs for one stage of a run |
| `ControlStore.JobsWereEnqueued` | src/dirty_data_to_olap/adapters/platform/sqlite_control_store.py:1090-1152 | the jobs of a store are exactly those its history enqueued |
| `ControlStore.StoreRespectsCaps` | src/dirty_data_to_olap/adapters/platform/sqlite_control_store.py:1177-1208 | unless a heartbeat in the history made a dead lease live in a full group, the live leases of a run or a source in the object are within the cap the claims were made under, at the latest claim time and ever after |
| `ControlStore.StoreIsConsistent` | src/dirty_data_to_olap/application/jobs.py:399-530 | a store used by workers with their checks has rows that agree, however the calls interleave |
| `ControlStore.StoreRefusesStaleToken` | src/dirty_data_to_olap/adapters/platform/sqlite_control_store.py:1303-1311 | a token that did not hold at some time is refused by the object at that time and later, if its own heartbeats since then carried no older time that reaches beyond it |
| `ControlStore.StoreKeepsCancellation` | src/dirty_data_to_olap/application/jobs.py:289-295 | a stage job doomed by a cancellation at any moment of the history is never seen succeeded in the object |
| `RunCompletion.DependenciesComeFirst` | src/dirty_data_to_olap/application/jobs.py:640-661 | every stage job in a store was enqueued when all it depended on had succeeded, and all of that is still succeeded, although the check is made on rows read earlier |
| `RunCompletion.ChainSucceeded` | src/dirty_data_to_olap/application/jobs.py:640-651 | along any chain of dependencies from a stage that has a job, every later stage has succeeded |
| `RunCompletion.SucceededRunIsComplete` | src/dirty_data_to_olap/application/jobs.py:780-794 | a run marked succeeded was completed by an operation whose required stages have all succeeded, for good, over every continuation |
| `PlanGraph.ValidateGraph` | src/dirty_data_to_olap/domain/contracts/jobs.py:311-324 | a plan passes if and only if no chain of declared dependencies between its stages closes into a cycle |
| `PlanGraph.ResolveLayers` | src/dirty_data_to_olap/domain/contracts/jobs.py:317-324 | resolving layer by layer succeeds if and only if the graph has no cycle |
| `PlanGraph.KnownCycles` | src/dirty_data_to_olap/domain/contracts/jobs.py:311-316 | dropping dependencies on unknown stages neither hides nor makes a cycle |
| `PlanGraph.StuckHasCycle` | src/dirty_data_to_olap/domain/contracts/jobs.py:319-321 | whenever no stage is ready there really is a cycle |
| `PlanGraph.LayeredIsAcyclic` | src/dirty_data_to_olap/domain/contracts/jobs.py:318-324 | a graph whose stages all resolved has no cycle of any length |
| `EntityResolution.FindComponents` | tools/evaluate_entity_resolution.py:56-68 | for every order of the pairs: disjoint nonempty sets covering exactly the paired records, two records together if and only if a path of pairs connects them |
| `EntityResolution.Absorb` | tools/evaluate_entity_resolution.py:64-67 | the inner loop removes exactly the touched components and unites them with the pair |
| `EntityResolution.MergeKeepsBlocks` | tools/evaluate_entity_resolution.py:58-67 | one merge keeps the list disjoint, closed under the pairs seen and internally connected |
| `EntityResolution.BlocksAreComponents` | tools/evaluate_entity_resolution.py:56-68 | disjoint, closed and internally connected blocks are the connected components |
| `EntityResolution.PathStaysInBlock` | tools/evaluate_entity_resolution.py:56-68 | a path of pairs never leaves the block it starts in |
| `EntityResolution.ComponentsUnique` | tools/evaluate_entity_resolution.py:56-68 | any two component lists of the same pairs hold the same sets, so the result does not depend on the order |
| `EntityEvaluation.Evaluate` | tools/evaluate_entity_resolution.py:71-130 | every reported count, ratio, cluster score and fragmentation count equals its definition over the prediction and the clusters, which are the given ones or the components |
| `EntityEvaluation.ScoreClusters` | tools/evaluate_entity_resolution.py:94-104 | the loop's counters are the number of contaminated clusters, the entities they hit, and the exact maxima |
| `EntityEvaluation.FindFragmented` | tools/evaluate_entity_resolution.py:105-108 | exactly the entities that meet more than one cluster |
| `EntityEvaluation.OverlapsTwice` | tools/evaluate_entity_resolution.py:105-108 | the overlap sum exceeds one if and only if two different clusters meet the entity |
| `EntityEvaluation.PredictedExactly` | tools/evaluate_entity_resolution.py:74-75 | a pair is predicted exactly if some edge between its records reaches the threshold |
| `EntityEvaluation.ContaminatedExactly` | tools/evaluate_entity_resolution.py:96-101 | a cluster is contaminated exactly if it meets two entities or holds both ends of a pair labelled negative |
| `EntityEvaluation.ScoresExactly` | tools/evaluate_entity_resolution.py:94-104 | contaminated clusters, the entities they touch and the two largest sizes are those of the clusters |
| `EntityEvaluation.CountsExactly` | tools/evaluate_entity_resolution.py:76-78 | each reported count is the number of pairs found, wrong, missed or wrongly merged |
| `EntityEvaluation.RatiosExactly` | tools/evaluate_entity_resolution.py:79-81 | precision and recall are the shares of tp in tp + fp and tp + fn, and f1 that of 2 tp in 2 tp + fp + fn; all are 0 without a true positive |
| `EntityEvaluation.BlockingExactly` | tools/evaluate_entity_resolution.py:109-109 | blocking recall is the share of positives among the candidates, and 1 exactly if all are |
| `EntityEvaluation.CountsBalance` | tools/evaluate_entity_resolution.py:76-78 | found plus missed is all positives; right plus wrong is all predictions, plus those labelled both ways |
| `EntityEvaluation.CountsFallWithThreshold` | tools/evaluate_entity_resolution.py:71-84 | raising the threshold cannot raise true positives, false positives, false merges or recall, cannot lower false negatives, and recall stays at most blocking recall |
| `EntityEvaluation.ClustersRefine` | tools/evaluate_entity_resolution.py:82-84 | fewer pairs refine the clustering: each finer component lies inside one coarser component |
| `EntityEvaluation.LargestClusterFalls` | tools/evaluate_entity_resolution.py:94-95 | raising the threshold cannot raise the largest cluster size |
| `EntityEvaluation.ContaminationHasCulprit` | tools/evaluate_entity_resolution.py:94-104 | a component hitting two disjoint entities is due to some predicted pair that no entity contains |
| `EntityEvaluation.CompletePredictionsNeverFragment` | tools/evaluate_entity_resolution.py:20-25 | predicting every within-entity pair leaves no entity fragmented |
| `SemanticForm.SemanticDecidesAgree` | tools/run_step18_v4_dependency_provider.py:17-30 | normal forms are equal if and only if one value becomes the other by permuting lists under unordered keys at any depth and changing scalars under volatile keys |
| `SemanticForm.AgreeIsEquivalence` | tools/run_step18_v4_dependency_provider.py:17-30 | that agreement is reflexive, symmetric and transitive |
| `SemanticForm.SemanticIdempotent` | tools/run_step18_v4_dependency_provider.py:20-30 | a normal form is its own normal form |
| `SemanticForm.KeysExactly` | tools/run_step18_v4_dependency_provider.py:17-28 | the eleven unordered and three volatile keys |
| `TruthShuffle.ShuffleErTruth` | tools/run_step18_v5_evaluation.py:80-90 | the in-place rewriting ends in the closed-form outcome of every entity |
| `TruthShuffle.RewriteSlots` | tools/run_step18_v5_evaluation.py:84-89 | after any number of iterations each entity holds what overwriting its first test slot that many times leaves |
| `TruthShuffle.ShuffleIsRotation` | tools/run_step18_v5_evaluation.py:80-90 | each entity ends with exactly the multiset a one-step rotation of all test slots would give it; its size and every non-test record in place are kept |
| `TruthShuffle.ShuffleConservesTests` | tools/run_step18_v5_evaluation.py:80-90 | over all entities the multiset of test records is unchanged |
| `TruthShuffle.RotatedTakesNext` | tools/run_step18_v5_evaluation.py:82-83 | in the rotation every slot takes the record of the next slot, the last that of the first |
| `Ranking.EvaluateCandidates` | tools/evaluate_schema_matching.py:22-63 | recall at every k, mean reciprocal rank, exposure counts and evaluated count are those of the rank table and the ranked lists |
| `Ranking.GroupByLeft` | tools/evaluate_schema_matching.py:28-35 | every group is its column's scored candidates in arrival order, and the count is the number of scored candidates |
| `Ranking.MeanRank` | tools/evaluate_schema_matching.py:40-43 | whatever order the links are taken in, the mean of the reciprocal ranks comes out |
| `Ranking.RecallTable` | tools/evaluate_schema_matching.py:44-45 | each entry is the share of links ranked at most k |
| `Ranking.ExposureTable` | tools/evaluate_schema_matching.py:48-50 | each entry counts the hard negatives among the first k targets |
| `Ranking.HitsAreRanked` | tools/evaluate_schema_matching.py:40-45 | being in the first k targets is the same as having a rank of at most k |
| `Ranking.RankedIsTheRanking` | tools/evaluate_schema_matching.py:28-37 | the ranked targets of a column are those of the one arrangement of its scored candidates in which best raw scores never rise and equal scores come in text order; every scored candidate occurs, with its multiplicity |
| `Ranking.BestIsMaximum` | tools/evaluate_schema_matching.py:29-33 | a candidate is scored exactly if one of its references is known, and its score is the maximum over them |
| `Ranking.EvaluatedExactly` | tools/evaluate_schema_matching.py:28-35 | the evaluated candidates are exactly those with a known reference |
| `Ranking.RecallAgainstMrr` | tools/evaluate_schema_matching.py:40-56 | recall@k <= recall@l for all 1 <= k <= l, recall@1 <= MRR, recall@k / k <= MRR <= recall@k + (1 - recall@k) / (k + 1) |
| `Ranking.RankingOrderFree` | tools/evaluate_schema_matching.py:28-37 | permuting the candidates changes no ranking |
| `Ranking.RanksOrderFree` | tools/evaluate_schema_matching.py:28-45 | nor any rank, and so none of the metrics |
| `Ranking.EvaluatedOrderFree` | tools/evaluate_schema_matching.py:28-35 | nor the number of evaluated candidates |
| `Text.LexLeAtDifference` | tools/evaluate_schema_matching.py:37-37 | text order is decided at the first difference, and a text goes after its beginnings |
| `Percentile.PercentileMonotone` | tools/run_step38_load_stress.py:60-70 | a higher quantile never gives a lower percentile, and every percentile lies between the rounded extremes of the sample |
| `Percentile.InterpolateMonotone` | tools/run_step38_load_stress.py:66-70 | interpolation is monotone across segments |
| `Percentile.PercentileOrderFree` | tools/run_step38_load_stress.py:60-70 | permuting the sample changes no percentile |
| `Percentile.PercentileExactly` | tools/run_step38_load_stress.py:60-70 | at position k + f of any sorted arrangement the percentile lies at the share f of the way from the k-th value to the next |
| `Percentile.SummaryAtHundredths` | tools/run_step38_load_stress.py:73-83 | of 100 m + 1 usable latencies the summary reports the values number 50 m, 90 m, 95 m and 99 m in ascending order, and the largest |
| `Percentile.CleanExactly` | tools/run_step38_load_stress.py:74-74 | the usable latencies are the nonnegative ones, each as often as recorded |
| `Percentile.SummaryOrdered` | tools/run_step38_load_stress.py:73-83 | p50 <= p90 <= p95 <= p99 <= max whenever some latency is usable, and an empty summary exactly otherwise |
| `Frontier.BuildFrontier` | tools/run_step18_v4_evaluation.py:373-377 | one point per listed threshold, each the point of its threshold |
| `Frontier.PointCounts` | tools/run_step18_v4_evaluation.py:374-377 | a point counts the decisions that reach its threshold, those of them that propose the labelled endpoint of a match, and those that abstain |
| `Frontier.ThresholdsExactly` | tools/run_step18_v4_evaluation.py:374-374 | the thresholds are 0, one half, 1 and the scores, each once, from the greatest down |
| `Frontier.FrontierOrdered` | tools/run_step18_v4_evaluation.py:374-377 | thresholds strictly fall, selection, true positives and abstentions never fall, and at each point the counts balance |
| `Frontier.FrontierComplete` | tools/run_step18_v4_evaluation.py:374-375 | a real threshold selects what some listed point selects if and only if there are no decisions, some score reaches it, or no score reaches 1 |
| `Frontier.ThresholdAboveOneUnlisted` | tools/run_step18_v4_evaluation.py:374-375 | a concrete gap: one decision scored 1 and a threshold of 1.5 |
| `LeakageAudit.FreeChainSameSide` | tools/run_step18_v4_evaluation.py:76-82 | if both flags hold and every record of no group lies in at most one truth entity, any finite chain of shared groups or entities between two grouped records has one single role at both ends |
| `LeakageAudit.SafeExactly` | tools/run_step18_v4_evaluation.py:76-82 | for given groups and entities the flags are enough under every assignment of roles if and only if some group is empty or records of no group connect no grouped records that grouped records alone do not |
| `LeakageAudit.SettledOutsidersAreSafe` | tools/run_step18_v4_evaluation.py:76-82 | the condition on records of no group makes the flags enough under every assignment of roles |
| `LeakageAudit.ChainSameSide` | tools/run_step18_v4_evaluation.py:76-82 | if both flags hold, chains through grouped records have one single role throughout, with no further condition |
| `LeakageAudit.AuditIsExact` | tools/run_step18_v4_evaluation.py:76-82 | both flags hold if and only if no group is empty and every chain through grouped records keeps to one role |
| `LeakageAudit.UngroupedRecordHidesLeak` | tools/run_step18_v4_evaluation.py:79-82 | a concrete input that both flags accept although a chain through a record of no group joins two roles |
| `Polling.PollProductRuns` | tools/run_step38_load_stress.py:300-328 | for every server and deadline the state is that of the full transcript, and final and timed-out runs partition the inputs |
| `Polling.PollRound` | tools/run_step38_load_stress.py:306-325 | one pass over the runs is one more round of the transcript |
| `Polling.PollOne` | tools/run_step38_load_stress.py:307-325 | the nested branches for one run equal one exchange of the protocol |
| `Polling.AfterStep` | tools/run_step38_load_stress.py:305-327 | one more round of the full transcript is one more pass over all runs from the state reached so far |
| `Polling.SoundAlways` | tools/run_step38_load_stress.py:314-325 | for every sequence of answers: a checkpoint is accepted at most once per run, a run's events project exactly onto its accepted list, other runs accept nothing, final runs are terminal |
| `Polling.RecordedExactly` | tools/run_step38_load_stress.py:306-325 | over every transcript, in the columns of the answers: the recorded events are exactly and in order the first pending checkpoints of answers about a target run that had not ended, not accepted before, answered 200 and then 200 or 202; a run is final exactly if an answer said that it had ended |
| `Polling.TranscriptExactly` | tools/run_step38_load_stress.py:305-309 | the transcript asks about every run in order, round after round |
| `Polling.KeyTexts` | tools/run_step38_load_stress.py:318-318 | the text of the review keys |
| `Polling.FinalIsFrozen` | tools/run_step38_load_stress.py:307-308 | a finalised run never changes again |
| `Polling.FinalIsFirstTerminal` | tools/run_step38_load_stress.py:324-325 | what is reported final is the first terminal answer, and a run without one is not final |
| `Polling.RecordedKeysDistinct` | tools/run_step38_load_stress.py:318-323 | no two recorded acceptances used the same review idempotency key |
| `Polling.PostedKeysShared` | tools/run_step38_load_stress.py:316-323 | over every sequence of answers, two reviews are posted under one idempotency key if and only if they are for the same run and none of its reviews was recorded from the first up to the second |
| `Polling.KeyReusedForAnotherCheckpoint` | tools/run_step38_load_stress.py:316-323 | a concrete transcript in which one key is posted for two different checkpoints |
| `Polling.IdleRounds` | tools/run_step38_load_stress.py:305-308 | once all runs are final further rounds change nothing, so stopping early loses nothing |
| `MediumDataset.MakeLines` | tools/run_step37_performance.py:366-372 | the loop emits, at every position, the line of that position |
| `MediumDataset.GrainUnique` | tools/run_step37_performance.py:366-372 | no two positions share the text of the order id and line sequence |
| `MediumDataset.SequencesContiguous` | tools/run_step37_performance.py:368-370 | the sequences of each order are exactly 1 up to its line count, and line counts differ by at most one |
| `MediumDataset.ReferencesResolve` | tools/run_step37_performance.py:353-372 | every customer, product, branch and order a line refers to is emitted, and agrees with its order |
| `MediumDataset.QuantityTotal` | tools/run_step37_performance.py:372-372 | the quantity total is 15 times the whole fives plus the triangular rest |
| `MediumDataset.NeighboursDiffer` | tools/run_step37_performance.py:364-372 | any 50 consecutive lines name 50 products, 25 consecutive orders 25 customers, 8 of them 8 branches, 30 of them 30 days, and prices differ within 17 lines |
| `MediumDataset.LinesPerOrder` | tools/run_step37_performance.py:363-369 | every order has 100 or 101 lines from 100000 lines on, and at most 100 before |
| `MediumDataset.GeneratedPassesOracle` | tools/run_step37_performance.py:458-465 | the generated lines pass the oracle at every size but zero, where it raises; of its four dimension joins the date one holds by construction, because the date rows are derived from the lines |
| `MediumDataset.OracleExactly` | tools/run_step37_performance.py:458-465 | the oracle passes exactly a nonempty table of the requested size and quantity total in which every line finds its customer, product and branch and no two lines share a grain |
| `MediumDataset.GrainTexts` | tools/run_step37_performance.py:372-372 | the text of the grain |
| `Topology.CriticalTopologyValid` | tools/validate_engineering_plan.py:133-159 | the scan with early returns accepts if and only if every table entry holds and no owned stage consumes from a later one |
| `Topology.PositionsNeverRise` | tools/validate_engineering_plan.py:150-158 | along any chain from consumer to producer stage positions never rise |
| `Topology.CycleIsOneStage` | tools/validate_engineering_plan.py:150-158 | in an accepted plan no data-flow cycle passes through two different stages of the graph |
| `Topology.CriticalContractsInOrder` | tools/validate_engineering_plan.py:133-159 | in an accepted plan each critical contract is produced at the stage and by the component the table names, which owns that stage; both list it, and no stage whose owner consumes it comes earlier |
| `Topology.ForwardExactly` | tools/validate_engineering_plan.py:150-158 | nothing is consumed from a later stage exactly if no stage whose owner consumes something lies wholly before a listing of the stage that produces it |
| `Topology.EntryExactly` | tools/validate_engineering_plan.py:139-149 | a table entry holds exactly if the contract names that component and stage, the component owns the stage and lists the contract, and the last listing of the stage lists it too |

## Left out

- Input and output: files, HTTP, subprocesses, the clock and threads. The text of the repository's files, the server's answers, the number of rounds before the deadline and the time of each operation are parameters.
- Execution state: steps given as booleans or fractional numbers, the exceptions the source raises on unhashable values or on a nested document of the wrong type (modelled as rejection), `step30_handoff`, and texts the recogniser never compares with (all `Free`). The files the terminal check reads are given by the words that occur in them.
- ExecutionState.RelaxedAtMostOnce: the call relation is written out from the predicates' bodies as a superset of their calls, because Dafny cannot quantify over the calls of a function.
- Job queue: failure codes, heartbeats, audit rows, review contexts, plan registration (a stage job needs only its run here), the reconciliation phase (read by the worker, never written by these operations), the attempt's artifact references and own status text, and the comparison of timestamps as ISO text (they are integers here).
- ControlStore.Store.EnqueueJob: the conflict raised when a known command id arrives with another fingerprint is not modelled; a known id is reported as not added.
- ControlStore.Store.UpdateRun: of a run only the status and revision are modelled, and every status that is neither cancelled nor succeeded is one.
- RunCompletion.DependenciesComeFirst: the dependencies and required stages are those of the plan each operation was issued under; how plans are advanced is not modelled.
- JobDiscipline.ConsistentRun: speaks of runs whose operations follow the workers' checks; the store itself would accept others.
- Cancellation.CancellationIsFinal: for a run that had already succeeded at the cancellation, asks that it is open when a resume is accepted, while the worker looks at the run in an earlier transaction. A cancellation in between is harmless (`CancelledRunNeverSucceeds`); a run that succeeds in between is the gap of `ReopenedStageSucceeds`.
- Execution plans: the selection, checkpoint and final-validation rules beside the acyclicity check, which only add one-branch facts.
- Entity resolution: the fallback chain that collects labelled pairs, duplicate entity ids, and the copies of counts reported under second names.
- Normal form: the concrete text of `json.dumps` (any injective rendering is allowed) and hashing.
- Truth shuffle: the truth document around the entity lists, and `_metric_signature` and `_reverse_schema_payload`, which are short helpers.
- Floating-point rounding, including the rounded mean in the latency summary; `round` is any monotone function.
- Ranking: negative k values and the labels copied into the report.
- Frontier: the coverage, precision and recall fields, which are guarded quotients of the counts modelled.
- Leakage audit: groups of other tasks and repeated group or entity ids in the input lists.
- Polling: the payloads posted and the sorting of the timed-out list.
- Data generator: the rendered texts, dates, prices and dimension rows other than their numbers; and the materializer itself, which is taken to store the lines it is given and the date of every line. Negative row counts.
- Topology: the fixed critical-topology table is a parameter, and repeated component or contract ids are taken as the dictionaries leave them.
- The rest of the platform (discovery, fusion, planning, compilation, materialization, review, the web interface) and the text-searching validators.
