# Durable workflows and listing photos: a Dafny model

Kokoto is a durable workflow runtime over one SQLite table. Executors claim rows under leases, run deterministic
bodies whose step results are logged, retry with backoff, honour cancellation, and replay after crashes. This project
models that protocol, two workflows of the web application that run on it, its UUIDv7 generator, and the listing-photo
pipeline, and proves what they keep over every run.

## How it is put together

| Files | What they model |
|---|---|
| `Table.dfy` | the workflow and step tables: each SQL statement as a function on rows, and as a method of a `Database` |
| `Worker.dfy`, `Attempt.dfy` | `runWorkflow`: an interpreter that replays a body against its step log, as a step function and as a class with a loop |
| `Cell.dfy` | everything about one workflow id: row, log, live workers and histories, with every atomic step that touches it |
| `Budget.dfy`, `Lease.dfy`, `Replay.dfy`, `Endings.dfy`, `Cancellation.dfy`, `Clock.dfy`, `Stale.dfy` | theorems about all histories of one cell |
| `Cluster.dfy` | all executors and submissions on one table; every run projects onto cell histories, which carries the theorems over |
| `Dispatches.dfy`, `Start.dfy`, `Enqueue.dfy`, `Inquiry.dfy`, `Sync.dfy`, `Fairness.dfy` | the number of claims in a run, starting a workflow and idempotent enqueue, the two application workflows, and the claim order |
| `Dispatcher.dfy`, `Shared.dfy`, `Runtime.dfy` | counters, ticks, the auto loop and the drain handshake as a state machine; ticks and `runDrain` as methods on the shared table, with everybody else at work between their awaits |
| `StepIds.dfy`, `Uuid.dfy` | numerals, step ids and UUIDv7 (section 5.7 of RFC 9562) |
| `UploadQueue.dfy`, `Photos.dfy`, `PhotoHandlers.dfy` | the serial upload queue; photos over object storage and table, for all interleavings and as handlers |

`dafny verify dfyconfig.toml` checks all of it.

## What the theorems assume

- A body is a function of its input and of the results of the steps it has called. It does not branch on `ctx.now()` or
  on the attempt number, does not catch step or cancellation errors, and does not run steps in parallel.
- Inputs, results and outputs are values that JSON encoding and decoding return unchanged. The client is transactional.
- All executors register the same workflows, and no deploy changes them. The ticks of one executor do not overlap in
  `Cluster.dfy`: a claim uses the clock of that executor's latest tick (`Dispatcher.OneDriverNeverOverlaps` says when).
- Each SQL statement and each committed transaction is atomic; one that throws has changed nothing. All executors read
  one clock, which does not go back.
- Lease-dependent theorems (`ClusterExclusion`, `ClusterFinality`, `ClusterReplay`, the inquiry theorems) take the
  hypothesis `OnTime`: whenever a booting executor reclaims, every executor with live workers has renewed its leases
  less than its `leaseMs` after the `now` of its previous renewal. This is a hypothesis on the run: `stop()` and a manual
  drain do not renew while workers run. The budget, the append-only log, idempotent enqueue and the permanence of
  cancellation do not use it, and `Stale.dfy` shows what is lost without it.
- `OneInquiryForEachDay` assumes that keys of the inquiry form are used for `submitInquiry` only.
- Fresh ids are fresh: two UUIDs drawn for different photos differ. `FirstInsertWins` takes a fresh id too, while
  `IdempotentEnqueue` does not.

## Where code and documentation disagree

The model follows the code.

- The package README says boot recovery resets running rows of a different executor. The code resets running rows whose
  lease has run out, whoever owns them (packages/kokoto/src/sql.server.ts:174-180).
- The package README and a comment in the inquiry workflow say that `ctx.now()` is the same across replays. A reclaim
  or a requeue clears `started_at` and the next claim stamps it anew, so it is the same within one attempt, and two
  attempts agree exactly when their claims read one clock (`Clocks.NowAgreesExactlyWhen`,
  `Clocks.ReplaySeesAnotherTime`).
- A comment says that `drain()` resolves once a tick claims nothing. The code stops when no worker promise is left
  (packages/kokoto/src/runtime.server.ts:256), whatever its tick claimed (`Dispatcher.DrainEndsExactlyWhen`,
  `Dispatcher.DrainEndsEarly`).
- A `drain()` call beside a running auto loop makes ticks overlap, and then the caps can be exceeded: they hold exactly
  in manual mode (`Dispatcher.CapsHoldExactlyWhen`).
- A finalize or requeue matches on the id only. A worker whose row was taken over can overwrite it, so a terminal row
  is final exactly when no worker of it is left (`Stale.TakeoverBreaksReplay`, `Stale.FinalExactlyWhen`); the step row of a repeated `txStep` is ignored but the user's write is not
  (`Stale.DoubleWriteExactlyWhen`).
- An empty idempotency key is stored but not looked up (`Enqueue.AnswerNamesItsRow`).
- Ten characters of an ISO date do not contain the day for years below 0 or above 9999
  (`InquiryKeys.InquiryKeyExactly`).
- A raw upload that throws after it stored its object, and a public one too, leaves it without any delete
  (`Photos.OrphansExplained` counts these as strays).

## Model

| member | source | states |
|---|---|---|
| `Clusters.ClusterReplay` | packages/kokoto/src/worker.server.ts:60-277 | for every workflow at every moment of a run with on-time heartbeats, whatever crashes, failures and re-dispatches happened, one sequence of results exists over which an uninterrupted evaluation stores exactly the step log, whose transactional steps were each committed once, and which every live worker is following; the row succeeds only with the value the body returns there, fails only with what the body throws there or what was thrown at its last allowed attempt, and is cancelled only if it was asked to be |
| `Replay.ReplayTransparency` | packages/kokoto/src/worker.server.ts:60-95 | the same for the history of one row, starting at its insertion |
| `Replay.AdvanceOnPath` | packages/kokoto/src/worker.server.ts:133-167 | running a body to its next call keeps a worker on the path that the log spells, whether the step is answered from the cache, fails, is cancelled or is fresh |
| `Replay.CommitOnPath` | packages/kokoto/src/worker.server.ts:84-90 | storing a fresh result extends that path by exactly this result |
| `Replay.ExactlyOnce` | packages/kokoto/src/worker.server.ts:96-130 | with timely leases, the user write of a step id is committed once if its row was stored by a txStep and never otherwise, at every moment of every history |
| `Replay.TxIdsMeaning` | packages/kokoto/src/worker.server.ts:96-130 | the ids counted as transactional are those that a fresh transactional call of the body got, in both directions |
| `Worker.PathsAgree` | packages/kokoto/src/worker.server.ts:60-66 | a step log determines the run: two evaluations that leave one log are prefixes of each other |
| `Worker.Replayed` | packages/kokoto/src/worker.server.ts:140-148 | a part of a path stops at a call whose stored answer is the next result of the path |
| `Worker.PlainNamesGiveDistinctIds` | packages/kokoto/src/worker.server.ts:136-138 | with names free of `#`, all calls of an evaluation get different step ids |
| `Worker.BackoffRange` | packages/kokoto/src/worker.server.ts:247 | the retry delay is within 500 ms and 60 s, never shrinks, and at most doubles from one attempt to the next |
| `Worker.BackoffDoubles` | packages/kokoto/src/worker.server.ts:247 | it is 500 ms after the first attempt and then twice the one before, up to 60 s |
| `Attempts.RunWorkflow` | packages/kokoto/src/worker.server.ts:60-277 | one attempt that may die after any number of turns, with heartbeats and cancel requests on its row and anything on other rows and logs in between: it continues the path of the log it found, stores nothing if cancellation was requested before it began, changes nothing of its row before its final write, and ends as the body does at the end of the path or with a rejection; if no step function rejects, the turns suffice and the body returns there, it succeeds with that value |
| `Attempts.RunTurns` | packages/kokoto/src/worker.server.ts:78-167 | the loop behind it, with the path invariant kept across what others do between turns; only a body that has made at least a third as many calls is still unfinished after all turns |
| `Attempts.Turn` | packages/kokoto/src/worker.server.ts:78-167 | one turn keeps the worker on a path, makes progress unless the body has ended, and stores nothing new for a flagged row unless a step was already entered |
| `Attempts.Conclude` | packages/kokoto/src/worker.server.ts:212-277 | the final write, column by column on the row as it is by then: success with the value the body returns at the end of the path; cancelled only if requested and before a step without a result; requeued with the backoff exactly while attempts remain, otherwise error, both only with what the body throws there or what was thrown at the attempt |
| `Endings.EndingsAreCaused` | packages/kokoto/src/worker.server.ts:212-277 | in every history with stale workers and crashes, each attempt about to end has its cause: the value its body returns, what its body throws, what was thrown at it, a stored failure, a request to cancel, or no definition |
| `Endings.FinalWrite` | packages/kokoto/src/worker.server.ts:210-277 | what the final write leaves in every column of the row for each ending |
| `Endings.WorkerCanMove` | packages/kokoto/src/worker.server.ts:78-167 | a live worker can always take the next step of its source |
| `Endings.HistoriesCount` | packages/kokoto/src/sql.server.ts:169-184 | resets, calls and throws are counted exactly when they happen |
| `Endings.OwnWorkersOnly` | packages/kokoto/src/sql.server.ts:191-202 | a death takes exactly the workers of its own process, a heartbeat renews exactly those of its executor |
| `Endings.RowCanBeTouched` | packages/kokoto/src/sql.server.ts:169-260 | a row can be claimed if and only if it is pending and due; boots, heartbeats, cancel requests and deaths come at any time |
| `Dispatches.ExecutorsCanAct` | packages/kokoto/src/runtime.server.ts:161-205 | executors boot, tick, renew, reclaim and die at any moment, whatever the others do |
| `Dispatches.WorkersCanAct` | packages/kokoto/src/worker.server.ts:78-277 | a worker step can be taken if and only if its row allows it |
| `Attempts.Attempt.Load` | packages/kokoto/src/worker.server.ts:39-68 | the cache is the rows of this workflow, or the attempt ends as unregistered |
| `Attempts.Attempt.Advance` | packages/kokoto/src/worker.server.ts:133-167 | for each action of the body: a return and a throw end the attempt with their value and message; a call is counted, answered by its stored result, failed by its stored failure, cancelled if the row is flagged, and otherwise entered |
| `Attempts.Attempt.Commit` | packages/kokoto/src/worker.server.ts:84-89 | the row is stored unless one is there, no other log changes, and the value becomes a result |
| `Attempts.Attempt.Finish` | packages/kokoto/src/worker.server.ts:210-277 | the row becomes what the specification of the final write says, and the answer names the case |
| `Clusters.ClusterExclusion` | packages/kokoto/src/runtime.server.ts:481-529 | with on-time heartbeats, in every state with any number of executors booting, a row has at most one live worker, it matches the row in executor, attempt and lease, row fields are coherent with the status, and a booting executor leaves a row with a live worker alone |
| `Clusters.ClusterFinality` | packages/kokoto/src/sql.server.ts:262-281 | with on-time heartbeats a terminal row, its log and its histories never change again |
| `Clusters.OnTimeIsTimely` | packages/kokoto/src/runtime.server.ts:490-492 | heartbeats on time at the executors make a reclaim harmless for every row with a live worker |
| `Clusters.Projection` | packages/kokoto/src/sql.server.ts:169-260 | every run projects, for every row, onto a history of that row alone, and on-time runs onto timely histories |
| `Clusters.TableView` | packages/kokoto/src/sql.server.ts:169-260 | boot reclaim, heartbeat, claim and insert change the row table by the statement they stand for |
| `Clusters.RowView` | packages/kokoto/src/sql.server.ts:262-298 | a cancel request and a worker step change one row only, and of the worker steps only the final write changes any, whoever the row belongs to by then |
| `Clusters.QuietView` | packages/kokoto/src/sql.server.ts:169-354 | no other step of the system changes the row table |
| `Clusters.LogView` | packages/kokoto/src/sql.server.ts:305-329 | only a commit changes a step log, by one row and only where none is |
| `Lease.LeaseExclusion` | packages/kokoto/src/sql.server.ts:169-202 | the invariant for one row: a live worker is the current attempt, and pending, running and terminal rows have the fields they should |
| `Lease.OneLiveWorker` | packages/kokoto/src/sql.server.ts:169-184 | at most one live worker, and a timely reclaim does not touch its row |
| `Lease.TerminalIsFinal` | packages/kokoto/src/sql.server.ts:262-281 | terminal statuses are absorbing and the stored output stays |
| `Stale.FinalExactlyWhen` | packages/kokoto/src/sql.server.ts:262-298 | with no lease hypothesis: a terminal row is final, whatever happens, if and only if no worker of it is left |
| `Clusters.ClusterFinalWhenAlone` | packages/kokoto/src/sql.server.ts:262-298 | so over every run a terminal row without workers keeps row, log and histories for ever |
| `Stale.DoubleWriteExactlyWhen` | packages/kokoto/src/worker.server.ts:114-115 | with stale workers allowed, for every transactional commit: its row is dropped if and only if one is stored; its write repeats an earlier one if and only if an earlier transactional commit of this id happened; and for ids that only transactional steps of the workflow use the two conditions agree |
| `Stale.OneWriteForEachRow` | packages/kokoto/src/worker.server.ts:96-130 | with timely leases and an id that only transactional steps of this workflow use: one committed write if the row is stored, none if not |
| `Clusters.ClusterExactlyOnce` | packages/kokoto/src/worker.server.ts:96-130 | the same over every run of the whole system with on-time heartbeats |
| `Stale.TakeoverBreaksReplay` | packages/kokoto/src/sql.server.ts:262-281 | a concrete history with a late heartbeat: the user write is committed twice and the final status of a finished row is overwritten with an output that is not the stored one |
| `Clusters.ClusterBudget` | packages/kokoto/src/worker.server.ts:245-260 | with no lease hypothesis: attempts never exceed max(1, max_attempts) plus the reclaims that reset the row, each step function is called at most once for each attempt, and logs and histories only grow |
| `Budget.DispatchBudget` | packages/kokoto/src/sql.server.ts:250-257 | the same for one row, by accounting every dispatch to a requeue or a reset |
| `Budget.RunsAreAttempts` | packages/kokoto/src/worker.server.ts:78-95 | calls of one step function are counted exactly by the attempts that made them |
| `Cells.OnlyGrows` | packages/kokoto/src/sql.server.ts:305-322 | over any history from any state on, a stored step row never changes, submissions stay fixed and the cancellation flag stays |
| `Clusters.ClusterCancellation` | packages/kokoto/src/sql.server.ts:336-354 | after a request on a row the flag stays for ever, the step functions called afterwards number at most the workers that were past their check, one if heartbeats are on time, and the log gains only results of steps entered before the request |
| `Cancellation.CancellationIsPermanent` | packages/kokoto/src/worker.server.ts:157-160 | the same for one row, naming the calls that are still possible |
| `Cancellation.FreshStepCancels` | packages/kokoto/src/worker.server.ts:227-243 | over any history after the request: an attempt that meets a step without a stored result calls nothing from then on, and whenever its final write comes, whatever happened to the row in between, that write leaves the row cancelled |
| `Cancellation.OnlyEnteredAlways` | packages/kokoto/src/worker.server.ts:140-159 | over any history after the request only results of steps entered before it are stored |
| `Clocks.NowIsTheClaim` | packages/kokoto/src/worker.server.ts:74 | at every moment of an attempt ctx.now() is the clock that its claim read, with no lease hypothesis |
| `Clocks.NowAgreesExactlyWhen` | packages/kokoto/src/sql.server.ts:244-257 | two attempts see one ctx.now() if and only if their claims read one clock |
| `Clocks.ReplaySeesAnotherTime` | packages/kokoto/src/sql.server.ts:174-180 | a concrete row whose second attempt sees a later time |
| `Table.Database.ClaimPending` | packages/kokoto/src/sql.server.ts:227-260 | takes only pending rows that are due and of the queue asked for; leaves such a row only when the limit is filled, and with no chosen row behind it by scheduled_for and then created_at; stamps status, executor, lease, start time and attempt of the chosen rows and changes nothing else |
| `Table.ClaimMeans` | packages/kokoto/src/sql.server.ts:244-249 | the same choice said of the columns alone |
| `Table.PickFirst` | packages/kokoto/src/sql.server.ts:245-249 | the selection inside it |
| `Table.SomeRowIsFirst` | packages/kokoto/src/sql.server.ts:247 | a non-empty set of rows has a first one in the claim order |
| `Table.Database.ReclaimExpired` | packages/kokoto/src/sql.server.ts:169-184 | running rows whose lease is missing or has run out lose executor, start time and lease and are otherwise as before, no other row changes, the count is that of the changed rows, and at this or any earlier time nothing is left to reclaim |
| `Table.Database.ExtendLeases` | packages/kokoto/src/sql.server.ts:191-202 | running rows of this executor change in their expiry only and no other row does, so before the new expiry no reclaim finds any of them |
| `Table.Database.FinalizeWorkflow` | packages/kokoto/src/sql.server.ts:262-281 | writes its columns in the row of this id whatever its status and owner are, and changes no other row |
| `Table.Database.RequeueWorkflow` | packages/kokoto/src/sql.server.ts:283-298 | puts the row of this id back to pending at the given time without executor, start time and lease, whatever its status and owner are |
| `Table.Database.RequestCancel` | packages/kokoto/src/sql.server.ts:336-354 | a pending row becomes cancelled with both times set, a running one only gets its flag, a terminal one is unchanged, other rows too, and the answer says which |
| `Clusters.CancelledBeforeItRuns` | packages/kokoto/src/sql.server.ts:336-354 | over every run with no lease hypothesis: a request on a pending row that no worker holds leaves it cancelled for ever, with no step function called and nothing stored any more |
| `Table.Database.InsertStep` | packages/kokoto/src/sql.server.ts:305-329 | stores a step row only where none is |
| `Table.Database.InsertWorkflow` | packages/kokoto/src/runtime.server.ts:286-302 | a taken key changes nothing and is no error, a free key with a taken id throws, otherwise the row is stored |
| `Table.Database.SelectByKey` | packages/kokoto/src/runtime.server.ts:305-311 | answers a row with the key exactly when there is one |
| `Enqueue.IdempotentEnqueue` | packages/kokoto/src/runtime.server.ts:269-311 | for all interleavings of inserts and selects, calls with one non-empty key are answered with one id, the only row with that key, whose submission never changes |
| `Enqueue.FirstInsertWins` | packages/kokoto/src/runtime.server.ts:286-302 | that row carries the input of the call whose insert stored it |
| `Enqueue.AnswerNamesItsRow` | packages/kokoto/src/runtime.server.ts:304-311 | with keys of any kind: an answer names a row with the key of the call if and only if the key is not empty or no other row holds the empty key |
| `Enqueue.EnqueuedAlways` | packages/kokoto/src/schema.server.ts:46 | keys are unique in every reachable state and every call in progress can rely on its key being taken |
| `Starts.StartWorkflow` | packages/kokoto/src/runtime.server.ts:269-311 | an unregistered name changes nothing; otherwise the row has its columns from the options and, where they leave one out, from the definition and the clock, is new unless its key was taken, and the answer is the given or drawn id or, with a key that is not empty, a row with this key |
| `Inquiry.OneInquiryForEachDay` | apps/www/src/workflows/submit-inquiry.workflow.server.ts:50-95 | however often and concurrently an inquiry is submitted: one workflow, at most one committed inquiries row, and one idempotency key over all its email calls |
| `Inquiry.EmailKeyNamesWorkflow` | apps/www/src/workflows/submit-inquiry.workflow.server.ts:62 | that key is the workflow id and the step name, and no two workflows share one |
| `Inquiry.InquiryWrittenOnce` | apps/www/src/workflows/submit-inquiry.workflow.server.ts:50-85 | the row is committed once if its step is stored and never otherwise, only behind the stored email step, and success returns its stored output |
| `Inquiry.SharedWorkflowExactlyWhen` | apps/www/src/workflows/submit-inquiry.workflow.server.ts:87-95 | two answered submissions share a workflow if and only if listing, gleaner and day slot agree |
| `InquiryKeys.InquiryKeyExactly` | apps/www/src/workflows/submit-inquiry.workflow.server.ts:88-95 | key strings agree if and only if listing, gleaner and the ten characters of the day do; for years within 0 and 9999 that is the day, beyond it only the month |
| `InquiryKeys.DaySliceExactly` | apps/www/src/workflows/submit-inquiry.workflow.server.ts:93 | when the first ten characters of two ISO dates agree, in both directions |
| `InquiryKeys.InquiryKeyExample` | apps/www/src/workflows/submit-inquiry.workflow.server.ts:93-94 | the key of one listing and day spelled out, for every gleaner |
| `Inquiry.InquiryPath` | apps/www/src/workflows/submit-inquiry.workflow.server.ts:50-85 | what the body logs and writes along every possible path |
| `SyncUser.UpsertWithRetry` | apps/www/src/workflows/sync-user-to-resend.workflow.server.ts:56-96 | makes exactly as many calls as the answers call for, succeeds if and only if an ok answer comes within five calls after transient ones only, and waits as told |
| `SyncUser.Calls` | apps/www/src/workflows/sync-user-to-resend.workflow.server.ts:65-94 | that number is within one and five, all answers before the last are transient, and the last is not unless it is the fifth |
| `SyncUser.BackoffGrows` | apps/www/src/workflows/sync-user-to-resend.workflow.server.ts:45-49 | waits start at the base, never shrink, and are capped from the sixth on |
| `SyncUser.BackoffDoubles` | apps/www/src/workflows/sync-user-to-resend.workflow.server.ts:45-49 | without a hint the wait is 500 ms and then doubles up to 15 s; a hint of the server is obeyed up to 15 s |
| `SyncUser.UpsertBudget` | apps/www/src/workflows/sync-user-to-resend.workflow.server.ts:109-135 | over every run with crashes and stale workers and for all answers of the service: the workflow calls no other step function, and makes at most five upserts for each dispatch, so at most five times what its limit and its resets allow |
| `Dispatcher.NoLostDrainRequest` | packages/kokoto/src/runtime.server.ts:236-262 | in every interleaving of drain() calls with ticks, rejections and the finally callback, whenever no drain runs no request is pending and a tick has started after every call |
| `Dispatcher.FlagStep` | packages/kokoto/src/runtime.server.ts:236-262 | the request flag is raised by a call that finds a drain running and taken down only where a new pass begins |
| `Dispatcher.LookStep` | packages/kokoto/src/runtime.server.ts:468-513 | a tick sends a claim exactly where there is a free place, for as many rows as the global cap and the queue leave |
| `Dispatcher.AutoLoopAlways` | packages/kokoto/src/runtime.server.ts:446-466 | in every run, drain() calls or not: a timer is pending exactly when its wake listener is registered, so each disarms the other; never more than one of a running tick and such a pair, and exactly one while the loop is on |
| `Dispatcher.HandlersDisarm` | packages/kokoto/src/runtime.server.ts:456-463 | whichever of the two handlers runs, neither timer nor listener is left |
| `Dispatcher.CountersAreRight` | packages/kokoto/src/runtime.server.ts:536-571 | in every run, overlapping ticks included: every counter is the number of unfinished workers of its queue, and the clamp at zero never acts |
| `Dispatcher.ConcurrencyCaps` | packages/kokoto/src/runtime.server.ts:468-529 | as long as ticks have not overlapped, every queue is within its concurrency and the rows in flight within globalConcurrency |
| `Dispatcher.OneDriverNeverOverlaps` | packages/kokoto/src/runtime.server.ts:446-466 | ticks do not overlap when the auto loop and drain() are not used together |
| `Dispatcher.CapsHoldExactlyWhen` | packages/kokoto/src/runtime.server.ts:468-529 | all runs of a configuration stay within all caps if and only if its dispatch mode is manual |
| `Dispatcher.OverlapBreaksTheCap` | packages/kokoto/src/runtime.server.ts:236-262 | a concrete run in auto mode in which overlapping ticks exceed globalConcurrency |
| `Dispatcher.DrainEndsExactlyWhen` | packages/kokoto/src/runtime.server.ts:251-262 | a drain stops after a tick if and only if no request is pending and every worker launched so far has gone, whatever the tick claimed |
| `Dispatcher.DrainEndsEarly` | packages/kokoto/src/runtime.server.ts:254-260 | a concrete run with a named queue in which it stops after a tick that claimed a row, whose worker ended while the tick waited for its claim of the unnamed queue |
| `Dispatcher.LiveWorkersCapped` | packages/kokoto/src/runtime.server.ts:536-571 | as long as ticks have not overlapped and no row was claimed again before its worker had left, unfinished workers are on distinct rows and within globalConcurrency |
| `Dispatcher.LaunchAllCounts` | packages/kokoto/src/runtime.server.ts:508-512 | launching a batch raises exactly the counter of its queue, by its size |
| `Dispatcher.FinishCounts` | packages/kokoto/src/runtime.server.ts:554-563 | a finally block keeps all counters right, and the one it lowers was at least one |
| `Runtimes.DurableRuntime.RunDrain` | packages/kokoto/src/runtime.server.ts:236-262 | with everybody else at work between all awaits, any queues, and any workers in flight at the start: every tick of a drain is paid for by a dispatch, by a drain() call or as the first; when it ends nobody is unfinished and no worker of this executor lives on the table; and while the runtime is active its last tick has, after the last drain() call, asked every named queue in order and then the unnamed one, which took and left nothing, so any row of that queue that was ready by its clock and is pending now arrived later |
| `Runtimes.DurableRuntime.Passes` | packages/kokoto/src/runtime.server.ts:251-262 | the outer loop of it |
| `Runtimes.DurableRuntime.Rounds` | packages/kokoto/src/runtime.server.ts:254-260 | the inner loop: all its rounds but the last found workers to wait for, and these are paid for by dispatches; it exits only after asking the unnamed queue |
| `SharedTables.LateArrival` | packages/kokoto/src/sql.server.ts:244-249 | a row that such a claim did not leave ready and that is ready now was inserted, requeued, or reset with its lease run out after it |
| `SharedTables.AliveStep` | packages/kokoto/src/sql.server.ts:244-257 | a live worker of an executor on the table comes from its own claims only |
| `Runtimes.DurableRuntime.Round` | packages/kokoto/src/runtime.server.ts:254-260 | a round goes on exactly if its tick leaves workers, which a dispatch or the start paid for, and otherwise its tick has emptied the unnamed queue |
| `Runtimes.DurableRuntime.DispatchTick` | packages/kokoto/src/runtime.server.ts:481-534 | an active tick reads its clock, renews the leases if anything is in flight, then looks at every named queue in order and at last at the unnamed one; wherever there is a place it sends a claim for just that queue and just the free places before the next look, which leaves nothing due there unless it fills them; and if it leaves nobody it has asked the unnamed queue |
| `Runtimes.DurableRuntime.ClaimNamed` | packages/kokoto/src/runtime.server.ts:498-513 | the part of it for the named queues |
| `Runtimes.DurableRuntime.ClaimQueue` | packages/kokoto/src/runtime.server.ts:498-529 | a claim is sent exactly if the capacity was positive; it stays within it although workers end meanwhile, and each row it took has a worker of its own, recorded for its queue and attempt |
| `SharedTables.SharedTable.Claim` | packages/kokoto/src/sql.server.ts:227-260 | a claim as a step of the whole system: the same choice by the columns of the rows, the same stamps and no other change, within the limit, and a dispatch more if it took a row |
| `Runtimes.DurableRuntime.CapacityForQueue` | packages/kokoto/src/runtime.server.ts:468-479 | the places left of the global cap, for a named queue at most those its own unfinished workers leave, and never below zero |
| `Runtimes.DurableRuntime.LaunchWorker` | packages/kokoto/src/runtime.server.ts:536-567 | the bookkeeping of a launch keeps counters and caps, also for a row that is still in flight |
| `Runtimes.DurableRuntime.WorkerEnded` | packages/kokoto/src/runtime.server.ts:554-563 | the finally block keeps them too, and whatever fitted before still fits |
| `Runtimes.DurableRuntime.WorkerMayEnd` | packages/kokoto/src/runtime.server.ts:549-563 | a worker ends only when its attempt is over on the table, so every live worker of the executor stays known to its runtime |
| `Dispatches.ClaimsWithinAllowance` | packages/kokoto/src/sql.server.ts:250-257 | in every run of any number of executors, with no lease hypothesis: the claims that took a row number at most the sum over all rows of max(1, max_attempts) plus the reclaims that reset it |
| `Dispatches.BecameReady` | packages/kokoto/src/sql.server.ts:244-249 | a row that is ready now and was not before was, at a step in between that made it so, inserted as a new row, requeued by a worker, or reset by a boot that found its lease run out |
| `Fairness.NoOvertaking` | packages/kokoto/src/sql.server.ts:244-249 | without reclaims and back-dated run times, the set of rows strictly ahead of a waiting ready row never gains a member |
| `Fairness.PassedOver` | packages/kokoto/src/sql.server.ts:244-249 | a claim that leaves a ready row behind has filled its limit, with no row that is behind it |
| `Fairness.AheadStep` | packages/kokoto/src/sql.server.ts:283-298 | no single step puts a row ahead of one that is ready |
| `StepIds.StepIdCollision` | packages/kokoto/src/worker.server.ts:24-26 | two calls share a step id if and only if they are one call or one name spells the suffix of the other |
| `StepIds.PlainNamesNeverClash` | packages/kokoto/src/worker.server.ts:24-26 | names without `#` are told apart with their sequence |
| `StepIds.NoSuffixOne` | packages/kokoto/src/worker.server.ts:24-26 | the suffix `#1` never occurs, for any name |
| `StepIds.HashNamesCanClash` | packages/kokoto/src/worker.server.ts:24-26 | a name with `#` that does share its id with another call |
| `Numerals.ParsePrint` | packages/kokoto/src/worker.server.ts:25 | printing a number and reading it back is the identity |
| `Numerals.PadRoundTrip` | packages/kokoto/src/uuidv7.ts:21 | zero-padding to a width the number fits keeps the number and gives that width |
| `Uuid.TimestampRoundTrip` | packages/kokoto/src/uuidv7.ts:10-13 | the first twelve hex digits read back to the timestamp, for every timestamp below 2^48 and all random bytes |
| `Uuid.VersionAndVariant` | packages/kokoto/src/uuidv7.ts:15-17 | version 7 and variant bits 10 at their places, for every timestamp and all random bytes |
| `Uuid.RandomBitsKept` | packages/kokoto/src/uuidv7.ts:15-17 | the marks take the high four bits of one byte and the high two of another, and all 74 other bits are kept |
| `Uuid.SameIdExactlyWhen` | packages/kokoto/src/uuidv7.ts:15-29 | two ids of one millisecond are equal if and only if all 74 random bits are |
| `Uuid.Layout` | packages/kokoto/src/uuidv7.ts:29 | 36 characters, dashes at their four places, and where each field sits |
| `Uuid.EarlierSortsFirst` | packages/kokoto/src/uuidv7.ts:10-29 | a smaller timestamp always gives a lexicographically smaller string |
| `Uuid.SortsByTime` | packages/kokoto/src/uuidv7.ts:10-29 | for different timestamps the order of the strings is that of the timestamps, in both directions, so the strings differ |
| `Uuid.HexOrder` | packages/kokoto/src/uuidv7.ts:21 | hex numerals of one width are ordered as strings as their numbers are |
| `Uuid.Generate` | packages/kokoto/src/uuidv7.ts:15-29 | the buffer is overwritten in place with the marked bytes and printed as the specification says |
| `Uuid.HexOf` | packages/kokoto/src/uuidv7.ts:22-27 | the loop prints exactly the given stretch of the buffer |
| `UploadQueue.DepthCounts` | apps/www/src/lib/listing-photo-upload.server.ts:61-91 | in every run of submissions, successes and failures the depth is the number of accepted jobs that have not settled, within 0 and 4 |
| `UploadQueue.RefusedExactlyWhenFull` | apps/www/src/lib/listing-photo-upload.server.ts:70-76 | a submission is refused if and only if four accepted jobs are unsettled |
| `UploadQueue.OneActiveBody` | apps/www/src/lib/listing-photo-upload.server.ts:55-60 | at most one job is between its start and its release |
| `UploadQueue.StartsInAcceptanceOrder` | apps/www/src/lib/listing-photo-upload.server.ts:86-89 | bodies start as job 0, job 1 and so on, without gap or repeat |
| `UploadQueue.NeverBlocked` | apps/www/src/lib/listing-photo-upload.server.ts:86-89 | whatever the earlier jobs ended with, the first unsettled job can move and all behind it are waiting |
| `UploadQueue.Drains` | apps/www/src/lib/listing-photo-upload.server.ts:69-91 | without new submissions each event spends one of at most twelve remaining ones |
| `UploadQueue.PhotoUploads.WithUploadLock` | apps/www/src/lib/listing-photo-upload.server.ts:69-91 | accepts onto the tail or refuses, exactly when the queue is full, and keeps the chain and the count |
| `UploadQueue.PhotoUploads.AssertPhotoUploadCapacity` | apps/www/src/lib/listing-photo-upload.server.ts:94-102 | throws exactly when four accepted jobs are unsettled |
| `UploadQueue.PhotoUploads.Release` | apps/www/src/lib/listing-photo-upload.server.ts:86-88 | the finally callback lowers depth and unsettled jobs together |
| `Photos.RowsHaveTheirObjects` | apps/www/src/api/listing-photos.ts:89-152 | over all interleavings of uploads, failures and deletes, the raw and public object of every row are in storage |
| `Photos.ListingsStayLimited` | apps/www/src/data/queries.server.ts:302-326 | every listing has at most three rows, with pairwise different orders |
| `Photos.NewPhotoSortsLast` | apps/www/src/data/queries.server.ts:302-326 | a commit adds a row if and only if the database answers and the listing has room; its order is one more than the greatest of its listing, or 0, and nothing else changes |
| `Photos.OnlyOwnerDeletes` | apps/www/src/data/queries.server.ts:376-400 | over every run: a row leaves or changes only at a delete by the user who owns its listing at that moment |
| `Photos.OrphansExplained` | apps/www/src/api/listing-photos.ts:105-144 | once all calls have returned, an object is in storage if and only if a row owns it, its cleanup delete failed, or a failed upload had stored it; never two of the first and the others |
| `Photos.OrphansAreFailedDeletes` | apps/www/src/api/listing-photos.ts:188-195 | if failed uploads store nothing, the objects without a row are exactly those that a failed delete of the run left behind |
| `Photos.StepConsistent` | apps/www/src/lib/listing-photo-upload.server.ts:218-330 | the invariant that ties rows, storage and the stage of every photo, for each single step |
| `Photos.KeysDiffer` | apps/www/src/lib/listing-photo-upload.server.ts:202-204 | keys of different ids differ whatever their extensions are |
| `Photos.MaxOrder` | apps/www/src/data/queries.server.ts:316-320 | the greatest order, or -1 when there is none |
| `PhotoHandlers.Gallery.AddPhoto` | apps/www/src/api/listing-photos.ts:89-152 | with other requests at work between its awaits: answers the photo if and only if both objects are stored and the row fits when its transaction runs, and then only its row is new; every other answer leaves no row and exactly those of its objects that failed calls left |
| `PhotoHandlers.Gallery.DeletePhoto` | apps/www/src/api/listing-photos.ts:166-198 | with other requests at work between its awaits: finds the row if and only if it is there and its listing is stored, owned by this user and not deleted; then leaves neither the row nor its objects but those whose delete was not done; otherwise changes nothing |
| `PhotoHandlers.Gallery.Await` | apps/www/src/api/listing-photos.ts:89-152 | whatever other photos and listings go through, this photo keeps stage, row and objects |
| `PhotoHandlers.Gallery.UploadListingPhotoLocked` | apps/www/src/lib/listing-photo-upload.server.ts:193-344 | succeeds if and only if both uploads do; otherwise the raw object is left only if it was stored and not removed again, the public one only if it was stored |
| `PhotoHandlers.Gallery.AddPhotoToListing` | apps/www/src/data/queries.server.ts:289-329 | count, refuse at the limit, else insert behind the greatest order; a throw changes no row |
| `PhotoHandlers.Gallery.DeleteListingPhoto` | apps/www/src/data/queries.server.ts:376-400 | deletes and returns the row if and only if it is there and its listing is stored, owned by this user and not deleted |

## Left out

- RunDrain: a statement that throws and so rejects the drain is not part of it, nor is a drain in auto mode; both are in the state machine of `Dispatcher` (`NoLostDrainRequest`). A tick whose last capacity check finds no place returns without an await, and `runDrain` looks at inFlightWorkers in the next microtask; the promise of a worker that ends in between leaves one microtask later, and the model uses that order.
- ConcurrencyCaps: says nothing once ticks have overlapped, as then it fails (`CapsHoldExactlyWhen`).
- NoOvertaking: assumes that the clock is read in the same step as the statement that uses it and that run times are not back-dated.
- AddPhoto: its two deletes are answered in order, raw first; either order is in the state machine of `Photos`. Other requests touch other photos and listings, since nobody else knows the id before its row is there.
- Drains: counts events, not time; that started bodies end is not stated.
- SQLite itself, query plans, indexes, the boot integrity check and DDL text.
- JSON encoding and the 1 MB payload cap, beyond encoding and decoding being the identity on the value type.
- Telemetry, logging, spans and the executor heartbeat table, which no reclaim reads.
- Polling in `handle.result()`, signal handling, `stop()` waiting and boot wiring.
- Liveness: rows of unregistered queues are never claimed, reclaim runs only at `start()`, and a row whose final write threw stays running until then.
- Stability of `ctx.now()` across attempts and lost updates in `updateListingById`, which the code does not provide.
- Email, Resend, object storage and image conversion themselves: calls become events with an outcome, and the email call an event with its key.
- The checks before an upload (session, form fields, size, MIME type, magic bytes) and the staging file.
- Hard deletes by foreign-key cascade, which remove photo rows but not their objects.
- User interface components, routes, validation schemas and map helpers.
