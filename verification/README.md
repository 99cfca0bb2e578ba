# Proofs about the device farm backend

A Dafny model of the parts of the backend that must not go wrong when many things happen at once,
with proofs of what they guarantee. `dafny verify dfyconfig.toml` checks everything.

## What is modelled

**Task dispatch** (`TaskQueue`, `TaskOrder`, `BatchTotals`, `TaskEffects`, `TaskService`,
`Watchdog`, `TaskRuns`, `TaskRefinement`, `BatchLaunch`, `TaskInvariants`, `TaskTiming`,
`TaskTheorems`, `TaskPriorities`, `TaskOrigins`, `TaskAccounting`, `TaskFinality`, `TaskTimeouts`,
`TaskCancellations`, `TaskDuplicates`, `TaskLimits`). Task rows, batch rows, one sorted set per
organisation and device, one running lock per device with an expiry, a clock. `TaskService.dfy` and
`Watchdog.dfy` hold the services as classes that change one database and one queue; each method is
proved to leave the store described by a function in `TaskEffects.dfy`. `TaskRuns.dfy` builds a timed
state machine out of exactly those functions, and `BatchLaunch.dfy` proves that a batch, from
`start_batch` to the end of its launcher, is a run of it. The theorems speak about every run, in terms of
rows, slots, locks and counters: mutual exclusion on a device and no lost work, each with its exact timing bound;
queues that follow the priorities of the rows; where every row, every status and every batch total comes
from; which steps can undo a final status, a timeout or a cancellation; when a device can have two open
tasks for one script; isolation of queues, no stuck work, exact batch counters and verdicts.

**Wave building** (`Waves`): both branches of `create_waves`, with permutation, wave sizes, groups that
are exactly the workstations, and round-robin fairness to workstations.

**DAG scripts** (`DagGraph`, `DagPlaceholders`, `Json`): the graph checks are proved to accept
exactly the well-formed graphs, the unused cycle check is proved sound, and substituting account
values is proved to keep the control graph.

**Event reactor and accounts** (`AccountEffects`, `AccountServices`, `ReactorRuns`, `EventOutcomes`,
`AccountRuns`, `AccountCalls`, `Triggers`, `TriggerTemplates`, `TemplateNesting`): what each event does,
told by its name, status reactions, sessions, rotation, operator calls, triggers with their cooldown and
their parameter templates.

**Two small machines**: the rate limiter (`RateLimit`) and refresh-token rotation (`RefreshTokens`).

## Assumptions

- One dispatcher loop runs. A dispatch is two steps, pop and finish, with anything in between; the
  lock check and the script that pops are one step, which is the same as long as nobody else pops.
- The watchdog completes a cycle at least every 60 s of model time, and a dispatch ends within a
  bound `maxDelay`. The loop sleeps 60 s after each cycle, so cycles that take time make the real
  period longer; the bound of `MutualExclusionExactly` says how much room there is.
- Between the pop and the end of a dispatch anybody may write the row of the task in flight: it may be
  cancelled, stopped, cancelled with its batch, or expired by the watchdog.
- Sending the command and committing RUNNING are one step (Delivered), so no result comes in between. In
  the code the commit follows at the end of the dispatcher's cycle
  (backend/api/v1/tasks/router.py:105-116); `FastResultWouldBeLost` says what a faster result would meet.
- Templates are filled with device, account and event ids that contain no brace (they are UUIDs); the
  event type is free text (backend/api/ws/android/router.py:276).
- `send_command_live` returning False means that no result will come from that attempt, and an agent
  answers only commands that may have reached it.
- Every service operation is one atomic step, and a single Redis command does not fail. An exception
  between popping and delivering is modelled (the task keeps its lock).
- Times are real numbers and the queue score is computed exactly.
- Reactor: a new session id and a new account id are new, and a request whose query raised is rolled
  back. Tokens: hashing is injective and new secrets are new.

## Where the code and its promises differ

- `TIMEOUT` is not final: a late result turns it into COMPLETED or FAILED, and a task timed out as a
  stale duplicate stays queued and may still run (`StaleDuplicateRunsAnyway`). `TimeoutIsFinalExactly`
  says of which tasks it is final all the same.
- One task per device, and no lost task, need timeout + dispatch delay + 360 s to fit into the lock's
  3600 s, and hold exactly then. The scheduler copies DAG timeouts of up to 24 hours into tasks
  (backend/services/scheduler/scheduler_engine.py:316-324), for which they do not.
- A cancel accepted between pop and delivery is overwritten (`CancelInFlightIsLost`); this is the only way
  a final status can be undone (`FinalIsAbsorbingExactly`), and every other cancel is for good
  (`CancelIsForGoodExactly`).
- The duplicate check does not keep a device from having two open tasks for one script version:
  `NoTwinsExactly` says that it fails exactly when the dispatcher delivers a task that was given up while
  it waited.
- A runner that gives way to a duplicate leaves its lock behind, so its device stays blocked until the
  lock expires; everything else that ends a run frees the device (`StoppedRunnersFreeTheDevice`).
- A task that the watchdog expires between pop and delivery runs nevertheless, or is queued again; exactly
  then can an expired task come back (`ExpiredNeverRunsAgainExactly`), and be expired again.
- A batch can count one of its tasks twice, for a late report (`LateReportCountsTwice`) or for a second
  expiry (`ExpiryCountsTwice`: created at 0, popped at 3600 s, expired at 3601 s, delivered, expired again
  at 3901 s). `OvercountExactly` gives the exact surplus.
- The end of the launcher writes COMPLETED also over a verdict that is already there
  (`EndLaunchCompletes`); `StatusAfterLaunch` is about batches that still have open tasks then.
- The 24-hour guard of `create_task` decides something exactly when some timeout is longer than 24
  hours less 360 s (`DayOldTestFiresExactly`); for shorter ones the watchdog is always faster.
- The limiter documented as a sliding window is one exactly for limits of at most 1
  (`SlidingExactly`); it never allows more.
- `max_triggers_per_hour` is stored but not enforced; `HourlyLimitExactly` says when the cooldown
  enforces it anyway.
- Releasing an account does not look at its sessions; `OperatorKeepsSessionsExactly` gives the exact
  condition under which the reactor stays safe, `ReleaseThenReportRaises` a run where it is not.
- Filling one placeholder after the other is one simultaneous substitution on all templates without
  nested braces exactly when no part of the event type can become the event id's placeholder
  (`LoopIsAtOnceExactly`), and for an event type without opening braces exactly on the templates in
  which no placeholder is completed by filling in earlier ones (`RenderIsSimultaneousExactly`). With
  both, nested templates and braces in the event type, the two conditions together are enough
  (`CleanIsEnough`) but the second is not always needed (`CleanIsNotNeeded`).

## Model

| member | source | states |
|---|---|---|
| TaskQueues.TaskQueue.Enqueue | backend/services/task_queue.py:51-77 | the member gets score priority * 10^12 + time; enqueuing again overwrites the score; the device goes into the meta data |
| TaskQueues.TaskQueue.PeekMin | backend/services/task_queue.py:25-31 | ZPOPMIN picks the member that every other member of that set comes after |
| TaskQueues.TaskQueue.DequeueForDevice | backend/services/task_queue.py:81-110 | nothing on a busy device or an empty set; otherwise the least member is removed and the lock set for 3600 s |
| TaskQueues.TaskQueue.MarkCompleted | backend/services/task_queue.py:126-130 | the device's lock goes, whoever holds it, and the meta data of the task |
| TaskQueues.TaskQueue.CancelTask | backend/services/task_queue.py:132-152 | with the device given or taken from the meta data: exactly that member of that set goes, with its meta data; tells whether it was there; without a device nothing happens |
| TaskOrder.ScoreIsLexicographic | backend/services/task_queue.py:60-63 | for times below 10^12, order by score is order by (priority, time), ties by id |
| TaskOrder.DrainIsSorted | backend/services/task_queue.py:25-31 | repeated dequeue and complete returns every member exactly once, in the order of priority and enqueue time |
| TaskOrder.RequeueGoesBehind | backend/services/task_queue.py:51-77 | a law of the sorted set alone: a member enqueued again with some priority stands behind all earlier members of that class and before the worse classes; that the dispatcher uses the priority of the row is FailedDeliveryGoesBehindItsClass |
| TaskPriorities.ScoresAreRowPriorities | backend/services/task_service.py:259-261 | in every reachable state every score is the priority of the member's row * 10^12 plus a time between the creation of the row and now |
| TaskPriorities.QueuesFollowRowPriority | backend/services/task_queue.py:51-77 | in every reachable state before 10^12, emptying the queue of a device yields exactly its tasks, sorted by the priority of their rows, and inside a class by enqueue time |
| TaskPriorities.PopTakesMostUrgent | backend/services/task_queue.py:25-31 | the task the dispatcher takes goes ahead of every other task of that queue, by the priorities of the rows |
| TaskPriorities.FailedDeliveryGoesBehindItsClass | backend/services/task_service.py:372-380 | after a failed delivery the task is back in the class of its own row, behind every member of that class enqueued before |
| TaskOrigins.RowsAreAsAsked | backend/services/task_service.py:245-254 | every row of every run was made by one call of create_task with a known script and device, and for ever has the organisation, device, version, priority, batch and timeout of that call and its time |
| TaskOrigins.CreatesExactly | backend/services/task_service.py:168-268 | a call makes its row, QUEUED and in its queue, if and only if script, version and device are found and the duplicate found is off line or a day without change; otherwise nothing changes |
| TaskOrigins.OriginStep | backend/services/task_service.py:299-626 | a step keeps what a row was made with, stamps every change of status with its time, and sets the start exactly when the task starts to run |
| TaskOrigins.BatchesAreAsLaunched | backend/services/batch_service.py:63-82 | every batch of every run was launched, and its total is for ever the number of devices that launch asked for |
| TaskOrigins.StatusesHaveCauses | backend/tasks/task_heartbeat_watchdog.py:93-165 | in every reachable state a task becomes COMPLETED, FAILED, RUNNING or TIMEOUT if and only if a report, a missing version, a delivery, an overdue time or a welcome duplicate is the cause; none becomes QUEUED again |
| TaskOrigins.StoppedRunnersFreeTheDevice | backend/tasks/task_heartbeat_watchdog.py:238-252 | when a task stops running, its device is no longer blocked by it, and after a timeout by the watchdog has no lock at all; only giving way to a duplicate leaves the lock as it is |
| TaskDuplicates.TwinsStepExactly | backend/services/task_service.py:190-238 | where no device has two open tasks for one script version, a step keeps it so if and only if it does not deliver a task that has an open rival |
| TaskDuplicates.NoTwinsExactly | backend/services/task_service.py:190-238 | over all runs: no device ever has two open tasks for one script version if and only if the run has no such delivery |
| TaskDuplicates.OnlyGivenUpTasksHaveTwins | backend/services/task_service.py:368-370 | such a delivery is one of a task cancelled or timed out since it was queued |
| BatchTotals.TalliesInClosedForm | backend/services/task_service.py:516-548 | counters and status after any run of reports and expiries depend only on how many succeeded and failed |
| BatchTotals.TalliesCommute | backend/tasks/task_heartbeat_watchdog.py:320-340 | any permutation of reports and expiries leaves the same counters and the same verdict |
| BatchTotals.BulkIsRepeatedSingle | backend/tasks/task_heartbeat_watchdog.py:326-340 | the bulk update by k is k single failures if and only if the batch is not left PENDING |
| TaskServices.TaskService.CreateTask | backend/services/task_service.py:168-268 | the four rejections, the stale-duplicate branch, the new row and its queue slot |
| TaskServices.TaskService.FinishDispatch | backend/services/task_service.py:299-393 | what each way a dispatch can end does to row, lock and queue; after a failed delivery the device has no lock and the score is the priority of the row * 10^12 + now |
| TaskServices.TaskService.DispatchPendingTasks | backend/services/task_service.py:272-393 | a cycle is one turn per online device, in order |
| TaskServices.TaskService.SafeMarkCompleted | backend/services/task_service.py:397-415 | the lock goes only if it is live and held by this task |
| TaskServices.TaskService.HandleTaskResult | backend/services/task_service.py:419-512 | a final row keeps its status, any other becomes COMPLETED or FAILED and is counted once |
| TaskServices.TaskService.AggregateBatch | backend/services/task_service.py:516-548 | one success or failure is counted; at the total the batch is COMPLETED if and only if nothing failed, FAILED if and only if nothing succeeded, else PARTIAL |
| TaskServices.TaskService.CancelTask | backend/services/task_service.py:552-572 | only QUEUED or ASSIGNED tasks; the slot is gone and the row is CANCELLED |
| TaskServices.TaskService.ForceStopTask | backend/services/task_service.py:576-626 | as cancel, and for RUNNING the lock of the device goes |
| TaskServices.BatchService.StartBatch | backend/services/batch_service.py:63-82 | a RUNNING batch with the number of requested devices as its total |
| TaskServices.BatchService.LaunchWave | backend/services/batch_service.py:197-217 | the store is what the calls of the wave, made as asked and in order, leave; every call became a row or counts as failed |
| TaskServices.BatchService.ExecuteWaves | backend/services/batch_service.py:167-230 | the same for the calls of all waves in order; then the batch is COMPLETED and nothing else changes |
| TaskServices.NewRowsWereAskedFor | backend/services/batch_service.py:203-211 | every new row was asked for by one of the calls and has its device, organisation, batch, priority, timeout and script version |
| BatchLaunches.RunBatch | backend/services/batch_service.py:43-230 | start_batch, the waves and the launcher together are a run of the state machine: one launch, one create per planned device, one end; never more new rows than requested devices; the launch order is the requested one, or staggered by workstation |
| BatchLaunches.LaunchIsARun | backend/services/batch_service.py:63-230 | that run, each step enabled after the one before, ending in the store the services leave |
| BatchLaunches.PlanIsFollowed | backend/services/batch_service.py:189-223 | in every run, whatever comes between the calls and the waves, the devices asked for and those still to come are the plan |
| BatchLaunches.LauncherEndsDone | backend/services/batch_service.py:189-230 | the launcher ends only after it asked for every device of the plan, in order |
| TaskServices.BatchService.CancelBatch | backend/services/batch_service.py:277-312 | all unstarted tasks of the batch become CANCELLED and leave the queues; COMPLETED or CANCELLED batches are refused |
| TaskRefinement.TurnIsPopThenFinish | backend/services/task_service.py:279-393 | a turn of the dispatcher is a pop step and, if it got a task, a finish step, with time passing in between |
| TaskRefinement.CycleIsARun | backend/services/task_service.py:272-393 | a whole cycle within one watchdog period is a run of the state machine that leaves the store the loop leaves |
| Watchdogs.Watchdog.ExpireRunning | backend/tasks/task_heartbeat_watchdog.py:93-140 | exactly the RUNNING rows past start + timeout + 300 s time out, and are listed |
| Watchdogs.Watchdog.ExpireQueued | backend/tasks/task_heartbeat_watchdog.py:142-172 | exactly the waiting rows older than an hour time out, and are listed |
| Watchdogs.Watchdog.CountByBatch | backend/tasks/task_heartbeat_watchdog.py:320-324 | each batch gets the number of its expired tasks, and no entry if it has none |
| Watchdogs.Watchdog.AggregateBatches | backend/tasks/task_heartbeat_watchdog.py:306-349 | every existing batch fails by the number of its expired tasks; a batch that reaches its total is COMPLETED, FAILED or PARTIAL as its counters say |
| Watchdogs.Watchdog.ReleaseLocks | backend/tasks/task_heartbeat_watchdog.py:238-252 | the locks of the devices of expired running tasks go |
| Watchdogs.Watchdog.RemoveFromQueues | backend/tasks/task_heartbeat_watchdog.py:287-303 | the slots of expired waiting tasks go |
| Watchdogs.Watchdog.ExpireStaleTasks | backend/tasks/task_heartbeat_watchdog.py:191-303 | one cycle is the simultaneous expiry of all stale rows with its clean-up |
| TaskInvariants.InvStep | backend/services/task_service.py:168-626 | every step keeps the joint invariant of rows, queues, the task in flight, histories and batches; what is queued or in flight was never sent |
| TaskInvariants.PastStep | backend/tasks/task_heartbeat_watchdog.py:93-165 | every step keeps: expiries lie before the last start of their task, and a waiting task was never expired |
| TaskFinality.FinalStepExactly | backend/services/task_service.py:300-370 | a step keeps all final statuses if and only if it is not a delivery, or a missing-version failure, of a row cancelled since its pop |
| TaskFinality.FinalIsAbsorbingExactly | backend/services/task_service.py:431-450 | over all runs: COMPLETED, FAILED and CANCELLED never change again if and only if the run has no such step |
| TaskFinality.ClosedIsAbsorbing | backend/services/task_service.py:431-450 | COMPLETED and FAILED never change again in any run |
| TaskFinality.FinalIsAbsorbing | backend/services/task_service.py:552-626 | nor does CANCELLED, while no row is cancelled in flight |
| TaskFinality.DoneStepExactly | backend/services/task_service.py:368-380 | where no expired task waits, runs or is queued, a step leaves it so if and only if it does not deliver or put back a row expired since its pop |
| TaskFinality.ExpiredNeverRunsAgainExactly | backend/tasks/task_heartbeat_watchdog.py:107-165 | over all runs: an expired task never waits, runs or is queued again if and only if the run has no such step |
| TaskFinality.ExpiredAtMostOnce | backend/tasks/task_heartbeat_watchdog.py:107-165 | up to the first such step each task is expired at most once |
| TaskFinality.QueuesAreIsolated | backend/services/task_service.py:304-313 | in every run every queued or popped task belongs to that device and organisation, so the mismatch branch is dead |
| TaskTimeouts.TimeoutIsFinalExactly | backend/services/task_service.py:221-238 | a TIMEOUT task can still become something else on some continuation if and only if it was sent, is in its queue or in flight |
| TaskTimeouts.SettledStays | backend/tasks/task_heartbeat_watchdog.py:107-165 | a TIMEOUT task never sent, in no queue and not in flight stays TIMEOUT |
| TaskCancellations.CancelsExactly | backend/services/task_service.py:552-626 | in every reachable state a step cancels a task if and only if its organisation cancels it while QUEUED, stops it while QUEUED or RUNNING, or cancels its batch, neither COMPLETED nor CANCELLED, while it is QUEUED |
| TaskCancellations.CancelIsForGoodExactly | backend/services/task_service.py:563-564 | a cancelled task is out of its queue; on every continuation it stays CANCELLED, in no queue and out of the dispatcher's hands if and only if it was not in flight when it was cancelled, and it can run again if and only if it was |
| TaskCancellations.CancelledIsFinalExactly | backend/services/task_service.py:368-380 | in every reachable state a CANCELLED task can still run on some continuation if and only if it is in its queue or in flight |
| TaskCancellations.DroppedStays | backend/services/task_service.py:431-444 | a CANCELLED task in no queue and not in flight stays so |
| TaskCancellations.BatchCancelsExactly | backend/services/batch_service.py:277-312 | a batch becomes CANCELLED if and only if its organisation cancels it before it is COMPLETED |
| TaskTiming.RunnerIsLive | backend/tasks/task_heartbeat_watchdog.py:107-128 | the watchdog reaches a running task before its lock expires |
| TaskTiming.LockedStep | backend/services/task_service.py:299-415 | every step keeps the lock invariant: runners and the task in flight hold their locks, no queued task is unaccounted for |
| TaskTheorems.MutualExclusion | backend/services/task_queue.py:90-103 | if timeout + delay + 300 + 60 fits into 3600 s, a running task always holds the live lock of its device, so a device runs at most one |
| TaskLimits.MutualExclusionExactly | backend/services/task_queue.py:25-31 | on any fleet with a device, no reachable state has two running tasks on one device if and only if those bounds fit |
| TaskTheorems.NoQueuedTaskIsLost | backend/services/task_service.py:299-393 | under that bound a QUEUED task within its hour is in its own queue, in dispatch, or holds its device's live lock, even after an exception |
| TaskLimits.NoQueuedTaskIsLostExactly | backend/services/task_service.py:385-393 | on any fleet with a device this holds in all reachable states if and only if the bounds fit |
| TaskTheorems.NoTaskIsStuck | backend/tasks/task_heartbeat_watchdog.py:107-165 | never QUEUED past 3660 s from creation, never RUNNING past timeout + 360 s from start, never ASSIGNED |
| TaskLimits.DayOldTestFiresExactly | backend/services/task_service.py:221-226 | some reachable open task gives way by age alone if and only if some timeout exceeds 24 hours less 360 s |
| TaskAccounting.BooksStep | backend/services/task_service.py:446-548 | every step keeps every batch's counters exact |
| TaskAccounting.CountersAreExact | backend/services/task_service.py:516-548 | in every reachable state succeeded counts the COMPLETED tasks, failed those FAILED by a report plus the expiries; no batch has more tasks than requested devices, because no plan is longer |
| TaskAccounting.OvercountExactly | backend/tasks/task_heartbeat_watchdog.py:306-349 | the counters exceed the tasks they stand for by exactly the late reports and the repeated expiries |
| TaskAccounting.OvercountIsLateReports | backend/tasks/task_heartbeat_watchdog.py:306-349 | while no row expired since its pop was delivered or put back, no expiry is repeated, and succeeded + failed exceeds the total by at most the late reports |
| TaskAccounting.VerdictStands | backend/services/task_service.py:532-548 | once the launcher is done and no cancel intervenes, a full batch carries the verdict over its counters, whatever order the tasks end in |
| TaskAccounting.VerdictTellsTheTasks | backend/services/task_service.py:532-539 | then a full batch is COMPLETED if and only if none of its tasks failed by a report or expired, FAILED if and only if some did and none completed, PARTIAL if and only if both happened |
| TaskAccounting.StatusAfterLaunch | backend/services/batch_service.py:219-230 | a batch whose launcher ends with tasks open, and which is not cancelled, is COMPLETED until the last task is counted, and from then on the verdict tells its tasks |
| TaskLimits.CancelInFlightIsLost | backend/services/task_service.py:368-370 | a cancel between pop and delivery is overwritten by RUNNING |
| TaskLimits.StaleDuplicateRunsAnyway | backend/services/task_service.py:221-237 | a task timed out as a stale duplicate is dispatched before its replacement |
| TaskLimits.LateReportCountsTwice | backend/services/task_service.py:434-450 | a batch of one task can end with one success and one failure |
| TaskLimits.ExpiryCountsTwice | backend/tasks/task_heartbeat_watchdog.py:326-340 | a batch of one task can end with two failures and no report at all |
| TaskLimits.FastResultWouldBeLost | backend/services/task_service.py:342-370 | a result between sending and commit would be overwritten by RUNNING with the lock gone |
| Waves.Chunks | backend/services/workstation_mapping.py:39-43 | the chunks concatenate to the input; all but the last are full |
| Waves.Drain | backend/services/workstation_mapping.py:75-89 | the nested loops list all elements by (round, group) without gaps, in full waves |
| Waves.GroupByWorkstation | backend/services/workstation_mapping.py:45-73 | the groups hold each requested id once, and two devices share a group if and only if they stand at the same place: the same workstation id, or none, which is an absent or empty id, "no_workstation", or no row |
| Waves.CreateWaves | backend/services/workstation_mapping.py:32-97 | plain chunks, or round robin over those groups: a permutation of the distinct ids, well-sized waves, and over any stretch of the launch order no workstation ahead by more than one of another that is still to come |
| Waves.RoundRobinIsPermutation | backend/services/workstation_mapping.py:75-89 | a round-robin listing of a partition holds every id exactly once |
| Waves.PlanFits | backend/services/batch_service.py:68-90 | no order of launch that the waves can have is longer than the request |
| Waves.StandsExactly | backend/services/workstation_mapping.py:59-73 | the key under which a device is grouped is its place, and different places have different keys |
| Waves.RoundRobinIsFair | backend/services/workstation_mapping.py:75-89 | over any stretch no group is ahead by more than one of another that still has devices |
| Waves.RoundRobinIsStaggered | backend/services/workstation_mapping.py:59-89 | the same for workstations, counting devices by the workstation id of their rows |
| Waves.ShareOfStretch | backend/services/workstation_mapping.py:75-89 | with k workstations still to come after a stretch, none of them supplied more than a k-th of it, rounded up |
| Waves.ShareOfWave | backend/services/workstation_mapping.py:80-89 | the same for each wave and the workstations with devices in later waves |
| DagGraph.BuildAdj | backend/schemas/dag.py:149-162 | the lists hold exactly the references of the script, also with repeated ids |
| DagGraph.GetReachable | backend/schemas/dag.py:164-174 | the worklist ends and returns exactly the nodes some path from the entry leads to |
| DagGraph.CheckRefs | backend/schemas/dag.py:119-135 | accepts a node only if all its references exist; a refusal names a reference of the script that does not |
| DagGraph.ValidateDag | backend/schemas/dag.py:111-147 | accepts if and only if the entry exists, every reference exists and every node is reachable; every error names something wrong |
| DagGraph.CheckNoInfiniteLoops | backend/schemas/dag.py:176-201 | ends on every graph and reports a node only if a closed walk passes through it |
| DagGraph.SearchFrom | backend/schemas/dag.py:183-201 | each member of a path set leads to the node of its frame, so a reported node is on a closed walk |
| DagGraph.AcyclicExactly | backend/schemas/dag.py:176-201 | no node is on a closed walk, so that nothing is reported, if and only if some rank falls along every edge |
| DagPlaceholders.UnknownStays | backend/services/task_service.py:71-75 | a string without known placeholders comes back unchanged |
| DagPlaceholders.UnknownTreeStays | backend/services/task_service.py:61-81 | so does a subtree without known placeholders |
| DagPlaceholders.ResolvesOne | backend/services/task_service.py:57-75 | whatever the class of word characters beyond ASCII: a placeholder is replaced by its value if known and kept otherwise, whatever follows |
| DagPlaceholders.ResolveKeepsGraph | backend/services/task_service.py:55-81 | for every DAG the graph checks accept and all values, the resolved DAG has the same ids, action types, entry and edges, and the same shape |
| JsonTrees.MapKeepsShape | backend/services/task_service.py:69-79 | the walk keeps keys, nesting and all leaves but strings |
| JsonTrees.MapAgrees | backend/services/task_service.py:69-79 | two walks agree on a tree if and only if they agree on its strings |
| JsonTrees.GetMapped | backend/services/task_service.py:76-77 | a key holds the walked value of what it held |
| TriggerTemplates.ReplaceLoop | backend/services/event_reactor.py:442-443 | `str.replace`: all occurrences from left to right |
| TriggerTemplates.ReplaceAll | backend/services/event_reactor.py:440-444 | the loop replaces one placeholder after the other, each in the result of the one before |
| TriggerTemplates.OneByOneIsAtOnce | backend/services/event_reactor.py:433-444 | without nested braces the loop equals one simultaneous pass, for any values that cannot begin or contain a placeholder filled later; the last value is free |
| TriggerTemplates.LoopIsAtOnceExactly | backend/services/event_reactor.py:433-444 | with the code's table: on all templates without nested braces if and only if no part of the event type begins or contains the event id's placeholder |
| TriggerTemplates.RenderIsSimultaneous | backend/services/event_reactor.py:418-451 | rendering is that pass in every string of the template; keys, shape and other leaves stay |
| TriggerTemplates.EventRulesArePlain | backend/services/event_reactor.py:433-438 | the code's table qualifies if and only if the event type does; the event id may be anything |
| TriggerTemplates.PlaceholdersAreFilled | backend/services/event_reactor.py:433-444 | in the loop the four placeholders become the device id, the account id or nothing, the event type and the event id, for ids without braces and an event type that qualifies |
| TriggerTemplates.BracesInValuesMatter | backend/services/event_reactor.py:433-444 | an event type that is the event id's placeholder is filled a second time |
| TemplateNesting.OneByOneIsAtOnceExactly | backend/services/event_reactor.py:440-444 | for values without opening braces and any template, nested or not: loop and pass agree if and only if filling in earlier placeholders completes no later one |
| TemplateNesting.RenderIsSimultaneousExactly | backend/services/event_reactor.py:418-451 | for whole templates and the code's table: if and only if this holds of each of its strings |
| TemplateNesting.CleanIsEnough | backend/services/event_reactor.py:440-444 | for any template and any values safe for later placeholders: if no placeholder is completed, loop and pass agree |
| TemplateNesting.CleanIsNotNeeded | backend/services/event_reactor.py:433-444 | with an event type that is its own placeholder they agree although one is completed |
| TemplateNesting.NestingMatters | backend/services/event_reactor.py:433-444 | without an account, the loop turns {event_{account_id}id} into the event id and the pass does not |
| AccountServices.EventReactor.UpdateAccountStatus | backend/services/event_reactor.py:163-197 | the account of that organisation gets the status, loses its device on ban or error, and counts a ban |
| AccountServices.EventReactor.EndActiveSession | backend/services/event_reactor.py:207-239 | the one open session ends now and for the given reason, every other session stays, and the account counts it; two open sessions raise |
| AccountServices.EventReactor.FindFree | backend/services/event_reactor.py:265-285 | an oldest free account of the same game and organisation, or none if there is none |
| AccountServices.EventReactor.TryRotateAccount | backend/services/event_reactor.py:254-323 | that account is put in use on the device with a new session |
| AccountServices.EventReactor.React | backend/services/event_reactor.py:113-145 | the database effect of reaction, session end and rotation, in this order |
| AccountServices.EventReactor.ProcessEvent | backend/services/event_reactor.py:67-159 | the event is stored, reacted to, recorded with its rotation, shown to the triggers and marked processed; by the name of the event, its session is ended and its status set as in the two tables; after a query that raised, the triggers are untouched and it is not processed |
| AccountServices.GameAccountService.CreateAccount | backend/services/game_account_service.py:115-168 | a taken login is refused, otherwise one free account is added |
| AccountServices.GameAccountService.ImportAccounts | backend/services/game_account_service.py:439-488 | rows are created in order, taken logins skipped; created counts the new rows exactly |
| AccountServices.GameAccountService.UpdateAccount | backend/services/game_account_service.py:266-308 | login and status part of the patch |
| AccountServices.GameAccountService.AssignAccount | backend/services/game_account_service.py:362-400 | only free accounts, only devices of the organisation |
| AccountServices.GameAccountService.ReleaseAccount | backend/services/game_account_service.py:402-435 | only accounts in use; free or cooling down afterwards |
| ReactorRuns.LookupIsSingle | backend/services/event_reactor.py:217-222 | the single-row lookup finds at most one row |
| ReactorRuns.EventKeepsSessions | backend/services/event_reactor.py:114-145 | an event never raises and keeps: one open session per account, none for a free one |
| ReactorRuns.SessionsStaySingle | backend/services/event_reactor.py:67-159 | over every run of the reactor |
| ReactorRuns.CountersFollowEvents | backend/services/event_reactor.py:186-239 | total_sessions grows by exactly the sessions ended, total_bans by exactly the ban reports that reach the account |
| ReactorRuns.RotatesExactly | backend/services/event_reactor.py:265-314 | a ban rotates if and only if another account of that game is free there; the oldest is taken and ends up in use on the device of the event, with a new session of that device |
| EventOutcomes.EventsEndSessionsExactly | backend/services/event_reactor.py:45-53 | by event name: after one of the seven the account has no open session in the organisation, the one that was open is the same row ended at the time of the event with the reason of the table, every other old session is unchanged, and total_sessions grows by one if and only if there was one; any other event changes no session |
| EventOutcomes.BansRotateExactly | backend/services/event_reactor.py:136-145 | by event name: a session is opened if and only if the event is a ban and another account of that game is free in the organisation; an oldest such account is put in use on the device of the event, and the new session is its own |
| EventOutcomes.RecordTellsRotation | backend/services/event_reactor.py:136-156 | the stored event is processed or not, and says by its name and the pick whether a rotation was tried, failed or whom it handed out |
| EventOutcomes.EventsSetStatusExactly | backend/services/event_reactor.py:37-42 | by event name: exactly the four account events change a status, and only of an account of the organisation; a ban and an error take its device, a ban is counted, and every other row stays but the one handed out |
| ReactorRuns.EventFree | backend/services/event_reactor.py:114-145 | an event removes from the free accounts exactly the one it hits and the one it hands out |
| ReactorRuns.FreeFallsByRotations | backend/services/event_reactor.py:254-323 | over any run the free accounts fall by the rotations and the free accounts that were hit |
| ReactorRuns.BansOfUsedAccountsCostRotations | backend/services/event_reactor.py:254-323 | with no free account hit, by exactly the successful rotations |
| AccountRuns.StatusTellsBinding | backend/services/game_account_service.py:297-432 | over every run of both services: free or banned means no device, in use means a device, and assigned_at goes with the device |
| AccountRuns.ManualStatusKeepsBindingExactly | backend/schemas/game_accounts.py:156-166 | a manual status keeps every binding if and only if it is neither in_use nor banned, which the request schema ensures |
| AccountRuns.LoginsStayUnique | backend/services/game_account_service.py:119-134 | no run of both services gives an organisation two accounts with one game and login |
| AccountRuns.CountersAddUp | backend/services/game_account_service.py:417-420 | over both services total_sessions grows by the sessions ended plus the releases, total_bans by the ban reports |
| AccountRuns.OperatorKeepsSessionsExactly | backend/services/game_account_service.py:402-435 | an operator's call keeps the session properties if and only if it frees no account with an open session |
| AccountRuns.StrandedSessionDoubles | backend/services/event_reactor.py:265-314 | a rotation that hands out an account with an open session opens a second one |
| AccountRuns.ReleaseThenReportRaises | backend/services/event_reactor.py:217-222 | release, rotation, report: the lookup raises |
| AccountCalls.PatchExactly | backend/services/game_account_service.py:266-308 | an account is changed if and only if it is found, the status may be set by hand and a new login is not taken; then it has exactly that login and status, and loses its device only by becoming free |
| AccountCalls.CreateExactly | backend/services/game_account_service.py:115-168 | an account is created if and only if no other account of the organisation has the game and login; it is free, unbound and has them |
| AccountCalls.ImportsExactly | backend/services/game_account_service.py:439-488 | row i becomes an account if and only if its login is neither on record nor in an earlier row, and has the game and login of the row |
| AccountCalls.DevicesComeFromHandouts | backend/services/game_account_service.py:390-394 | over every run of both services: an account bound to a device was free when an operator or a rotation handed it to that device at that time, and was bound to it ever since |
| Triggers.TriggerTable.CheckEventTriggers | backend/services/event_reactor.py:325-416 | each matching trigger past its cooldown whose pipeline starts is stamped, counted and launched with its own rendered template; no other row changes |
| Triggers.LaunchesExactly | backend/services/event_reactor.py:343-397 | exactly the active triggers of the organisation that match, are past their cooldown and whose pipeline starts launch, each once with its own pipeline and template; they are stamped and counted, and no other row changes |
| Triggers.TotalCountsFirings | backend/services/event_reactor.py:396-397 | total_triggers is the number of firings, last_triggered_at the latest |
| Triggers.FiringsAreSpaced | backend/services/event_reactor.py:358-368 | two firings of a trigger are at least its cooldown apart, even if the clock goes back in between |
| Triggers.CooldownBoundsWindow | backend/services/event_reactor.py:358-368 | n firings within an interval of length L satisfy (n - 1) * cooldown <= L |
| Triggers.HourlyLimitExactly | backend/services/event_reactor.py:370-373 | no run exceeds a positive hourly limit if and only if limit * cooldown is more than 3600 |
| RateLimit.CacheService.CheckRateLimit | backend/services/cache_service.py:68-88 | the count since the key last expired, the new expiry, and nothing for other identifiers |
| RateLimit.CurrentIsPosition | backend/services/cache_service.py:80-86 | the count is the position of the call in its burst, so a burst gets its first calls up to the limit and no more |
| RateLimit.WindowBound | backend/services/cache_service.py:68-88 | any half-open window holds at most the limit of allowed calls |
| RateLimit.RefusedUntilSilence | backend/services/cache_service.py:82-83 | after a refusal nothing is allowed before a whole window of silence |
| RateLimit.BurstGetsFirstCallsExactly | backend/services/cache_service.py:82-87 | after a silence exactly the first calls up to the limit are allowed, and no other until the next |
| RateLimit.NeverMoreGenerous | backend/services/cache_service.py:74-77 | whatever it allows, a sliding window would allow |
| RateLimit.SlidingExactly | backend/services/cache_service.py:74-77 | it is a sliding window, as documented, if and only if the limit is at most 1 |
| RefreshTokens.AuthService.IssueTokens | backend/services/auth_service.py:178-199 | one unrevoked row for the new secret |
| RefreshTokens.AuthService.Refresh | backend/services/auth_service.py:73-121 | the four refusals change nothing; otherwise the old secret is revoked and a new one issued |
| RefreshTokens.AuthService.Logout | backend/services/auth_service.py:125-149 | the refresh token is revoked if it was valid; the access token is blacklisted at least until it expires |
| RefreshTokens.OneLiveTokenPerFamily | backend/services/auth_service.py:73-121 | each login's family has exactly one unrevoked token until a logout ends it, and none afterwards |
| RefreshTokens.LiveTokensAreOpenLogins | backend/services/auth_service.py:142-149 | the unrevoked tokens are the logins less the effective logouts |
| RefreshTokens.AcceptedAtMostOnce | backend/services/auth_service.py:83-94 | no secret is accepted twice |
| RefreshTokens.AcceptedExactly | backend/services/auth_service.py:78-90 | over every run: a secret is exchanged if and only if it was handed out at most a lifetime ago, was neither exchanged nor logged out since, and its owner is active now |
| RefreshTokens.RefusalsExactly | backend/services/auth_service.py:80-86 | it is refused as unknown, revoked or expired if and only if it was never handed out, was spent since, or is unspent but older than its lifetime |
| RefreshTokens.TokensAreTraced | backend/services/auth_service.py:96-107 | every row goes back to the one operation that handed its secret out: its expiry, its organisation, and whether it was spent since |
| RefreshTokens.FamiliesBelongToOneUser | backend/services/auth_service.py:88-107 | every token of a family belongs to the user who logged in |

## Left out

- TaskServices.TaskService.DispatchPendingTasks: what each delivery and each device lookup returns is an input; loading the script, hashing and resolving the DAG have no effect on the stores and are not in the loop.
- TaskServices.TaskService.HandleTaskResult: webhook delivery and the event the reactor is given are not modelled here; such an event has no account and only concerns triggers.
- TaskServices.TaskService.CreateTask: `timeout_seconds` is an input although the code leaves it at its default.
- BatchLaunches.RunBatch: here the launcher makes its calls at one instant; `PlanIsFollowed` is about the runs with other steps and pauses between them. The script checks of `start_batch` are not modelled.
- AccountServices.EventReactor.ProcessEvent: message, severity and data of the event beyond the rotation, and how its values become text for the templates.
- TaskFinality.FinalIsAbsorbingExactly: a result that comes in before the dispatcher commits RUNNING is not a step of the machine, because a delivery is one step; see the assumptions.
- DagGraph.CheckNoInfiniteLoops: not claimed to find every cycle, because the code leaves a node after its first unvisited neighbour; the check is not called anywhere.
- Waves.CreateWaves: a wave size of 0 is not considered, the request schema (backend/schemas/batch.py:19-24) demands at least 1.
- The other fields of the `task:meta` hash, queue depth, listing and statistics queries: no decision depends on them.
- The non-atomic fallback of the dequeue, several dispatchers, and `release_device_lock` on disconnect: mutual exclusion does not hold with them.
- The recovery of orphaned locks at start-up (backend/api/v1/tasks/router.py:71-104).
- A Redis failure between releasing the lock and putting a task back, and a database rollback after Redis was changed: both lose the task until the watchdog expires it.
- Batch status while its launcher still runs: the launcher overwrites it with COMPLETED, so `VerdictStands` speaks about the time after it.
- Rows skipped by `FOR UPDATE SKIP LOCKED` in the watchdog and in the rotation query.
- Tasks and batches created by the scheduler and the orchestrator with code of their own.
- Lua safety, the number of nodes and their retry and timeout ranges, and how account variables are built from an account: the substitution is proved for arbitrary values.
- Deleting accounts or devices, all other account fields, and the account session service, which opens and ends sessions without looking for an open one.
- Double rounding of the score, float and datetime resolution.
- Passwords, MFA, JWT, TOTP, role checks, and the event types and patterns of triggers beyond an arbitrary match.
