# Scheduler, table moves and change capture: a verified model

This project models the parts of beeflow whose correctness is spread over several functions, and proves
what they keep and where they fail.

* **Slot allocator** (`TaskTable`, `SlotAllocator`, `AllocatorLimits`, `AllocatorOrders`,
  `AllocatorExamples`, `TableEffects`, `CriticalSection`). The scheduler's critical section as a class that
  updates the task table: nested loops over queries, four counters and three filter sets. It is proved equal to a functional specification, and the specification is compared
  with a reference definition, one greedy pass over all candidates in priority order.
* **Several schedulers** (`SchedulerCluster`, `ClusterSafety`). Any number of them, interleaved with workers at the
  granularity of lock, read, read, select, commit or roll back.
* **DAG-run life cycle** (`DagRunLifecycle`, `DagRunTables`) and **dataset-triggered runs**
  (`DatasetRuns`, `DatasetTables`). A state machine over creation, start, finish and time-out, with
  invariants over every behaviour, and the classes whose loops work on data fetched once.
* **Table moves** (`Relations`, `DanglingRows`, `ReferenceCheck`, `DuplicateRows`). Tables are sequences
  of rows; queries are the joins and filters of the source, compared with what they are meant to find.
* **Migrations** (`RunKeys`, `XComRekey`, `TaskInstanceRekey`, `UpgradePath`, `MaxTries`). Round trips,
  agreement of dialects, keys that hold after the whole way up, termination of the batched loops.
* **Change data capture** (`EventConverter`, `CdcForwarder`). The exact domain of the event converter, and
  what the forwarder publishes and reports for a batch.

## Assumptions

What comes from Airflow itself is taken as follows. `Pool.slots_stats` gives open = total - running -
queued. EXECUTION_STATES is {QUEUED, RUNNING}. Active runs are QUEUED and RUNNING ones.
`calculate_dagrun_date_fields` moves next_dagrun to the successor of the given date and turns creation on;
dates are positions in a timetable that always has a successor. `dagbag.get_dag` is one function during a
call. A task asks for at least one pool slot. Rows that compare equal in a query come in table order (the
results of `AllocatorOrders` cover every order). Rows locked by other transactions are a fixed set for one call.
The outcome of the try-lock, of `update_state`, of the clock comparisons and of `put_events`, and the field
validation of the event classes, are parameters.

## Where the code differs from what one would expect

* The multi-pass loop stops when a full window meets only missing serialized DAGs, leaving rows that fit
  unexamined; and the filter for a row that does not fit its pool is keyed by (dag, task) and hides rows of
  the same task that would fit (`AllocatorOrders.FaithfulForEveryOrderIff` says exactly when;
  `AllocatorExamples.MissingDagHidesWork`, `AllocatorExamples.ShadowBreaksRefinement` are inputs).
* next_dagrun can move backwards (`DagRunLifecycle.NextGoesBackIff`, with the input
  `DagRunLifecycle.LateFinishSetsNextBack`); creation recovers (`DagRunLifecycle.CreationCatchesUp`).
* The reference check is documented to back up what it deletes (`db.py:1314-1320`). But deleting a task
  instance cascades to task_reschedule, whose dangling rows go without being parked
  (`ReferenceCheck.LosesNothingIff`, `ReferenceCheck.CascadeTakesTheDangling`,
  `ReferenceCheck.CascadeLosesARow`).
* Finishing runs of a paused DAG does not turn creation on again
  (`DagRunLifecycle.PausedFinishKeepsGoodIff`).
* The duplicate check groups NULLs together but joins with SQL equality, so repeated keys with a NULL are
  counted and never moved (`DuplicateRows.NoGroupLeftIffNonNull`, `DuplicateRows.NothingMovedIff`, `DuplicateRows.NullKeysAreNotMoved`).
* The converter has no branch for up_for_retry, and a batch fails as a whole for one such record
  (`EventConverter.UpForRetryIsNotConvertible`, `CdcForwarder.EventBus.HandleRecords`).
* Migration 0023 does not end if the value it would store is -1 (`MaxTries.LoopEndsIff`, `MaxTries.MinusOneRetriesNeverEnd`).

## Model

| member | source | states |
|---|---|---|
| TaskTable.OrderByOrders | src/python/beeflow/lambdas/scheduler/scheduler_job.py:313 | The candidate query returns a permutation of its rows, highest priority_weight first and, within one priority, oldest execution_date first. |
| TaskTable.FilterCommutesWithOrderBy | src/python/beeflow/lambdas/scheduler/scheduler_job.py:316-324 | Adding the starved filters to the query gives the same rows in the same order as filtering its ordered result. |
| TableEffects.CandidatesAreRows | src/python/beeflow/lambdas/scheduler/scheduler_job.py:305-314 | The candidates are exactly the SCHEDULED rows of running, not backfilled runs of unpaused DAGs that are not locked elsewhere, none repeated more often than in the table, in query order. |
| TableEffects.HigherPriorityFirst | src/python/beeflow/lambdas/scheduler/scheduler_job.py:313 | Of two candidates the earlier one has the higher priority_weight or, with equal ones, an execution_date no later. |
| TableEffects.QueryIsWindow | src/python/beeflow/lambdas/scheduler/scheduler_job.py:305-333 | Whatever has been starved and swept so far, the next query's result is the next window over the candidates as they were at the start. |
| AllocatorLimits.AdmitsIffEveryLimitHasRoom | src/python/beeflow/lambdas/scheduler/scheduler_job.py:347-466 | A row is selected if and only if its pool exists and can hold it at all, its DAG is found, and pool, DAG and task limit each have room for it. |
| SlotAllocator.AdmitsExactly | src/python/beeflow/lambdas/scheduler/scheduler_job.py:347-459 | The same in columns, for each of the five checks. |
| SlotAllocator.WhatAPassBars | src/python/beeflow/lambdas/scheduler/scheduler_job.py:349-458 | After a pass that selects nothing, the next query leaves out exactly what the last one left out and what a row of the window bars: the rows of its pool if that is out or unknown, of its (dag, task) if it asks for too many slots, of its DAG if that is full or missing, else of its (dag, task). |
| SlotAllocator.NewFilterHitsWindow | src/python/beeflow/lambdas/scheduler/scheduler_job.py:347-458 | Any filter a pass adds names a row of that pass's own window, so it removes at least one row from later queries. |
| SlotAllocator.GrewIffChanged | src/python/beeflow/lambdas/scheduler/scheduler_job.py:469-474 | Comparing the sizes of the starved sets, as the loop does, detects exactly whether a filter was added. |
| SlotAllocator.PassShrinks | src/python/beeflow/lambdas/scheduler/scheduler_job.py:295-333 | Each pass after which the loop goes on leaves strictly fewer candidates for the next query: the loop's termination measure. |
| SlotAllocator.PassBound | src/python/beeflow/lambdas/scheduler/scheduler_job.py:295-477 | The unbounded loop makes at most one pass more than the candidates have distinct pools, DAGs and (dag, task) pairs together, on any input, missing DAGs included. |
| SlotAllocator.RejectionIsFinal | src/python/beeflow/lambdas/scheduler/scheduler_job.py:359-459 | A row turned down under some counters is turned down under all fuller ones. |
| SlotAllocator.PassIsGreedy | src/python/beeflow/lambdas/scheduler/scheduler_job.py:347-466 | One pass, with its in-place updates of counters and sets, selects what a single greedy pass over its window selects and leaves the counters charged with exactly that. |
| SlotAllocator.GreedyIgnoresRejected | src/python/beeflow/lambdas/scheduler/scheduler_job.py:316-324 | Filtering out rows that could not be admitted under the initial counters changes nothing in what a greedy pass selects. |
| SlotAllocator.PassesRefineGreedy | src/python/beeflow/lambdas/scheduler/scheduler_job.py:295-477 | The multi-pass loop computes the greedy pass over a prefix of the candidates; if it comes back empty and missing DAGs do not fill a window, that prefix is all of them. |
| SlotAllocator.SelectionIsGreedyPrefix | src/python/beeflow/lambdas/scheduler/scheduler_job.py:266-483 | Refinement: the returned list is a prefix of what one greedy pass over the whole ordered candidate sequence selects, unless a task is shadowed (a row that fits shares its (dag, task) with one that does not fit its pool). |
| SlotAllocator.UniformTasksCastNoShadow | src/python/beeflow/lambdas/scheduler/scheduler_job.py:372-404 | No task is shadowed when all its rows ask for the same slots of the same pool. |
| AllocatorOrders.FaithfulForEveryOrderIff | src/python/beeflow/lambdas/scheduler/scheduler_job.py:266-477 | The exact condition at the call's own window: in every order the query can return the candidates for some priorities, the result is a greedy prefix and empty only if nothing fits, if and only if nothing fits at all, or the rows turned down under the initial counters do not fill a window, or no task is shadowed and the rows of missing DAGs do not fill a window. |
| AllocatorOrders.FaithfulForEveryWindowIff | src/python/beeflow/lambdas/scheduler/scheduler_job.py:295-477 | The same over all window sizes: if and only if nothing fits at all, or no task is shadowed and no candidate meets a missing DAG. |
| AllocatorOrders.ShadowedIsUnfaithful | src/python/beeflow/lambdas/scheduler/scheduler_job.py:372-404 | Any order with a window of rows turned down, one of them not fitting its pool, and next a row of the same task that fits, hides that row. |
| AllocatorOrders.OnePassIsFaithful | src/python/beeflow/lambdas/scheduler/scheduler_job.py:468-477 | When the rows turned down do not fill a window the first pass decides, and shadows do no harm. |
| SlotAllocator.WorkConservation | src/python/beeflow/lambdas/scheduler/scheduler_job.py:266-477 | With fewer missing-DAG rows than the window holds, the allocator comes back empty if and only if no candidate is admissible under the initial counters, the all-pools-full exit included. |
| AllocatorOrders.WorkConservationForEveryOrder | src/python/beeflow/lambdas/scheduler/scheduler_job.py:430-477 | The exact condition on missing DAGs, where no task is shadowed: work is conserved in every order that priorities can produce if and only if missing-DAG rows are fewer than the window, or nothing fits anyway. |
| SlotAllocator.StuckPassIsAllMissing | src/python/beeflow/lambdas/scheduler/scheduler_job.py:430-439 | A pass that selects nothing and starves nothing met missing-DAG rows only. |
| AllocatorExamples.MissingDagHidesWork | src/python/beeflow/lambdas/scheduler/scheduler_job.py:430-477 | A concrete input: one missing-DAG row in front and a window of one leave a row that fits unexamined. |
| AllocatorExamples.ShadowBreaksRefinement | src/python/beeflow/lambdas/scheduler/scheduler_job.py:387-404 | A concrete input: two rows of one task with different slots make the loop skip the row that fits, against the greedy pass. |
| AllocatorLimits.SelectionComesFromOneWindow | src/python/beeflow/lambdas/scheduler/scheduler_job.py:468-477 | Everything selected was selected in one pass that started from the initial counters, over one window of the candidates, and only missing DAGs are swept. |
| AllocatorLimits.FreeSlotsAreOpenSlots | src/python/beeflow/lambdas/scheduler/scheduler_job.py:268 | The sum over the pools is the number of open slots, counted one by one as a set. |
| AllocatorLimits.SelectionIsBounded | src/python/beeflow/lambdas/scheduler/scheduler_job.py:268-283 | At most min(max_tis, number of open slots) rows are returned, each at most as often as among the candidates, and none from a DAG that was swept. |
| AllocatorLimits.FirstWindowDecides | src/python/beeflow/lambdas/scheduler/scheduler_job.py:268-333 | If any of the first min(max_tis, number of open slots) candidates whose pool is not full fits, the call takes exactly what the greedy pass over those takes. |
| AllocatorLimits.SmallCallTakesAll | src/python/beeflow/lambdas/scheduler/scheduler_job.py:268-477 | With no more candidates than max_tis and open slots, the call takes exactly what the greedy pass over all of them takes, shadows and missing DAGs or not. |
| AllocatorLimits.CountersAccountForSelection | src/python/beeflow/lambdas/scheduler/scheduler_job.py:461-466 | After charging any selection, each pool's open slots, each DAG's active tasks and each task's active instances, capped or not, are the initial values less (or plus) exactly what the selection uses. |
| AllocatorLimits.RoomAfterSelection | src/python/beeflow/lambdas/scheduler/scheduler_job.py:461-466 | So the room of each limit is its initial room less what the selection uses. |
| AllocatorLimits.SelectionWithinHeadroom | src/python/beeflow/lambdas/scheduler/scheduler_job.py:359-466 | Whatever a pass selects fits: on each limit it draws on at all, it uses no more than the room there was. |
| AllocatorLimits.AllocationIsAccounted | src/python/beeflow/lambdas/scheduler/scheduler_job.py:266-483 | The same for the whole loop, for every pool, DAG and task, capped or not; and no limit drawn on ends below zero. |
| AllocatorLimits.RejectedRowsStayRejected | src/python/beeflow/lambdas/scheduler/scheduler_job.py:347-466 | Maximality: a row the selecting pass turned down still breaks a limit if it is added to the final selection. |
| AllocatorLimits.NoUnjustifiedOvertaking | src/python/beeflow/lambdas/scheduler/scheduler_job.py:295-477 | A candidate that precedes a selected one in query order and was not selected does not fit on top of the final selection, unless a task is shadowed. |
| TableEffects.PriorityIsRespected | src/python/beeflow/lambdas/scheduler/scheduler_job.py:303-314 | The same in columns of the table: no eligible row loses to a row of lower priority_weight, or of the same and a later execution_date, unless it does not fit on top of the selection or a task is shadowed. |
| CriticalSection.GroupByCounts | src/python/beeflow/lambdas/scheduler/scheduler_job.py:221-225 | The grouped query has each (dag, task) once, and its counts add up to the active rows of each DAG and task. |
| CriticalSection.MapsHoldTotals | src/python/beeflow/lambdas/scheduler/scheduler_job.py:226-232 | The DAG map, summed over groups, and the task map, assigned per group, both hold those totals. |
| CriticalSection.SnapshotMeasuresRoom | src/python/beeflow/lambdas/scheduler/scheduler_job.py:266-290 | The counters at the start measure the table: pool open slots are total minus occupied, DAG and task counts are the running and queued rows. |
| CriticalSection.SnapshotCounts | src/python/beeflow/lambdas/scheduler/scheduler_job.py:266-290 | The same in rows: a pool's open slots are its total less the slots its queued and running rows use; a DAG's and a task's count is the number of its queued and running rows. |
| CriticalSection.RoomLeft | src/python/beeflow/lambdas/scheduler/scheduler_job.py:266-290 | The room the allocator starts with, from any table and pools: for each limit there is, the limit less what the running and queued rows of the table occupy; none for an uncapped task or an unknown pool. |
| CriticalSection.MetadataDb.GetConcurrencyMaps | src/python/beeflow/lambdas/scheduler/scheduler_job.py:210-232 | The loop over the grouped rows fills both maps with those totals. |
| CriticalSection.MetadataDb.ExamineRow | src/python/beeflow/lambdas/scheduler/scheduler_job.py:347-466 | The body of the inner loop, on local dictionaries and the table, is one step of the specification, the sweep of a missing DAG's SCHEDULED rows included. |
| CriticalSection.MetadataDb.RunPasses | src/python/beeflow/lambdas/scheduler/scheduler_job.py:285-483 | The nested loops, re-querying the table they change, select and sweep what the specification says, and end. |
| CriticalSection.MetadataDb.ExecutableTaskInstancesToQueued | src/python/beeflow/lambdas/scheduler/scheduler_job.py:234-511 | Without the lock nothing changes; with it the selected rows, and no others, are QUEUED in the swept table; they are at most min(max_tis, number of open slots), and all that the greedy pass takes when the candidates are no more than that. |
| CriticalSection.MetadataDb.EnqueueTaskInstancesWithQueuedState | src/python/beeflow/lambdas/scheduler/scheduler_job.py:513-533 | Exactly the handed-over rows whose run has finished are reset to no state. |
| CriticalSection.MetadataDb.CriticalSectionEnqueueTaskInstances | src/python/beeflow/lambdas/scheduler/scheduler_job.py:535-561 | Frame of the whole call, column by column: a selected row is QUEUED, or has no state if its run has finished; another is FAILED if it was SCHEDULED in a swept DAG; else its state, and of every row all but the state, is unchanged. The number returned is the size of the selection. |
| TableEffects.ReportedRowsAreUpdated | src/python/beeflow/lambdas/scheduler/scheduler_job.py:492-511 | The number returned equals the number of table rows the UPDATE by primary key touches. |
| TableEffects.SettlingWithinSelection | src/python/beeflow/lambdas/scheduler/scheduler_job.py:492-507 | Committing a selection raises what is occupied of any limit by at most what the selection asks for. |
| TableEffects.OccupiedCounts | src/python/beeflow/lambdas/scheduler/scheduler_job.py:247-266 | What is occupied of a pool, a DAG or a task is the number of slots, or rows, that rows in state QUEUED or RUNNING use, counted one by one as a set. |
| SchedulerCluster.OutsideFreesCapacity | src/python/beeflow/lambdas/scheduler/scheduler_job.py:247-266 | Steps of workers, which never make a row QUEUED or RUNNING, never raise what is occupied of any limit. |
| SchedulerCluster.SelectionIsAffordable | src/python/beeflow/lambdas/scheduler/scheduler_job.py:285-483 | Counters read earlier under the lock are still safe: a selection made from them respects every limit it draws on in the present table. |
| SchedulerCluster.StepKeepsInv | src/python/beeflow/lambdas/scheduler/scheduler_job.py:247-511 | The invariant (what the lock holder has read or chosen is affordable now) survives every step of any scheduler or worker. |
| ClusterSafety.LockIsExclusive | src/python/beeflow/lambdas/scheduler/scheduler_job.py:247-266 | While one scheduler holds the lock no other gets it; tables change only by a worker's step or by the holder's commit, which gives the lock back; a roll-back leaves them as they were. |
| ClusterSafety.OnlyTheHolderActs | src/python/beeflow/lambdas/scheduler/scheduler_job.py:247-266 | Without the lock nobody reads, selects or writes. |
| SchedulerCluster.StepIsSafe | src/python/beeflow/lambdas/scheduler/scheduler_job.py:885-905 | No step takes a pool, DAG or limited task above both its limit and what it already occupied. |
| SchedulerCluster.RunsAreSafe | src/python/beeflow/lambdas/scheduler/scheduler_job.py:247-283 | Over every interleaving of any number of schedulers and workers, and between any two moments of it: no pool, DAG or limited task ends above both its limit and its earlier occupancy, so an overfull one never grows. |
| ClusterSafety.RunsAreSafeInRows | src/python/beeflow/lambdas/scheduler/scheduler_job.py:247-283 | The same in rows and columns: between any two moments, the slots in use of a pool stay within its total or what they were, the queued and running rows of a DAG within max_active_tasks or what they were, those of a limited task within its limit or what they were. |
| SchedulerCluster.CallIsARun | src/python/beeflow/lambdas/scheduler/scheduler_job.py:535-561 | The critical section as the class performs it is one of these runs, and ends in the table its contract states. |
| DagRunLifecycle.CreateKeepsGood | src/python/beeflow/lambdas/scheduler/scheduler_job.py:958-989 | Creating for one DAG whose creation is on keeps, for every DAG: dates 0, 1, 2, ... without gap, next_dagrun not past the first missing date, cap respected, creation off exactly at the cap. |
| DagRunLifecycle.StartKeepsGood | src/python/beeflow/lambdas/scheduler/scheduler_job.py:1127-1145 | Starting a queued run keeps it. |
| DagRunLifecycle.ScheduleKeepsGood | src/python/beeflow/lambdas/scheduler/scheduler_job.py:1184-1227 | A time-out, a finish or an early return of _schedule_dag_run keeps it, whatever older or newer run it is about. |
| DagRunLifecycle.ScheduledRunEndsAs | src/python/beeflow/lambdas/scheduler/scheduler_job.py:1175-1222 | The state a scheduled run of a found DAG ends in: FAILED if it has timed out, else what update_state arrives at; for a date in the future, or a DAG that is not found, nothing changes at all. |
| DagRunLifecycle.ScheduledRunMovesCreation | src/python/beeflow/lambdas/scheduler/scheduler_job.py:1196-1227 | When the run has ended, creation goes off with next_dagrun as it was if the DAG still is at its cap, else on from the date after the run's; otherwise, and for other DAGs, nothing changes. |
| DagRunLifecycle.CreatedRunIsQueued | src/python/beeflow/lambdas/scheduler/scheduler_job.py:958-989 | A created run is QUEUED, on next_dagrun and the newest row; none is created on a date that has one; then creation goes off at the cap, else on from the next date. |
| DagRunLifecycle.StartedRunIsRunning | src/python/beeflow/lambdas/scheduler/scheduler_job.py:1127-1145 | A queued run of a found DAG becomes RUNNING if fewer runs of it are running than its cap, or the cap is zero; else nothing changes. |
| DagRunLifecycle.BehavioursAreGood | src/python/beeflow/lambdas/scheduler/scheduler_job.py:933-1227 | Over every behaviour of create, start, finish and time-out steps: gap-free schedule, no duplicate date, run cap, creation off if and only if the cap is reached, and never off with no run outstanding. |
| DagRunLifecycle.BehavioursInRows | src/python/beeflow/lambdas/scheduler/scheduler_job.py:933-1227 | The same in rows and columns: with n rows a DAG has exactly one run on each of the first n dates and on no other, no more of them queued or running than its cap, and creation is on exactly if fewer are. |
| DagRunLifecycle.CountsAreOfRows | src/python/beeflow/lambdas/scheduler/scheduler_job.py:953-956 | The counts of active and running runs are the numbers of rows in state QUEUED or RUNNING, and RUNNING. |
| DagRunLifecycle.FreshDagIsGood | src/python/beeflow/lambdas/scheduler/scheduler_job.py:942-989 | A DAG without runs, its creation on and its cap at least one, satisfies the invariant that behaviours start from. |
| DagRunLifecycle.DatesAreDistinct | src/python/beeflow/lambdas/scheduler/scheduler_job.py:942-976 | No two runs of one DAG share a date; a later created one has a later date. |
| DagRunLifecycle.CreationCatchesUp | src/python/beeflow/lambdas/scheduler/scheduler_job.py:968-989 | However far next_dagrun lies behind, exactly that many creation rounds plus one create the first missing date and nothing else. |
| DagRunLifecycle.NextGoesBackIff | src/python/beeflow/lambdas/scheduler/scheduler_job.py:1184-1227 | Exactly which steps set next_dagrun back, paused DAGs included: the finish or time-out of a run of a found DAG whose successor date lies before next_dagrun. |
| DagRunLifecycle.LateFinishSetsNextBack | src/python/beeflow/lambdas/scheduler/scheduler_job.py:1223-1227 | A concrete input of that kind. |
| DagRunLifecycle.BehavioursAreWeak | src/python/beeflow/lambdas/scheduler/scheduler_job.py:726-746 | With the paused-DAG timer added, dates stay gap-free, the cap holds, and creation on still implies room below the cap. |
| DagRunLifecycle.PausedFinishKeepsGoodIff | src/python/beeflow/lambdas/scheduler/scheduler_job.py:742-743 | Exactly when such a finish keeps "creation off if and only if at the cap": when creation was on. |
| DagRunLifecycle.PausedFinishStopsADag | src/python/beeflow/lambdas/scheduler/scheduler_job.py:726-746 | A concrete input: with a cap of one, it leaves creation off and no run outstanding. |
| DagRunLifecycle.StartsExactly | src/python/beeflow/lambdas/scheduler/scheduler_job.py:1106-1145 | The start loop raises a DAG's running runs by exactly min(examined, room), by all examined for a zero cap and by none for a DAG that is not found, and touches nothing else. |
| DagRunLifecycle.StartsAPrefix | src/python/beeflow/lambdas/scheduler/scheduler_job.py:1127-1145 | They are the first ones: the k-th examined run is started if and only if its DAG has room after the examined ones before it. |
| DagRunLifecycle.CreateAllKeepsGood | src/python/beeflow/lambdas/scheduler/scheduler_job.py:958-989 | A whole batch of creations keeps the invariant of every DAG. |
| DagRunLifecycle.StartAllKeepsGood | src/python/beeflow/lambdas/scheduler/scheduler_job.py:1127-1145 | So does a whole batch of starts. |
| DagRunTables.CreateKeepsFetched | src/python/beeflow/lambdas/scheduler/scheduler_job.py:942-956 | What the bulk queries fetched before the loop stays right for every DAG not yet visited, and the updated count is right for the one visited. |
| DagRunTables.DagRunStore.ShouldUpdateDagNextDagruns | src/python/beeflow/lambdas/scheduler/scheduler_job.py:1093-1104 | Says whether the DAG is below its cap, and turns creation off exactly when it is not. |
| DagRunTables.DagRunStore.CreateDagRun | src/python/beeflow/lambdas/scheduler/scheduler_job.py:958-989 | The loop body for one DAG, on fetched data, is the creation step. |
| DagRunTables.DagRunStore.CreateDagRuns | src/python/beeflow/lambdas/scheduler/scheduler_job.py:933-991 | The loop over a batch, on data fetched once, equals the creation steps one after another on the current tables. |
| DagRunTables.DagRunStore.StartQueuedDagruns | src/python/beeflow/lambdas/scheduler/scheduler_job.py:1106-1145 | The loop, counting as it goes from one bulk query, equals the start steps one after another on the current tables. |
| DagRunTables.DagRunStore.ScheduleDagRun | src/python/beeflow/lambdas/scheduler/scheduler_job.py:1159-1234 | The branches of _schedule_dag_run give the finish, time-out and early-return steps: a timed-out run of a found DAG is FAILED, another takes the state arrived at, and no other run changes. |
| DatasetRuns.ConsumedExactly | src/python/beeflow/lambdas/scheduler/scheduler_job.py:1037-1088 | A run consumes exactly the events of the datasets its DAG is scheduled on, with a source run, whose timestamp lies after the previous run and up to its own date, and that had arrived when it was created. |
| DatasetRuns.ConsumesOnlyOwn | src/python/beeflow/lambdas/scheduler/scheduler_job.py:1056-1066 | In any history, dates ascending or not, a run consumes no event of another dataset, without a source run, or after its own date. |
| DatasetRuns.ConsumedAtMostOnce | src/python/beeflow/lambdas/scheduler/scheduler_job.py:1049-1066 | With ascending dates no event is consumed by two runs, late or not. |
| DatasetRuns.ConsumedIffInTime | src/python/beeflow/lambdas/scheduler/scheduler_job.py:1037-1066 | With ascending dates a relevant event is consumed if and only if the newest run reaches its timestamp and it did not arrive late. |
| DatasetRuns.NoEventTwiceIffAscending | src/python/beeflow/lambdas/scheduler/scheduler_job.py:1040-1053 | The exact condition for no event being consumed twice, whatever event comes first: no run is created behind an existing one. |
| DatasetRuns.TriggerBehindTakesAgain | src/python/beeflow/lambdas/scheduler/scheduler_job.py:1038-1053 | Any trigger behind an existing run consumes again an event that a later-dated run has consumed. |
| DatasetTables.BatchTriggersEachOnce | src/python/beeflow/lambdas/scheduler/scheduler_job.py:1015-1091 | In a batch each scheduled, found DAG takes exactly one trigger step, and queue rows go exactly for the DAGs that got a run. |
| DatasetTables.DatasetStore.CreateRun | src/python/beeflow/lambdas/scheduler/scheduler_job.py:1038-1091 | The branch that creates a run adds one row, with the date and, column by column, exactly the events the query asks for, and deletes exactly the DAG's queue rows. |
| DatasetTables.DatasetStore.CreateDagRunsDatasetTriggered | src/python/beeflow/lambdas/scheduler/scheduler_job.py:993-1091 | The loop, with existing runs fetched once, equals the trigger steps one after another. |
| DanglingRows.QueryFindsDangling | src/python/beeflow/packages/database/db.py:1204-1259 | Both outer-join queries return exactly the rows that have no run (or no task instance of their run), each once, in either form of the join. |
| DanglingRows.DeletesAgree | src/python/beeflow/packages/database/db.py:1186-1194 | The SQLite delete by key tuple and the join delete leave the same table. |
| DanglingRows.MoveSplitsTable | src/python/beeflow/packages/database/db.py:1157-1199 | Parking splits a table with a unique primary key exactly: referring rows stay, the others are parked, together they are the original multiset. |
| DanglingRows.KeptRowsStay | src/python/beeflow/packages/database/db.py:1204-1259 | Nothing dangles among the rows that were kept. |
| ReferenceCheck.MoveSplits | src/python/beeflow/packages/database/db.py:1157-1199 | The same in the database: the table keeps exactly the referring rows, the side table gets exactly the others; every other table is untouched, but task_reschedule loses the rows that name a deleted task instance if the foreign key cascades; a side table without rows is dropped. |
| ReferenceCheck.CheckAllAccountsForRows | src/python/beeflow/packages/database/db.py:1369-1408 | Over the loop, each table's rows are afterwards kept, newly parked, or taken by the cascade: none else is lost and none is invented. |
| ReferenceCheck.RunLeavesReferring | src/python/beeflow/packages/database/db.py:1369-1408 | Whatever is parked or cascades on the way, the loop leaves of each table it can park exactly the rows that referred to something in the database as it was, in order. |
| ReferenceCheck.RowStaysIff | src/python/beeflow/packages/database/db.py:1204-1259 | The same in columns: a row of task_instance stays if and only if some run has its dag_id and execution_date; another row, if and only if some run has them and some task instance has that run's dag_id, the row's task_id and that run's run_id (its execution_date, where task_instance has no run_id yet). |
| ReferenceCheck.LosesNothingIff | src/python/beeflow/packages/database/migrations/versions/0042_1_10_3_task_reschedule_fk_on_cascade_delete.py:34-45 | Exactly when a run loses nothing of a table: for task_reschedule under the cascade, if task_instance is not moved (migrated, or its side table exists) or none of its rows names a parked task instance; for every other table, always. |
| ReferenceCheck.CascadeTakesTheDangling | src/python/beeflow/packages/database/migrations/versions/0042_1_10_3_task_reschedule_fk_on_cascade_delete.py:34-45 | Which rows are lost: where the foreign key holds and task_instance is moved, exactly the dangling rows of task_reschedule, the ones the check is there to park; it parks none of them. |
| ReferenceCheck.CascadeLosesARow | src/python/beeflow/packages/database/db.py:1350-1408 | A concrete database: a task instance without a dag run is parked, and the task_reschedule row that names it is in no table afterwards. |
| ReferenceCheck.VisitedTablesAreCleanOrReported | src/python/beeflow/packages/database/db.py:1369-1408 | After the loop every visited table holds no dangling row or is reported; task_instance being first matters, as the others are checked against it. |
| ReferenceCheck.CleanDatabaseIsUntouched | src/python/beeflow/packages/database/db.py:1369-1413 | A run on clean tables changes nothing and reports nothing, whatever side tables exist. |
| ReferenceCheck.SecondRunChangesNothing | src/python/beeflow/packages/database/db.py:1313-1413 | Idempotence: after a run without an error, a second run changes and reports nothing, whether or not side tables were kept. |
| ReferenceCheck.AirflowDb.MoveDanglingDataToNewTable | src/python/beeflow/packages/database/db.py:1157-1199 | Create-as-select, then drop, or delete with its cascade, gives the move. |
| ReferenceCheck.AirflowDb.CheckTables | src/python/beeflow/packages/database/db.py:1369-1408 | The loop, with the names of side tables read once, gives database and errors of the specification. |
| ReferenceCheck.AirflowDb.CheckBadReferences | src/python/beeflow/packages/database/db.py:1313-1413 | The whole check, with its early return when a key table does not exist. |
| DuplicateRows.JoinFindsDuplicates | src/python/beeflow/packages/database/db.py:1009-1014 | Joining the table with the grouped subquery returns exactly the rows of non-NULL keys that occur more than once, each once. |
| DuplicateRows.ParkedIffRepeated | src/python/beeflow/packages/database/db.py:1009-1014 | A row is parked if and only if another row has an equal key free of NULL; else it is kept. |
| DuplicateRows.DeletesAgree | src/python/beeflow/packages/database/db.py:1302-1310 | The ROWID delete and the join delete both leave exactly the rows that are no duplicates. |
| DuplicateRows.NothingLost | src/python/beeflow/packages/database/db.py:1280-1310 | Kept and parked rows are together the original multiset. |
| DuplicateRows.KeptRowsAreUnique | src/python/beeflow/packages/database/db.py:1262-1278 | No two kept rows have equal non-NULL keys. |
| DuplicateRows.NoGroupLeftIffNonNull | src/python/beeflow/packages/database/db.py:1009-1019 | The exact condition for no repeated group being left: every repeated group's key is free of NULL. |
| DuplicateRows.NothingMovedIff | src/python/beeflow/packages/database/db.py:1280-1285 | The exact condition for the side table staying empty: every repeated group's key holds a NULL. |
| DuplicateRows.NullKeysAreNotMoved | src/python/beeflow/packages/database/db.py:1009-1039 | A concrete table: two rows with the key NULL are a repeated group, none is moved, and an empty side table is left. |
| DuplicateRows.DuplicateCheck.MoveDuplicateDataToNewTable | src/python/beeflow/packages/database/db.py:1262-1310 | In both dialects the side table gets the duplicates and the table keeps the rest; an existing side table makes it fail and change nothing. |
| DuplicateRows.DuplicateCheck.CheckTableForDuplicates | src/python/beeflow/packages/database/db.py:976-1039 | Moves only when there are repeated groups and no side table yet; otherwise nothing changes. |
| XComRekey.UpgradeThenDowngrade | src/python/beeflow/packages/database/migrations/versions/0102_2_3_0_switch_xcom_table_to_use_run_id.py:92-116 | Upgrade then downgrade gives back exactly the rows that had a run, in order and unchanged. |
| XComRekey.DowngradeThenUpgrade | src/python/beeflow/packages/database/migrations/versions/0102_2_3_0_switch_xcom_table_to_use_run_id.py:143-170 | Downgrade then upgrade gives back exactly the entries of unmapped task instances. |
| XComRekey.UpgradeHoldsIff | src/python/beeflow/packages/database/migrations/versions/0102_2_3_0_switch_xcom_table_to_use_run_id.py:92-116 | Column by column: the upgraded table holds exactly the row of each old row and each run with its dag_id and execution_date. |
| XComRekey.DowngradeHoldsIff | src/python/beeflow/packages/database/migrations/versions/0102_2_3_0_switch_xcom_table_to_use_run_id.py:143-170 | Column by column: the downgraded table holds exactly the row of each unmapped entry and each run with its dag_id and run_id. |
| XComRekey.UpgradeKeepsKeyUnique | src/python/beeflow/packages/database/migrations/versions/0102_2_3_0_switch_xcom_table_to_use_run_id.py:124 | Uniqueness of the old key implies uniqueness of (dag_run_id, task_id, map_index, key) among the upgraded rows. |
| XComRekey.CleanedIsWhatParkingLeaves | src/python/beeflow/packages/database/db.py:1231-1259 | The dangling query and delete of the reference check, on the xcom table, leave exactly the rows with a run and a task instance of it. |
| XComRekey.RekeyPreservesData | src/python/beeflow/packages/database/migrations/versions/0102_2_3_0_switch_xcom_table_to_use_run_id.py:92-170 | End to end: parking, upgrade and downgrade give back exactly those rows; the upgrade drops none of them and meets its new primary key. |
| XComRekey.ForeignKeyHoldsIff | src/python/beeflow/packages/database/migrations/versions/0102_2_3_0_switch_xcom_table_to_use_run_id.py:126-132 | Exactly when the upgraded rows meet the foreign key, map_index included: every row that has a run has a task instance of that run with map_index -1. |
| XComRekey.UpgradeSucceedsOnCleaned | src/python/beeflow/packages/database/migrations/versions/0102_2_3_0_switch_xcom_table_to_use_run_id.py:123-132 | On the cleaned table of a 2.2 database, whose task instances all got map_index -1, both constraints the upgrade adds hold. |
| XComRekey.XComMigration.Upgrade | src/python/beeflow/packages/database/migrations/versions/0102_2_3_0_switch_xcom_table_to_use_run_id.py:80-132 | Filling a temporary table, dropping and renaming give the joined rows; the result says whether the constraints hold. |
| XComRekey.XComMigration.Downgrade | src/python/beeflow/packages/database/migrations/versions/0102_2_3_0_switch_xcom_table_to_use_run_id.py:135-170 | Deleting mapped entries, filling a temporary table, dropping and renaming give the inverse join. |
| TaskInstanceRekey.DialectsAgreeIff | src/python/beeflow/packages/database/migrations/versions/0093_2_2_0_taskinstance_keyed_to_dagrun.py:396-411 | The multi-table update equals the correlated-subquery update if and only if every row without a matching run is NULL in that column already. |
| TaskInstanceRekey.FreshColumnUpdates | src/python/beeflow/packages/database/migrations/versions/0093_2_2_0_taskinstance_keyed_to_dagrun.py:144-151 | On the freshly added column every dialect's update gives the same table. |
| TaskInstanceRekey.JoinIsUpdateOfMatchedRows | src/python/beeflow/packages/database/migrations/versions/0093_2_2_0_taskinstance_keyed_to_dagrun.py:173-204 | The PostgreSQL create-as-join is the update of exactly the rows that have a run. |
| TaskInstanceRekey.PostgresAgreesIff | src/python/beeflow/packages/database/migrations/versions/0093_2_2_0_taskinstance_keyed_to_dagrun.py:173-219 | It equals the other dialects' table if and only if no row dangles. |
| TaskInstanceRekey.RekeyRoundTrip | src/python/beeflow/packages/database/migrations/versions/0093_2_2_0_taskinstance_keyed_to_dagrun.py:290-303 | In every dialect upgrade then downgrade restores every execution_date and leaves all else as it was, if no row dangles. |
| TaskInstanceRekey.RoundTripIff | src/python/beeflow/packages/database/migrations/versions/0093_2_2_0_taskinstance_keyed_to_dagrun.py:290-303 | Exactly when an updated table comes back: every row has a run or had no date. |
| TaskInstanceRekey.InstancesRoundTripIff | src/python/beeflow/packages/database/migrations/versions/0093_2_2_0_taskinstance_keyed_to_dagrun.py:173-219 | Exactly when task_instance comes back: the same, but for PostgreSQL, whose join drops dangling rows, only if no row dangles. |
| TaskInstanceRekey.RekeyKeepsKeyUnique | src/python/beeflow/packages/database/migrations/versions/0093_2_2_0_taskinstance_keyed_to_dagrun.py:242 | Where every row has a run, the new key (dag_id, task_id, run_id) is unique if and only if the old one was. |
| TaskInstanceRekey.UpgradeSucceedsIff | src/python/beeflow/packages/database/migrations/versions/0093_2_2_0_taskinstance_keyed_to_dagrun.py:144-288 | Exactly when every NOT NULL, primary and foreign key that the upgrade adds to both tables holds: the old keys held and no row of either table dangles. |
| TaskInstanceRekey.RekeyedInColumns | src/python/beeflow/packages/database/migrations/versions/0093_2_2_0_taskinstance_keyed_to_dagrun.py:396-411 | A re-keyed row has the run_id of the run with its dag_id and execution_date, or NULL where there is none; else only its date is gone. |
| TaskInstanceRekey.TaskTables.Upgrade | src/python/beeflow/packages/database/migrations/versions/0093_2_2_0_taskinstance_keyed_to_dagrun.py:144-288 | The steps on both tables, in each dialect's form, give the re-keyed tables; the result says whether the NOT NULL, primary and foreign keys it adds hold. |
| TaskInstanceRekey.TaskTables.Downgrade | src/python/beeflow/packages/database/migrations/versions/0093_2_2_0_taskinstance_keyed_to_dagrun.py:290-348 | The steps back; the result says whether the restored dates are complete and the old primary and foreign keys hold. |
| UpgradePath.RunKeysHoldOnClean | src/python/beeflow/packages/database/migrations/versions/0093_2_2_0_taskinstance_keyed_to_dagrun.py:144-288 | On tables in which nothing dangles 0093 meets every key it adds, and no dialect's form of it drops a row. |
| UpgradePath.XComKeysHoldOnClean | src/python/beeflow/packages/database/migrations/versions/0102_2_3_0_switch_xcom_table_to_use_run_id.py:80-132 | After it, with map_index -1 on every task instance, 0102 drops no row of a clean xcom table and meets both keys it adds. |
| UpgradePath.CheckedDatabaseUpgrades | src/python/beeflow/packages/database/db.py:1313-1413 | The whole way from before 2.2: if the reference check reports nothing, then in every dialect 0093 and 0102 drop none of the rows it has kept and meet every NOT NULL, primary and foreign key they add. |
| UpgradePath.CheckedXComUpgrades | src/python/beeflow/packages/database/db.py:1231-1259 | From 2.2: the whole check leaves of xcom exactly the rows with a run and an instance of their task in that run, by run_id; 0102 then drops none of them and meets both keys it adds. |
| MaxTries.LoopEndsIff | src/python/beeflow/packages/database/migrations/versions/0023_1_8_2_add_max_tries_column_to_task_instance.py:77-96 | Whatever rows LIMIT picks: the query is empty after k passes if and only if k covers the pending rows in batches of 5000 and no pending row is selected again by its own rewrite; then every pending row was rewritten once. |
| MaxTries.EachPassTakesABatch | src/python/beeflow/packages/database/migrations/versions/0023_1_8_2_add_max_tries_column_to_task_instance.py:77-96 | Without such rows each pass lowers the pending rows by 5000 or to none. |
| MaxTries.StubbornMeansMinusOne | src/python/beeflow/packages/database/migrations/versions/0023_1_8_2_add_max_tries_column_to_task_instance.py:80-95 | Those rows in terms of the data: on the way up, a task with retries -1, or a try_number of -1 that is copied; on the way down, none. |
| MaxTries.MinusOneRetriesNeverEnd | src/python/beeflow/packages/database/migrations/versions/0023_1_8_2_add_max_tries_column_to_task_instance.py:77-95 | A concrete table: one row of a task with retries -1 is pending after every pass. |
| MaxTries.UpgradeThenDowngrade | src/python/beeflow/packages/database/migrations/versions/0023_1_8_2_add_max_tries_column_to_task_instance.py:80-96 | Upgrade then downgrade restores a non-negative try_number for known tasks that retry, gives 0 for others and for negative ones, and leaves all else as it was. |
| MaxTries.RestoredIff | src/python/beeflow/packages/database/migrations/versions/0023_1_8_2_add_max_tries_column_to_task_instance.py:111-124 | Exactly when nothing is lost: each try_number is 0, or positive on a known task with retries. |
| MaxTries.UpgradedMaxTries | src/python/beeflow/packages/database/migrations/versions/0023_1_8_2_add_max_tries_column_to_task_instance.py:80-95 | The upgraded max_tries is the retries of a known task that has any, else try_number. |
| MaxTries.TriesLeftAreKept | src/python/beeflow/packages/database/migrations/versions/0023_1_8_2_add_max_tries_column_to_task_instance.py:111-124 | Downgrading a known task keeps the tries it has left of its retries as they are now; one with more left than it has retries, and an unknown one, starts from 0. |
| MaxTries.TaskInstanceTable.SelectBatch | src/python/beeflow/packages/database/migrations/versions/0023_1_8_2_add_max_tries_column_to_task_instance.py:78 | The batch is min(5000, pending) different pending rows. |
| MaxTries.TaskInstanceTable.Rewrite | src/python/beeflow/packages/database/migrations/versions/0023_1_8_2_add_max_tries_column_to_task_instance.py:77-98 | The nested loops, on any table and watched for any number of passes: they have ended by then if and only if no row is selected again by its own rewrite and the passes cover ceil(pending / 5000); then the table is settled, after exactly that many. |
| MaxTries.TaskInstanceTable.Upgrade | src/python/beeflow/packages/database/migrations/versions/0023_1_8_2_add_max_tries_column_to_task_instance.py:57-98 | On any table: it ends, within the passes watched, if and only if no value to be stored is -1 and they cover ceil(n / 5000); then every row got max_tries once; an empty table takes none. |
| MaxTries.TaskInstanceTable.Downgrade | src/python/beeflow/packages/database/migrations/versions/0023_1_8_2_add_max_tries_column_to_task_instance.py:101-125 | Every row with a max_tries gets retries less the tries it has left (or 0) as try_number, all end with max_tries -1, in ceil(pending / 5000) passes. |
| EventConverter.ConvertsIff | src/python/beeflow/packages/events/database_passthrough_event_converter.py:77-198 | The converter's exact domain, column by column: table known, state known for that table, and every column its event needs present and accepted. |
| EventConverter.EventTellsTableAndState | src/python/beeflow/packages/events/database_passthrough_event_converter.py:77-198 | Which event a row becomes: each of the fifteen kinds comes from exactly one table and state (or no state), both ways. |
| EventConverter.EventHoldsColumns | src/python/beeflow/packages/events/database_passthrough_event_converter.py:77-189 | Each value an event stores is the validated value of the row's column of that name. |
| EventConverter.ColumnsHeld | src/python/beeflow/packages/events/database_passthrough_event_converter.py:77-189 | Which columns each kind of event holds, in order. |
| EventConverter.ConvertRaises | src/python/beeflow/packages/events/database_passthrough_event_converter.py:150-198 | What a row outside the domain raises: not convertible if and only if it belongs to no table; unknown state, and which, if and only if its state has no event; a missing state column of a dag_run row. |
| EventConverter.BuildRaises | src/python/beeflow/packages/events/database_passthrough_event_converter.py:77-189 | Of the columns an event needs the first missing one is raised, before any value that is refused. |
| EventConverter.UpForRetryIsNotConvertible | src/python/beeflow/packages/events/database_passthrough_event_converter.py:77-150 | A task instance in up_for_retry raises, whatever else the row holds. |
| EventConverter.NameMakesNoDifference | src/python/beeflow/packages/events/database_passthrough_event_converter.py:31-75 | Without a table name a row converts as with the name of the first table whose columns it has. |
| CdcForwarder.PreparingIsIdempotent | src/python/beeflow/lambdas/dms_cdc_forwarder/dms_cdc_forwarder.py:27-40 | Preparing keeps the columns, changes exactly the coded texts, and has nothing to do a second time. |
| CdcForwarder.DecodedMeans | src/python/beeflow/lambdas/dms_cdc_forwarder/dms_cdc_forwarder.py:30-38 | "f" and only that becomes false, "t" and only that true, five words in any case and only they NULL; every other value stands for itself. |
| CdcForwarder.DomainIsExact | src/python/beeflow/lambdas/dms_cdc_forwarder/dms_cdc_forwarder.py:43-62 | A kept record yields an event if and only if it names its table and its prepared row is in the converter's domain. |
| CdcForwarder.PrepareInput | src/python/beeflow/lambdas/dms_cdc_forwarder/dms_cdc_forwarder.py:27-40 | The loop over the items builds the decoded row, in whatever order they come. |
| CdcForwarder.ToEventBridgeEvent | src/python/beeflow/lambdas/dms_cdc_forwarder/dms_cdc_forwarder.py:43-62 | Nothing if and only if data or metadata is missing or the operation is a deletion; else the event or the error. |
| CdcForwarder.Transform | src/python/beeflow/lambdas/dms_cdc_forwarder/dms_cdc_forwarder.py:66-67 | Entries and kept records stay in step; the first record that raises ends the batch with its error. |
| CdcForwarder.EventBus.HandleRecords | src/python/beeflow/lambdas/dms_cdc_forwarder/dms_cdc_forwarder.py:65-92 | Succeeds if and only if all kept records are in the domain; otherwise publishes nothing. Publishes each kept record once, in order, in one call, and nothing if none is kept; each entry's kind tells its record's table and state, and its values are the record's columns. |
| CdcForwarder.ReportedIff | src/python/beeflow/lambdas/dms_cdc_forwarder/dms_cdc_forwarder.py:86-91 | The reported ids are exactly those of kept records whose entry came back with an error code. |
| CdcForwarder.ReportedExactlyTheFailed | src/python/beeflow/lambdas/dms_cdc_forwarder/dms_cdc_forwarder.py:86-91 | With distinct ids, the k-th kept record is reported if and only if the k-th entry failed. |
| CdcForwarder.SkippedIsNeverReported | src/python/beeflow/lambdas/dms_cdc_forwarder/dms_cdc_forwarder.py:66-91 | A record that was filtered out is never reported as failed. |
| CdcForwarder.NullWordStopsTheBatch | src/python/beeflow/lambdas/dms_cdc_forwarder/dms_cdc_forwarder.py:27-67 | One null word (such as a DAG named "none") in a key column of one kept record makes the whole batch fail, where event fields take no null. |

## Left out

- Logging, gauges, timers, heartbeats, signals, sleeping, retries of database transactions and the SQLAlchemy session: a query is a filter, order and limit over a table.
- `dag_run.update_state`, `schedule_tis`, task dependencies, concrete timetables, the DagBag and the executor object: Airflow code, entered as assumptions or parameters.
- Unlimited pools (total -1), resizing of pools, and changes of limits while schedulers run.
- Finite timetables and catchup=False: the successor function is total.
- Manual and external runs, clearing and deleting of runs. Dataset-triggered runs are kept apart from scheduled ones, so an existing run of another type on the same date is not seen by the model.
- The task instances of a timed-out run, which become SKIPPED: they leave no active state behind, which the interleaving model has as an outside step.
- `_process_executor_events`, orphaned tasks, zombies, trigger time-outs, callbacks and SLA misses: they rest on executor behaviour that is not part of this model.
- SchedulerCluster.RunsAreSafe: pool, slots and limits are as configured for the whole run; rows that are active or locked keep their pool and slots.
- SlotAllocator.WorkConservation: for one fixed order the bound on missing-DAG rows is sufficient; the exact condition is over the orders that priorities can produce.
- AllocatorOrders.WorkConservationForEveryOrder: is about candidates without a shadow. With shadows the exact condition is for greedy prefix and work conservation together (AllocatorOrders.FaithfulForEveryOrderIff); for work conservation alone it depends on how shadowing rows can be packed into successive windows.
- CriticalSection.MetadataDb.EnqueueTaskInstancesWithQueuedState: the command handed to the executor is only logged in the source and not modelled.
- Column types, indexes, SQLite pragmas, mssql index handling and the revision chain: schema changes without a data claim. Foreign keys are in the model where data depends on them: the cascade of task_reschedule before 2.2, and those that 0093, its downgrade and 0102 add. The key of 1.10.2, without a cascade, under which the delete itself fails, is not. A migration whose constraints do not hold is modelled up to the verdict, not the rollback.
- MaxTries.TaskInstanceTable.SelectBatch: picks batches in table order (MaxTries.LoopEndsIff holds for any choice); NULL try_number and a task_instance table that does not exist are not modelled.
- `check_run_id_null`, the other pre-upgrade checks, migrations 0104 and 0105 (the update of 0093 again) and the permission migrations.
- Records whose data or metadata is not a JSON object; nested values of a row; the limit of put_events on the number of entries, and its own exceptions.
- The second forwarder lambda, CLI, webserver, configuration download, experiment controllers and handlers that only forward to AWS.
