# Cooperative task scheduler (t2.py), modelled and verified in Dafny

`t2.py` simulates three workers that staff and work through a backlog of
fifty tasks. A task needs 1, 2 or 3 workers at once and lasts 5 to 20 steps.
The workers have capacities 2, 1 and 2. Each call of `CooperativeModel.step`
does the following:

1. It increments the step counter.
2. Allocation: every pending task is handed, all or nothing, to the first
   `needed` workers in roster order that have spare capacity.
3. Execution: the workers are visited in roster order. A worker decrements
   a task only when it is that task's first assignee. A task whose duration
   is at most zero is marked completed. The worker's colour records whether
   it held a multi-worker task. Then the worker drops its completed tasks.

The project has five modules, one per file:

- `SchedulerState` (`scheduler_state.dfy`) holds the data model. `Task` and
  `Worker` are datatypes. A reference in the source becomes an index: a
  task's `assignees` are roster positions and a worker's `current` are
  backlog positions. The module also holds the fixed roster
  (`Configs`), the invariant `Inv` and the start-up state `InitialState`.
- `SchedulerStep` (`scheduler_step.dfy`) defines one step as functions:
  `Pending`, `Candidates`, `AllocateOne`, `AllocateAll`, `ExecuteSpec` and
  `StepSpec`.
- `SchedulerProperties` (`scheduler_properties.dfy`) holds the lemmas about
  those functions.
- `SchedulerExample` (`scheduler_example.dfy`) works one step through by
  hand on three tasks and the fixed roster.
- `Cooperative` (`cooperative_model.dfy`) holds the class
  `CooperativeModel`. Its fields `tasks`, `workers` and `stepCount` are
  updated in place by `Step`, using the source's loops. Each phase is
  proved to compute the matching function: `Allocate` computes
  `AllocateAll`, `StaffTask` computes `AllocateOne`, `Execute` computes
  `ExecuteSpec`, and `Step` computes `StepSpec` and increments `stepCount`
  by one.

`Inv` is the invariant that holds between steps. It says:

- every worker holds at most `capacity` tasks and holds no task twice;
- a task's staff is empty or has exactly `resources` workers, listed in
  increasing roster order;
- a task is completed exactly when its duration is 0, and it is never below 0;
- a completed task keeps its staff;
- worker `w` holds task `i` exactly when `w` is on `i`'s staff and `i` is
  not completed.

`Execute` relies on two facts from the source. First, a task's first
assignee is its lowest-numbered worker. Second, the workers are visited in
roster order. Together they mean that every active task is decremented
once per step, before any co-worker looks at it, so all its workers drop
it in the step where it completes.

Three behaviours of `t2.py` the model keeps:

- **Roster order.** t2.py:60-65 staffs each pending task with the first
  `needed` workers in roster order that have room. For three tasks with
  needs 1, 2 and 1, task 0 goes to Agent 1, task 1 to Agents 1 and 2
  (Agent 1 still has room), and task 2 to Agent 3, the only worker left
  with room. `ExampleFirstStep` proves this outcome.
- **Completed tasks keep their staff.** t2.py:92 filters only the workers'
  lists; nothing in the file clears `assigned_agents`. The model keeps the
  staff of a completed task.
- **No errors, events or queries.** `t2.py` has no error type (for
  capacity violations or bad configurations), no event stream and no
  query for an exhausted backlog, so the model has none.

## Model

| member | source | states |
|---|---|---|
| SchedulerState.InitialState | t2.py:28-48 | the fifty tasks are created unstaffed and uncompleted with the drawn duration and resource need, the roster is the three configured workers with empty lists, and the invariant holds from the start |
| SchedulerStep.PendingBelow | t2.py:55 | the pending list contains exactly the uncompleted, under-staffed tasks, in increasing backlog order, each once |
| SchedulerStep.CandidatesBelow | t2.py:60 | the candidate list contains exactly the workers with spare capacity that are not already on the task, in increasing roster order, each once |
| SchedulerStep.Pending | t2.py:55 | the pending list of the whole backlog; no contract of its own: `PendingBelow` characterises it, and `Cooperative.CooperativeModel.Allocate` iterates over it |
| SchedulerStep.Candidates | t2.py:60 | the candidate list over the whole roster; no contract of its own: `CandidatesBelow` characterises it, and `SchedulerProperties.FirstCandidates` says what its first `needed` entries are |
| SchedulerStep.AllocateOne | t2.py:58-65 | one round of the allocation loop; no contract of its own: `SchedulerProperties.AllocateOnePreservesInv`, `SchedulerProperties.AllocateOneAllOrNothing` and `SchedulerProperties.AllocateOneRosterOrder` state its properties, and `Cooperative.CooperativeModel.StaffTask` computes it |
| SchedulerStep.AllocateSeq | t2.py:57-65 | the allocation loop over a list of tasks keeps the number of tasks and workers; `SchedulerProperties.AllocateSeqPreservesInv`, `SchedulerProperties.AllocateSeqStaffingOnly` and `SchedulerProperties.SaturatedSeq` state the rest |
| SchedulerStep.AllocateAll | t2.py:54-65 | the allocation phase keeps the number of tasks and workers; `SchedulerProperties.AllocatePreservesInv` and `SchedulerProperties.AllocateStaffingOnly` state the rest, and `Cooperative.CooperativeModel.Allocate` computes it |
| SchedulerStep.Advance | t2.py:83-86 | one unit of work; no contract of its own: `SchedulerProperties.StepAdvancesOnce` states its effect within a step |
| SchedulerStep.ExecutedTasks | t2.py:82-86 | every active task advanced once; no contract of its own: `SchedulerProperties.StepAdvancesOnce` and `Cooperative.ExecutedAll` state it |
| SchedulerStep.ColorOf | t2.py:71-89 | a worker's colour; no contract of its own: `SchedulerProperties.StepColorMeaning` characterises it |
| SchedulerStep.ExecutedWorkers | t2.py:70-92 | every worker's colour and cleaned list; no contract of its own: `SchedulerProperties.StepRetiresCompleted`, `SchedulerProperties.StepColorMeaning` and `Cooperative.TurnWorker` state it |
| SchedulerStep.ExecuteSpec | t2.py:67-92 | the execution and cleanup phase; no contract of its own: `Cooperative.CooperativeModel.Execute` computes it and `SchedulerProperties.ExecutePreservesInv` states that it keeps the invariant |
| SchedulerStep.StepSpec | t2.py:50-92 | one whole step apart from the counter; no contract of its own: `Cooperative.CooperativeModel.Step` computes it, and `SchedulerProperties.StepPreservesInv`, `SchedulerProperties.StepAdvancesOnce` and `SchedulerProperties.StepRetiresCompleted` state its properties |
| SchedulerStep.Steps | t2.py:50-92 | `n` steps in a row keep the number of tasks and workers; `SchedulerProperties.StepsPreserveInv` and `SchedulerProperties.StaffedTaskFinishes` state the rest |
| SchedulerStep.Unfinished | t2.py:92 | the cleaned worker list keeps exactly the tasks that are not completed, in their original order (a subsequence), never grows, and stays free of repeats |
| SchedulerProperties.StaffedOnlyFromEmpty | t2.py:55-65 | under the invariant, a task that still needs workers has no staff and is not completed, and no worker holds it |
| SchedulerProperties.AssignKeepsTasks | t2.py:63-65 | giving an unstaffed task its first `resources` candidates keeps every task's part of the invariant: staff of exactly `resources` workers, in roster order |
| SchedulerProperties.AssignKeepsWorkers | t2.py:60-64 | the chosen workers had spare capacity and did not hold the task, so after appending it every worker is within capacity and holds no task twice |
| SchedulerProperties.AssignKeepsLinked | t2.py:64-65 | appending the task to the chosen workers and the workers to the task keeps the symmetry between worker lists and task staff |
| SchedulerProperties.AllocateOnePreservesInv | t2.py:57-65 | staffing one task keeps the capacity bound, all-or-nothing staffing, roster order, no repeats and the worker/task symmetry |
| SchedulerProperties.AllocateSeqPreservesInv | t2.py:57-65 | the allocation loop keeps the invariant whatever list of tasks it runs over |
| SchedulerProperties.AllocatePreservesInv | t2.py:54-65 | after the allocation phase every worker still satisfies `len(current_tasks) <= capacity`, and the rest of the invariant holds |
| SchedulerProperties.AllocateOneAllOrNothing | t2.py:58-65 | offering staff to a task either changes nothing or gives a pending task exactly `resources` workers; a pending task stays unstaffed exactly when it has fewer candidates than it needs; other tasks are untouched |
| SchedulerProperties.AllocateOneRosterOrder | t2.py:60-65 | for any task that needs workers and has enough candidates, invariant or not: its staff grows by exactly `needed` distinct workers in roster order, each had spare capacity and was not on it, every worker with room that was passed over comes later in the roster, and each chosen worker appends the task to its list while the others are unchanged |
| SchedulerProperties.FirstCandidates | t2.py:60-63 | the first `needed` candidates are distinct, in roster order, had room and were not on the task; any other worker with room comes later |
| SchedulerProperties.AllocateSeqStaffingOnly | t2.py:57-65 | the allocation loop changes no id, duration, resource need or completion flag; staff only grows by appending; a task that was not pending keeps its staff |
| SchedulerProperties.AllocateStaffingOnly | t2.py:54-65 | the allocation phase never changes a duration or a completion flag, and a non-pending task is left exactly as it was |
| SchedulerProperties.NoRoomNoCandidates | t2.py:60 | when no worker has spare capacity, no worker is a candidate |
| SchedulerProperties.SaturatedSeq | t2.py:57-65 | when no worker has spare capacity, the allocation loop changes nothing |
| SchedulerProperties.SaturatedRosterStarves | t2.py:54-86 | with a saturated roster, allocation changes nothing, and every unstaffed task comes out of the whole step unchanged (starvation) |
| SchedulerProperties.AllocateSeqKeepsRoster | t2.py:57-65 | the allocation loop keeps the roster: the same workers in the same order, each with its name and capacity unchanged |
| SchedulerProperties.StepKeepsRoster | t2.py:50-92 | a whole step changes no worker's name or capacity and neither adds nor removes workers |
| SchedulerProperties.StepsKeepRoster | t2.py:50-92 | no number of steps changes a worker's name or capacity |
| SchedulerProperties.ConfiguredCapacityKept | t2.py:42-65 | after any number of steps from start-up the roster is still Agent 1, Agent 2, Agent 3, and each holds at most its configured 2, 1 and 2 tasks |
| SchedulerProperties.ExecutePreservesInv | t2.py:67-92 | execution and cleanup keep the invariant; in particular a completed task has duration exactly 0 and is held by no worker |
| SchedulerProperties.StepPreservesInv | t2.py:50-92 | a whole step keeps the invariant, so the capacity bound and all-or-nothing staffing hold after every step |
| SchedulerProperties.StepsPreserveInv | t2.py:50-92 | the invariant holds after any number of steps |
| SchedulerProperties.StepAdvancesOnce | t2.py:82-86 | in one step (`AdvancedOnce`) a staffed, uncompleted task loses exactly one unit whatever its number of workers, and becomes completed exactly when it reaches 0; a task still unstaffed after allocation is unchanged; a completed task never changes again; staff is never removed; id and resource need never change |
| SchedulerProperties.StepsAdvanceOnce | t2.py:82-86 | every step of a run started under the invariant advances each task as `AdvancedOnce` says |
| SchedulerProperties.StepRetiresCompleted | t2.py:85-92 | at the end of a step no worker holds a completed task, and the completed task keeps all `resources` assignees |
| SchedulerProperties.HistoryAdvances | t2.py:82-86 | in the history of one task over `n` steps, every entry is one step (`AdvancedOnce`) from the one before |
| SchedulerProperties.HistoryFinishes | t2.py:82-86 | a history that starts staffed with `d` units left and advances once per step ends with `d - n` units left after `n <= d` steps, and completed exactly from step `d` on, at 0 |
| SchedulerProperties.FinishedAfterNext | t2.py:83-86 | one more step of a staffed task moves it from "finished after `n` steps" to "finished after `n + 1` steps" |
| SchedulerProperties.StaffedTaskFinishes | t2.py:82-86 | a staffed task with `d` units left has `d - n` left after `n <= d` steps and is completed exactly from step `d` on, when it stays at 0 |
| SchedulerProperties.SharedIffMultiResource | t2.py:75-79 | for a task a worker holds, needing more than one resource is the same as having another worker on it; needing one is the same as the worker being its only assignee |
| SchedulerProperties.StepColorMeaning | t2.py:71-89 | after a step a worker is grey exactly when it held nothing at the start of execution (and then it holds nothing), magenta exactly when another worker shared one of its tasks, and cyan exactly when it held tasks and was the only worker on each of them |
| SchedulerExample.ExampleRosterIsRoster | t2.py:42-48 | the roster is Agent 1, Agent 2 and Agent 3 with capacities 2, 1 and 2, holding nothing, in that order |
| SchedulerExample.ExamplePending | t2.py:55 | in the three-task example all three tasks are pending at the first step |
| SchedulerExample.StaffFirst | t2.py:60-65 | on a roster of three, an unstaffed task needing one worker goes to the first worker when it has room |
| SchedulerExample.StaffFirstTwo | t2.py:60-65 | on a roster of three, an unstaffed task needing two workers goes to the first two when both have room, whatever the third holds |
| SchedulerExample.StaffThird | t2.py:60-65 | on a roster of three, an unstaffed task needing one worker goes to the third when the first two are full |
| SchedulerExample.ExampleTask0 | t2.py:60-65 | in the example, task 0 goes to the first worker |
| SchedulerExample.ExampleTask1 | t2.py:60-65 | in the example, task 1 needs two workers and gets the first and second workers, because the first still has room |
| SchedulerExample.ExampleTask2 | t2.py:60-65 | in the example, only the third worker has room left, and it takes task 2 |
| SchedulerExample.ExampleAllocation | t2.py:54-65 | the example's allocation phase staffs all three tasks as above |
| SchedulerExample.ExampleColours | t2.py:75-89 | in the example the first two workers share task 1 and turn magenta; the third works alone and turns cyan |
| SchedulerExample.ExampleCleanup | t2.py:92 | in the example no task is completed after one step, so every worker keeps its list |
| SchedulerExample.ExampleFirstStep | t2.py:50-92 | after the example's first step on the fixed roster the durations are 4, 5 and 4; the first two workers are magenta and the third is cyan |
| Cooperative.CooperativeModel.constructor | t2.py:28-48 | the object starts in `InitialState` of its draws, with step counter 0 and the invariant holding |
| Cooperative.CooperativeModel.Step | t2.py:50-92 | the step counter goes up by exactly one, the new state is `StepSpec` of the old one, and the invariant is kept |
| Cooperative.CooperativeModel.Allocate | t2.py:54-65 | the allocation loop leaves the state `AllocateAll` of the state it started from |
| Cooperative.CooperativeModel.StaffTask | t2.py:58-65 | one round of the allocation loop leaves the state `AllocateOne` of the state before it |
| Cooperative.CooperativeModel.AssignFirst | t2.py:63-65 | the chosen workers append the task to their lists, and the task appends them to its staff in the same order |
| Cooperative.CooperativeModel.Execute | t2.py:67-92 | the execution loop over the roster leaves the state `ExecuteSpec` of the state it started from |
| Cooperative.CooperativeModel.RunWorker | t2.py:70-92 | after worker `k`'s turn, every active task whose first assignee is at or before `k` has been advanced once, workers up to `k` have their final colour and cleaned list, and the later workers are untouched |
| Cooperative.CooperativeModel.WorkThrough | t2.py:76-86 | going through its held tasks, worker `k` advances exactly the active tasks whose first assignee it is, and reports whether one of its tasks needs more than one worker |
| Cooperative.WorkedNext | t2.py:77-86 | the next held task is active with a first assignee at or before `k`; worker `k` advances it only when it is that first assignee, and it has not been advanced yet when `k` is |
| Cooperative.WorkedAll | t2.py:77-86 | once worker `k` has gone through all it holds, exactly the active tasks whose first assignee is at or before `k` are advanced |
| Cooperative.CooperatingSnoc | t2.py:76-79 | looking at one more held task sets the flag exactly when that task needs more than one worker |
| Cooperative.TurnReadyFromInv | t2.py:60-65 | under the invariant, worker `k` holds no task twice, holds every active task whose first assignee it is, and every task it holds is active with its first assignee at or before `k` |
| Cooperative.IdleTurn | t2.py:72-73 | a worker holding nothing is the first assignee of no active task, so skipping it advances nothing |
| Cooperative.TurnWorker | t2.py:71-92 | after worker `k`'s turn its colour comes from the tasks it held and its cleaned list is the one the execution phase gives it |
| Cooperative.ExecutedAll | t2.py:70-92 | once every worker has had its turn, every active task has advanced exactly once |
| Cooperative.UnfinishedAgrees | t2.py:92 | the cleanup filter depends only on the completion flags of the tasks in the list |

## Left out

- The console output of t2.py:52 and t2.py:80 is not modelled. One
  consequence goes unrecorded: line 80 prints the live duration, so a
  non-first worker on a shared task prints the value after the first
  worker's decrement.
- Mesa is not modelled: the `Agent`/`Model` base classes, the `MultiGrid`,
  the grid positions in the roster configuration (t2.py:30, 42, 47), and
  the empty `WorkerAgent.step` (t2.py:24-25).
- `run_viz` and the matplotlib animation (t2.py:94-114) are not modelled,
  including the fixed run of 15 frames. `Steps` models any number of steps.
- The random draws of t2.py:37-38 are parameters of the constructor. Its
  precondition asks for what the draws guarantee: need in {1, 2, 3} and
  duration in [5, 20].
- Object identity is not modelled. Tasks and workers are values in two
  sequences, and references between them are indices. Membership
  `a not in task.assigned_agents` becomes membership of a roster index.
- IndexError: t2.py:83 would raise it for a held task with no assignees.
  Under the invariant that never happens, and the step requires the
  invariant.
- `StaffTask` skips the assignment when `needed` is not positive. There
  `range(needed)` is empty anyway, and under the invariant every pending
  task has `needed == resources >= 1`.
- `Task_1.py`, `t1.py`, `t3.py` and `t4.py` (parking-lot simulations, a
  word-count benchmark, a weather UI) are not part of this model. They are
  random walks, multiprocessing, network I/O and persistence, with no
  scheduling.
