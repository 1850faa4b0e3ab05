# 3M-DRF arrival simulator, modelled in Dafny

This project models the arrival-driven cluster simulator in
`allocators/arrival/__init__.py` and the 3M-DRF allocation policy in
`mmmalloc/allocators/arrival/mmm_drf.py`.

- **Tasks.** Each task belongs to a user, has a duration and a demand per
  resource type, and arrives at a submit time.
- **Backlogs.** Arriving tasks wait in per-user FIFO backlogs.
- **Admission.** The policy picks which user's next task runs.
  - A running task is charged to `consumed_resources`, to its user's row of
    `allocations` and to `allocation_history`.
  - It runs until `current_time` plus its duration, held in a queue keyed by
    that finish time.
  - Before the clock moves to a later arrival's submit time, every running
    task due by that time (or by the simulation limit, if earlier) completes
    and is released. Completing a task does not move the clock.
- **The 3M-DRF policy** ranks users in two priority queues:
  - the first ranks by how much of their own resources they use. It starts
    with every user at key 0; afterwards a user is re-added only while it
    holds less than it owns of every resource;
  - the second ranks by the dominant share net of owned resources and
    credibility.
  - The first user in the first queue whose next task passes
    `user_fulfills_request` is served. The second queue is consulted only
    when no user in the first queue can be served. As written,
    that check compares the task against every user's owned resources, not
    only its own user's (see Findings).

The modules:

- `Wrappers`: `Option`.
- `Vectors`: numpy vectors and matrices as `seq<real>` and `seq<seq<real>>`, column sums and `np.max`.
- `PriorityQueues`: the keyed min-queue, as a value.
- `Tasks`: `Task` and its identity counter.
- `MmmDrf`: the policy's keys and its queue selection.
  - The class `MMMDRF` holds the policy's state.
- `Ledger` and `Simulation`: the simulator's state as a value, its three steps (admission, completion, arrival) and the invariant `Consistent` they keep.
- `Arrival`: the class `Arrival`, whose methods update the simulator's fields in place.
  - Each method is proved against the steps of `Simulation`.

The invariant `Consistent` says:

- the running queue is ordered by finish time;
- every running task carries its own finish time as its key;
- `consumed_resources` is the column sum of `allocations`;
- each row of `allocations` is exactly what that user's running tasks demand;
- each backlog holds that user's tasks: what arrived for the user, less the prefix already admitted.

## Model

| member | source | states |
|---|---|---|
| Vectors.SumsColumnsPlusRow | allocators/arrival/__init__.py:51-52 | Adding a demand vector to one user's row and to `consumed_resources` keeps `consumed_resources` equal to the column sums of `allocations`. |
| Vectors.SumsColumnsMinusRow | allocators/arrival/__init__.py:86-87 | Releasing a demand vector from one row and from `consumed_resources` keeps the column-sum relation. |
| Vectors.SumsColumnsOfZero | allocators/arrival/__init__.py:32-33 | The initial zero vector is the column sum of the initial zero matrix. |
| Vectors.MinusUndoesPlus | allocators/arrival/__init__.py:51-52 | Releasing the demands a task was charged restores the vector: `(a + d) - d == a`. |
| Vectors.Max | mmmalloc/allocators/arrival/mmm_drf.py:42 | `np.max` of a non-empty vector bounds every element and is one of them. |
| PriorityQueues.Empty | allocators/arrival/__init__.py:35 | `PriorityQueue()`: the new queue is ordered and empty. |
| PriorityQueues.IsEmpty | sdrf/helpers/c_live_tree/priority_queue.h:25 | Definition of `empty()`: the queue holds no entry. |
| PriorityQueues.Add | sdrf/helpers/c_live_tree/priority_queue.h:19 | Definition: `add` splices the new entry in just before the first entry whose priority exceeds its own. Its properties are PriorityQueues.AddSpec and PriorityQueues.AddMembers. |
| PriorityQueues.AddSpec | sdrf/helpers/c_live_tree/priority_queue.h:19 | `add` keeps the queue ordered by priority, grows it by one and adds exactly the new entry as a multiset. |
| PriorityQueues.AddMembers | sdrf/helpers/c_live_tree/priority_queue.h:19 | After `add`, the queue holds the new entry and the old entries, and nothing else. |
| PriorityQueues.GetMin | sdrf/helpers/c_live_tree/priority_queue.h:21 | `get_min` is None exactly on an empty queue; otherwise it is an entry of the queue whose priority is at most every entry's. |
| PriorityQueues.Pop | sdrf/helpers/c_live_tree/priority_queue.h:20 | `pop` keeps the queue ordered and removes exactly the entry `get_min` returns. It leaves an empty queue unchanged. |
| PriorityQueues.Remove | sdrf/helpers/c_live_tree/priority_queue.h:24 | `remove(name)` keeps the order. An absent name leaves the queue unchanged; a present one removes exactly one entry holding it. |
| PriorityQueues.Contains | sdrf/helpers/c_live_tree/priority_queue.h:26 | Definition of `element_is_in(name)`: some entry holds that item. |
| PriorityQueues.FromPrioritiesHolds | mmmalloc/allocators/arrival/mmm_drf.py:30 | A queue seeded from a vector of priorities holds every index, each with its own priority, and no other item. |
| Tasks.SameTask | allocators/arrival/__init__.py:20-24 | Definition of `__eq__` (and of what `__hash__` hashes): two tasks are the same exactly when their counts are equal. |
| Tasks.TaskCounter.constructor | allocators/arrival/__init__.py:18 | `itertools.count()`: the counter starts at 0. |
| Tasks.TaskCounter.NewTask | allocators/arrival/__init__.py:10-18 | A new task has no finish time and takes the counter's current value as its identity; the counter advances by one. |
| Tasks.NewTasksDiffer | allocators/arrival/__init__.py:16-24 | Two tasks made in succession are never `==` (their counts differ and increase). |
| MmmDrf.ResourceKey | mmmalloc/allocators/arrival/mmm_drf.py:42 | `res_left` is defined (not inf or NaN) exactly when the user owns some of every resource. It is then the largest ratio `alloc[r] / owned[r]`: at least every ratio and equal to one of them, hence non-negative. |
| MmmDrf.ResourceKeyBelowOne | mmmalloc/allocators/arrival/mmm_drf.py:42-47 | `res_left < 1` holds exactly when the user holds strictly less than it owns of every resource. |
| MmmDrf.InsertResources | mmmalloc/allocators/arrival/mmm_drf.py:42-47 | Definition, on queue values: the user is added keyed by `res_left` only when that key is defined and below 1. Its properties are MmmDrf.InsertResourcesJoins. |
| MmmDrf.InsertResourcesJoins | mmmalloc/allocators/arrival/mmm_drf.py:40-47 | The user joins the resource queue exactly when it holds less than it owns of every resource; otherwise the queue is unchanged. The queue stays ordered. |
| MmmDrf.CredibilityKey | mmmalloc/allocators/arrival/mmm_drf.py:50-52 | The credibility key is `max((alloc - owned - credibility) / capacities)`: at least every per-resource quotient and equal to one of them. |
| MmmDrf.CredibilityKeyNonPositive | mmmalloc/allocators/arrival/mmm_drf.py:50-52 | The credibility key is at most 0 exactly when no resource is held beyond what the user owns plus its credibility. |
| MmmDrf.DrfReduction | mmmalloc/allocators/arrival/mmm_drf.py:50-52 | When a user owns nothing and has zero credibility, its credibility key is DRF's dominant share. |
| MmmDrf.EqualOwnedRowsRankUnlikeDrf | mmmalloc/allocators/arrival/mmm_drf.py:168-170 | A concrete case with equal owned rows and zero credibility where the credibility key orders two users opposite to DRF's dominant share. |
| MmmDrf.FitsOwnedIgnoresOtherUsers | mmmalloc/allocators/arrival/mmm_drf.py:60-62 | The intended check depends only on the task's own user's owned row; changing another user's row does not change the verdict. |
| MmmDrf.FitsOwnedAsWritten | mmmalloc/allocators/arrival/mmm_drf.py:60-62 | `user_fulfills_request` as written: the user's allocation plus the demands must fit every user's owned row. It is never weaker than the intended own-row check, and it agrees with that check when every user owns the same resources. |
| MmmDrf.BroadcastRefusesOwnedRequest | mmmalloc/allocators/arrival/mmm_drf.py:60-62 | A concrete request the intended check admits and the broadcast check refuses. |
| MmmDrf.PickFromQueue | mmmalloc/allocators/arrival/mmm_drf.py:64-69 | The result is None iff no ranked user has a backlog whose head passes the filter; None changes nothing. Otherwise the first eligible user in rank order is served: its head task is returned and removed from its backlog. Exactly that user's entry leaves the ranking, as a multiset. |
| MmmDrf.IntendedServesWhenBroadcastDoes | mmmalloc/allocators/arrival/mmm_drf.py:60-66 | Whenever a ranking serves a task under the check as written, it also serves one under the intended check. |
| MmmDrf.RowMaxes | mmmalloc/allocators/arrival/mmm_drf.py:37-38 | Each user's seed priority is `np.max` of its credibility row: at least each of them and equal to one of them. |
| MmmDrf.MMMDRF.constructor | mmmalloc/allocators/arrival/mmm_drf.py:13-38 | The resource queue is seeded with every user at 0. Credibilities are zero unless given. The credibility queue is seeded with each user's largest credibility. |
| MmmDrf.MMMDRF.InsertUserResourcesHeap | mmmalloc/allocators/arrival/mmm_drf.py:40-47 | The user is added with key `res_left` only when `res_left < 1`; nothing else changes. |
| MmmDrf.MMMDRF.InsertUserCredHeap | mmmalloc/allocators/arrival/mmm_drf.py:49-53 | The user is always added to the credibility queue with its net dominant share; nothing else changes. |
| MmmDrf.MMMDRF.InsertUser | mmmalloc/allocators/arrival/mmm_drf.py:55-57 | The resource-queue insertion, then the credibility-queue insertion; credibilities are unchanged. |
| MmmDrf.MMMDRF.Choice | mmmalloc/allocators/arrival/mmm_drf.py:71 | The task `pick_task` returns: the resource queue's pick, or else the credibility queue's. It is None exactly when nothing can be picked; otherwise, when every backlog holds its own user's tasks, it is the head of its user's backlog. |
| MmmDrf.MMMDRF.PickTask | mmmalloc/allocators/arrival/mmm_drf.py:59-72 | The resource queue is tried first, filtered by `user_fulfills_request` as written (the broadcast check). The credibility queue, unfiltered, is tried only when the first yields nothing. The picked task is the head of its user's backlog and is removed from it. None is returned exactly when no user can be served from either queue. |
| MmmDrf.MMMDRF.FinishTask | mmmalloc/allocators/arrival/mmm_drf.py:74-76 | The finishing task's user re-enters both queues; credibilities are not updated. |
| Ledger.LoadInsert | allocators/arrival/__init__.py:55 | Putting a task into the running queue at any position adds exactly its demands to its user's load. |
| Ledger.CountTail | allocators/arrival/__init__.py:59-61 | Serving one backlog head lowers the total backlog by one. This is the measure that ends the admission loop. |
| Ledger.AdmissionLoads | allocators/arrival/__init__.py:51-55 | After an admission, each row of `allocations` is still exactly the load of that user's running tasks. |
| Ledger.CompletionLoads | allocators/arrival/__init__.py:86-88 | After the earliest running task completes and is released, each row is still exactly the load of that user's running tasks. |
| Ledger.ServeHead | allocators/arrival/__init__.py:46-47 | Serving the head of a backlog keeps the FIFO bookkeeping: arrived = admitted + waiting. |
| Ledger.AppendArrival | allocators/arrival/__init__.py:77 | Appending an arrival to the back of its user's backlog keeps the FIFO bookkeeping. |
| Simulation.Earliest | allocators/arrival/__init__.py:72-73 | `min(simulation_limit, submit_time)` is at most both arguments and equals one of them. |
| Simulation.UserTasksInOrder | allocators/arrival/__init__.py:69-77 | A user's share of the task stream holds only that user's tasks, and every task of that user in the stream. |
| Simulation.ReceivedStep | allocators/arrival/__init__.py:77 | Appending the next stream task to its user's backlog extends what each user has received by exactly that task. |
| Simulation.ClockIsLatest | allocators/arrival/__init__.py:70-74 | The clock after a prefix of the stream is the latest of its start and the submit times seen. |
| Simulation.Admission | allocators/arrival/__init__.py:51-55 | Definition of the admission step: the demands are charged to `consumed_resources` and the user's row, the task leaves its backlog, it runs keyed by `current_time + duration`, and a snapshot is appended. Its properties are the Admission* lemmas below. |
| Simulation.AdmissionAddsRunning | allocators/arrival/__init__.py:54-55 | An admission adds exactly the new task, stamped and keyed with its finish time, to the running tasks, as a multiset. |
| Simulation.AdmissionScheduled | allocators/arrival/__init__.py:54-55 | An admission keeps the running queue ordered, each task stamped with its finish time, and grows it by one. |
| Simulation.AdmissionSums | allocators/arrival/__init__.py:51-52 | An admission keeps `consumed_resources` equal to the column sums of `allocations`. |
| Simulation.AdmissionRows | allocators/arrival/__init__.py:51-55 | An admission keeps every row of `allocations` equal to its user's running load. |
| Simulation.AdmissionCharged | allocators/arrival/__init__.py:51-55 | An admission keeps the charging half of the invariant. |
| Simulation.AdmissionBacklogged | allocators/arrival/__init__.py:46-52 | An admission serves its user's backlog head in FIFO order and lowers the total backlog by one. |
| Simulation.AdmissionKeeps | allocators/arrival/__init__.py:46-57 | `run_task` with a picked head task keeps the whole invariant. It adds one running task and one history snapshot, and leaves the clock alone. |
| Simulation.Completion | allocators/arrival/__init__.py:85-88 | Definition of the completion step: the earliest running task's demands come back from `consumed_resources` and its user's row, and it is popped. Its properties are the Completion* lemmas below. |
| Simulation.CompletionScheduled | allocators/arrival/__init__.py:88 | A completion drops exactly the earliest running entry and keeps the queue ordered. |
| Simulation.CompletionCharged | allocators/arrival/__init__.py:86-88 | A completion keeps the charging invariant. Before the release, the user's row holds at least the released demands of every resource, so the row never goes negative. |
| Simulation.CompletionKeeps | allocators/arrival/__init__.py:82-88 | A completion keeps the whole invariant and leaves the backlogs, the clock and the history unchanged. |
| Simulation.Arrive | allocators/arrival/__init__.py:77 | Definition of the arrival step: the task is appended to the back of its user's backlog. Its property is Simulation.ArrivalKeeps. |
| Simulation.ArrivalKeeps | allocators/arrival/__init__.py:77 | An arrival keeps the whole invariant. |
| Simulation.CompletionUndoesAdmission | allocators/arrival/__init__.py:51-55 | Completing a task that was just admitted, and that finishes before every other running task, restores the charges and the running queue. |
| Arrival.Arrival.constructor | allocators/arrival/__init__.py:28-38 | Everything starts at zero or empty, at time 0.0, and the invariant holds. |
| Arrival.Arrival.RunTask | allocators/arrival/__init__.py:46-57 | Returns False exactly when the policy has nothing to pick; then the simulator state and both rankings are unchanged. Otherwise it admits the policy's choice, which heads its user's backlog, and appends one history snapshot. The rankings become those the pick leaves behind: the served user leaves the ranking it was served from. The old running entries all remain. |
| Arrival.Arrival.Admit | allocators/arrival/__init__.py:51-55 | The new state is the admission step of the old state, with one more history snapshot, and the invariant is kept. |
| Arrival.Arrival.RunAllTasks | allocators/arrival/__init__.py:59-61 | Terminates with nothing left to pick and the clock unchanged. Every task that was running still is. Each admission moves one task from the backlogs to the running queue and adds exactly one history snapshot. |
| Arrival.Arrival.Complete | allocators/arrival/__init__.py:82-88 | The new state is the completion step of the old state: the earliest running task is released and popped. The policy re-ranks that task's user in both rankings, keyed by its allocation from before the release. |
| Arrival.Arrival.Retire | allocators/arrival/__init__.py:85-89 | One loop turn of `_finish_tasks_until`: completes the earliest running task, then admits until nothing can be picked. The clock and the arrivals are unchanged. Every old running entry except the head is still running, and the running queue grows by exactly as many entries as tasks were taken from the backlogs. |
| Arrival.Arrival.FinishTasksUntil | allocators/arrival/__init__.py:80-89 | On return, every remaining running task finishes after the horizon, and every completed task finished at or before it. The clock is unchanged. |
| Arrival.Arrival.Enqueue | allocators/arrival/__init__.py:77 | The new state is the arrival step of the old state. |
| Arrival.Arrival.Step | allocators/arrival/__init__.py:69-77 | The clock moves to the submit time only if that time is later. The task is enqueued exactly when it is not beyond the limit. When the clock moves, every task still running afterwards finishes after `min(limit, submit_time)`. |
| Arrival.Arrival.Feed | allocators/arrival/__init__.py:69-77 | Consumes the stream up to the first task beyond the limit. Each user receives exactly its share of the consumed prefix, in order. The clock ends at the latest submit time seen. |
| Arrival.Arrival.Advance | allocators/arrival/__init__.py:69-77 | One turn of the arrival loop: the next task of the stream extends what its user received and the clock, exactly as Simulation.ClockAfter and Simulation.Received count them. |
| Simulation.StaleClockAdmitsEarlierFinish | allocators/arrival/__init__.py:80-89 | A concrete state where a task admitted right after a completion finishes earlier than the task just completed, because completing does not move the clock. |
| Simulation.AdvancingKeepsFinishOrder | allocators/arrival/__init__.py:80-89 | If the clock moved to the completed task's finish time, every task still running or admitted next would finish no earlier than it. |
| Arrival.Arrival.Simulate | allocators/arrival/__init__.py:66-78 | The stream is consumed up to the first task beyond the limit. Each user receives its share of it. With no early stop, every task still running ends after the limit. The clock never moves back. |

## Left out

- Arrival.Arrival.FinishTasksUntil: does not state that tasks complete in non-decreasing finish time. `_finish_tasks_until` never advances `current_time`, so a task admitted after a completion gets the stale `current_time` plus its duration. That finish time can be earlier than the one just completed (see Findings).
- Arrival.Arrival.FinishTasksUntil: the ghost list `done` is tied to the completion horizon, but not to the entries removed from the running queue. Admissions between completions interleave with those entries.
- Arrival.Arrival.Simulate: does not state that every task is eventually admitted. The final `_finish_tasks_until` (`__init__.py:78`) is not preceded by `run_all_tasks`, so the last batch of arrivals stays in the backlogs when nothing is running.
- Arrival.Arrival.Complete: calls the policy's `finish_task` before the task's demands are released, as `__init__.py:85-87` does. The user is therefore re-ranked by its allocation still holding the task.
- MmmDrf.PickFromQueue: `_pick_from_queue` is not part of this model, and the callers rely only on "a backlog head or None". The model fixes one semantics for it, as an assumption:
  - the first eligible user in rank order is served, and only that user leaves the ranking;
  - users skipped as ineligible keep their places;
  - no capacity check is made.
  Because the unfiltered credibility ranking can then admit a task larger than what is free, `consumed_resources <= capacities` is not an invariant of the model, and nothing here proves it.
- Equal priorities leave the queue in insertion order. The policy uses `helpers.priority_queue.PriorityQueue`, whose implementation is not part of this model; only its C++ interface is. The tie-break is an assumption.
- PriorityQueues.FromPriorities: `PriorityQueue(np.zeros(n))` is modelled as item `i` with priority `ps[i]`, added in index order. That is an assumption about the same unseen constructor.
- PriorityQueues.Add: adding an item that is already in the queue adds a second entry for it. The queue's name map and `element_is_in` suggest one entry per name, so this is an assumption about the unseen queue. It matters here: `finish_task` re-adds its user to both rankings without checking, while a pick removes the user only from the ranking that served it. The other ranking then holds the user twice, and every later completion of a task served from the same ranking adds another stale entry.
- `update`, `cbegin`/`cend`, the string form and the ctypes wrappers of the priority queue, and the `DynamicPriorityQueue` and `Element` classes, are left out. The simulator and the policy do not use them.
- Floating point: numpy float64 values are `real`s. Division by zero (inf or NaN) in `res_left` is modelled as "no key" (`ResourceKey` returns None), because such a key is never below 1.
- `Task._user_index`, the user-name-to-row mapping at `mmm_drf.py:23-25`, is left out. The owned resources are given already in row order.
- `keep_history` (`mmm_drf.py:14` and `21`) is left out; the history is always kept.
- `finish_task` has two signatures in the source: `(user, task_demands, num_tasks)` in the base class and `(task)` in MMMDRF. `__init__.py:85` calls it with `(user, demands)`, which MMMDRF's one-argument method would reject. The model assumes the completed task itself is passed to MMMDRF's `finish_task`.
- MmmDrf.DrfReduction: proves agreement with DRF only when a user owns nothing and has zero credibility. The closing note at `mmm_drf.py:168-170` expects agreement whenever all users own the same resources and have zero credibility. That does not hold for the key as written: MmmDrf.EqualOwnedRowsRankUnlikeDrf gives a counterexample. The note is design prose, not code, and no corrected key is modelled.
- The `submit_time=0` default of `Task` is not modelled; every task is given its submit time.
- The commented-out credibility update in `mmm_drf.py:76-90` is not modelled, and `delta` is stored but unused, as in the source.
- `run_after_task` is a no-op in the base class and is left out.
- Inheritance is modelled as composition: `Arrival` holds an `MMMDRF` and calls its `PickTask` and `FinishTask`.
- The `for task in tasks` loop of `simulate` is a `while` loop in Arrival.Arrival.Feed, one iteration per task via Arrival.Arrival.Step. Its early `return` becomes the `beyond` result.
- `ghost` bookkeeping (`arrived`, `admitted`, `done`, `picked`) exists only to state the FIFO and selection properties; the source has no such fields.

## Findings

| source | as written | input that shows it | evidently intended | confidence | as-written member | corrected member |
|---|---|---|---|---|---|---|
| mmmalloc/allocators/arrival/mmm_drf.py:60-62 | `user_alloc + task.demands <= self.user_resources` compares the user's vector with the whole owned-resources matrix. numpy broadcasts it against every user's row, so the request must fit what EVERY user owns. MmmDrf.MMMDRF.PickTask runs this check as written (filter `Broadcast`). The intended one is filter `WithinOwned`, and MmmDrf.IntendedServesWhenBroadcastDoes relates the two. | Two users owning `[[10], [1]]`, nothing allocated, user 0 asks for `[5]`. The request fits user 0's own 10 units, but it is refused because it exceeds user 1's 1 unit. | Compare with `self.user_resources[task.user]`, the task's own user's row. | not executed | MmmDrf.BroadcastRefusesOwnedRequest | MmmDrf.FitsOwnedIgnoresOtherUsers |
| allocators/arrival/__init__.py:80-89 | `_finish_tasks_until` completes due tasks and admits new ones without moving `current_time`, so new tasks get finish times from a stale clock. | One running task due at 10, clock 0, and a backlogged task of duration 1. The completion leaves the clock at 0, so the next task is due at 1, before the completed one. | Set `current_time` to the completed task's finish time before admitting more tasks. | not executed | Simulation.StaleClockAdmitsEarlierFinish | Simulation.AdvancingKeepsFinishOrder |
