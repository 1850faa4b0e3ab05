/**
 * The discrete-event simulator, class Arrival of allocators/arrival/__init__.py.
 * Tasks arrive in a stream; each user has a FIFO backlog; the policy picks
 * which backlog head to admit; admitted tasks run until their finish time,
 * held in a queue keyed by that time. The policy is the 3M-DRF one
 * (MmmDrf.MMMDRF), held as a component where the source uses a subclass.
 * Every method is proved against the steps of module Simulation.
 */
module Arrival {
  import opened Wrappers
  import opened Vectors
  import opened PriorityQueues
  import opened Tasks
  import opened MmmDrf
  import opened Ledger
  import opened Simulation

  class Arrival {
    const capacities: Vector
    const numUsers: nat
    const numResources: nat
    /** The allocation policy: `pick_task` and `finish_task`. */
    const policy: MMMDRF

    var consumed: Vector
    /** Row `u` is what user `u`'s running tasks hold. */
    var allocations: Matrix
    /** `users_queues`: one FIFO backlog per user. */
    var usersQueues: seq<seq<Task>>
    /** `running_tasks`, keyed by finish time. */
    var running: PQueue<Task>
    var currentTime: real
    /** `allocation_history`: a snapshot of `allocations` after each admission. */
    var history: seq<Matrix>

    /** Every task ever appended to each user's backlog, in order. */
    ghost var arrived: seq<seq<Task>>
    /** Every task admitted for each user, in order of admission. */
    ghost var admitted: seq<seq<Task>>

    /** The simulator's fields as one value. */
    function State(): Sim
      reads this
    {
      Sim(consumed, allocations, usersQueues, running, currentTime, history)
    }

    ghost predicate Valid()
      reads this, policy
    {
      numResources == |capacities| &&
      policy.Valid() && policy.capacities == capacities &&
      policy.numUsers == numUsers && policy.numResources == numResources &&
      Consistent(State(), numUsers, numResources, arrived, admitted)
    }

    /** `Arrival(capacities, num_users)`, with the policy that picks and finishes tasks. */
    constructor (capacities: Vector, numUsers: nat, policy: MMMDRF)
      requires policy.Valid() && policy.capacities == capacities && policy.numUsers == numUsers
      ensures Valid() && this.policy == policy
      ensures this.capacities == capacities && this.numUsers == numUsers
      ensures State() == Sim(Zeros(|capacities|), ZeroMatrix(numUsers, |capacities|),
                             seq(numUsers, _ => []), Empty(), 0.0, [])
    {
      this.capacities := capacities;
      this.numUsers := numUsers;
      numResources := |capacities|;
      this.policy := policy;
      consumed := Zeros(|capacities|);
      allocations := ZeroMatrix(numUsers, |capacities|);
      usersQueues := seq(numUsers, _ => []);
      running := Empty();
      currentTime := 0.0;
      history := [];
      arrived := seq(numUsers, _ => []);
      admitted := seq(numUsers, _ => []);
      SumsColumnsOfZero(numUsers, |capacities|);
    }

    /**
     * `run_task()`: admit the task the policy picks, if any. The admission is
     * Simulation.Admission; when nothing can be picked nothing changes.
     */
    method RunTask() returns (ok: bool, ghost picked: Option<Task>)
      requires Valid()
      modifies this, policy
      ensures Valid() && arrived == old(arrived)
      ensures policy.credibilities == old(policy.credibilities)
      ensures picked == old(policy.Choice(allocations, usersQueues))
      ensures ok <==> picked.Some?
      ensures !ok ==> State() == old(State()) && admitted == old(admitted) &&
                      policy.NothingToPick(allocations, usersQueues)
      ensures ok ==>
        var t := picked.value;
        t.user < numUsers && old(CanAdmit(State(), t)) && t == old(usersQueues[t.user][0]) &&
        State() == Admission(old(State()), t) &&
        admitted == old(admitted[t.user := admitted[t.user] + [t]])
      ensures var r := PickFromQueue(old(policy.resourcesQueue), old(usersQueues), Broadcast(old(allocations), policy.userResources));
              var c := PickFromQueue(old(policy.credibilitiesQueue), old(usersQueues), Unfiltered);
              policy.resourcesQueue == (if r.task.Some? then r.queue else old(policy.resourcesQueue)) &&
              policy.credibilitiesQueue == (if r.task.Some? then old(policy.credibilitiesQueue) else c.queue)
      ensures Count(usersQueues) == old(Count(usersQueues)) - (if ok then 1 else 0)
      ensures |running.entries| == old(|running.entries|) + (if ok then 1 else 0)
      ensures multiset(old(running.entries)) <= multiset(running.entries)
      ensures old(history) <= history && |history| == old(|history|) + (if ok then 1 else 0)
    {
      var task, queues' := policy.PickTask(allocations, usersQueues);
      if task.None? {
        return false, None;
      }
      ghost var s := State();
      Admit(task.value);
      AdmissionAddsRunning(s, task.value);
      ok, picked := true, task;
    }

    /**
     * The admission half of `run_task()`: `t` leaves the head of its
     * user's backlog, its demands are charged and it runs until
     * `current_time + duration`.
     */
    method Admit(t: Task)
      requires Valid()
      requires t.user < numUsers && |usersQueues[t.user]| > 0 && t == usersQueues[t.user][0]
      modifies this
      ensures Valid() && arrived == old(arrived)
      ensures old(CanAdmit(State(), t)) && State() == Admission(old(State()), t)
      ensures admitted == old(admitted[t.user := admitted[t.user] + [t]])
      ensures Count(usersQueues) == old(Count(usersQueues)) - 1
      ensures |running.entries| == old(|running.entries|) + 1
      ensures old(history) <= history && |history| == old(|history|) + 1
    {
      ghost var s := State();
      AdmissionKeeps(s, t, numUsers, numResources, arrived, admitted);
      var u, finish := t.user, currentTime + t.duration;
      admitted := admitted[u := admitted[u] + [t]];
      var rows := allocations[u := Plus(allocations[u], t.demands)];
      consumed, allocations, usersQueues := Plus(consumed, t.demands), rows, usersQueues[u := usersQueues[u][1..]];
      history, running := history + [rows], Add(running, t.(finishTime := Some(finish)), finish);
      assert State() == Admission(s, t);
    }

    /** `run_all_tasks()`: admit until the policy has nothing to pick. */
    method RunAllTasks()
      requires Valid()
      modifies this, policy
      ensures Valid() && policy.NothingToPick(allocations, usersQueues)
      ensures currentTime == old(currentTime) && arrived == old(arrived)
      ensures policy.credibilities == old(policy.credibilities)
      ensures Count(usersQueues) <= old(Count(usersQueues))
      ensures |running.entries| == old(|running.entries|) + (old(Count(usersQueues)) - Count(usersQueues))
      ensures multiset(old(running.entries)) <= multiset(running.entries)
      ensures old(history) <= history && |history| == old(|history|) + (old(Count(usersQueues)) - Count(usersQueues))
    {
      while true
        invariant Valid()
        invariant currentTime == old(currentTime) && arrived == old(arrived)
        invariant policy.credibilities == old(policy.credibilities)
        invariant Count(usersQueues) <= old(Count(usersQueues))
        invariant |running.entries| == old(|running.entries|) + (old(Count(usersQueues)) - Count(usersQueues))
        invariant multiset(old(running.entries)) <= multiset(running.entries)
        invariant old(history) <= history && |history| == old(|history|) + (old(Count(usersQueues)) - Count(usersQueues))
        decreases Count(usersQueues)
      {
        var ok, picked := RunTask();
        if !ok {
          break;
        }
      }
    }

    /**
     * The completion half of `_finish_tasks_until`: the policy is told of
     * the running task with the smallest finish time, then its demands are
     * released and it leaves the running queue.
     */
    method Complete() returns (t: Task)
      requires Valid() && |running.entries| > 0
      modifies this, policy
      ensures Valid() && arrived == old(arrived) && admitted == old(admitted)
      ensures policy.credibilities == old(policy.credibilities)
      ensures old(CanComplete(State())) && State() == Completion(old(State()))
      ensures t == old(running.entries[0].item)
      ensures running.entries == old(running.entries[1..])
      ensures t.user < numUsers && |old(allocations)[t.user]| == numResources && NonNegative(old(allocations)[t.user])
      ensures policy.Reranked(old(policy.resourcesQueue), old(policy.credibilitiesQueue), t.user, old(allocations)[t.user])
    {
      ghost var s := State();
      CompletionKeeps(s, numUsers, numResources, arrived, admitted);
      t := running.entries[0].item;
      var u, d := t.user, t.demands;
      policy.FinishTask(t, allocations);
      consumed, allocations, running := Minus(consumed, d), allocations[u := Minus(allocations[u], d)], Pop(running);
      assert State() == Completion(s);
    }

    /**
     * `_finish_tasks_until(next_time)`: complete running tasks, smallest
     * finish time first, while that finish time is not after the horizon,
     * draining the backlogs after each one. `done` lists the completed
     * tasks in order.
     */
    method FinishTasksUntil(horizon: Limit) returns (ghost done: seq<Task>)
      requires Valid()
      modifies this, policy
      ensures Valid()
      ensures currentTime == old(currentTime) && arrived == old(arrived)
      ensures policy.credibilities == old(policy.credibilities)
      ensures old(history) <= history
      ensures forall i :: 0 <= i < |running.entries| ==> After(running.entries[i].priority, horizon)
      ensures forall i :: 0 <= i < |done| ==> done[i].finishTime.Some? && !After(done[i].finishTime.value, horizon)
      ensures done != [] || old(policy.NothingToPick(allocations, usersQueues)) ==>
                policy.NothingToPick(allocations, usersQueues)
      ensures |running.entries| + |done| == old(|running.entries|) + (old(Count(usersQueues)) - Count(usersQueues))
    {
      done := [];
      while true
        invariant Valid()
        invariant currentTime == old(currentTime) && arrived == old(arrived)
        invariant policy.credibilities == old(policy.credibilities)
        invariant old(history) <= history
        invariant forall i :: 0 <= i < |done| ==> done[i].finishTime.Some? && !After(done[i].finishTime.value, horizon)
        invariant done != [] || old(policy.NothingToPick(allocations, usersQueues)) ==>
                    policy.NothingToPick(allocations, usersQueues)
        invariant Count(usersQueues) <= old(Count(usersQueues))
        invariant |running.entries| + |done| == old(|running.entries|) + (old(Count(usersQueues)) - Count(usersQueues))
        decreases Count(usersQueues), |running.entries|
      {
        var next := GetMin(running);
        if next.None? || After(next.value.item.finishTime.value, horizon) {
          break;
        }
        ghost var t := Retire();
        done := done + [t];
      }
    }

    /**
     * One pass of `_finish_tasks_until`'s loop once the earliest running
     * task is due: complete it, then admit whatever can now be picked.
     */
    method Retire() returns (ghost t: Task)
      requires Valid() && |running.entries| > 0
      modifies this, policy
      ensures Valid() && policy.NothingToPick(allocations, usersQueues)
      ensures t == old(running.entries[0].item)
      ensures currentTime == old(currentTime) && arrived == old(arrived)
      ensures policy.credibilities == old(policy.credibilities)
      ensures old(history) <= history
      ensures Count(usersQueues) <= old(Count(usersQueues))
      ensures |running.entries| + 1 == old(|running.entries|) + (old(Count(usersQueues)) - Count(usersQueues))
      ensures multiset(old(running.entries[1..])) <= multiset(running.entries)
    {
      t := Complete();
      RunAllTasks();
    }

    /** Every running task finishes after `horizon`. */
    ghost predicate DueAfter(horizon: Limit)
      reads this
    {
      forall i :: 0 <= i < |running.entries| ==> After(running.entries[i].priority, horizon)
    }

    /**
     * When the clock moves from `clock` to a later `next`, what
     * `_finish_tasks_until(min(limit, next))` leaves: every running task
     * finishes after that time.
     */
    ghost predicate DrainedUntil(limit: Limit, next: real, clock: real)
      reads this
    {
      next > clock ==> DueAfter(Finite(Earliest(limit, next)))
    }

    /** `users_queues[task.user].append(task)`: the arrival step Simulation.Arrive. */
    method Enqueue(task: Task)
      requires Valid() && WellFormed(task, numUsers, numResources)
      modifies this
      ensures Valid() && admitted == old(admitted)
      ensures State() == Arrive(old(State()), task)
      ensures arrived == old(arrived[task.user := arrived[task.user] + [task]])
    {
      ghost var s := State();
      ArrivalKeeps(s, task, numUsers, numResources, arrived, admitted);
      var u := task.user;
      usersQueues := usersQueues[u := usersQueues[u] + [task]];
      arrived := arrived[u := arrived[u] + [task]];
      assert State() == Arrive(s, task);
    }

    /**
     * One pass of `simulate`'s loop for `task`. When the task arrives later
     * than the clock, the backlogs are drained, running tasks due by the
     * earlier of the limit and its arrival complete, and the clock moves to
     * its arrival. A task beyond the limit is not enqueued and `beyond` tells
     * the caller to stop; otherwise it joins the back of its user's backlog.
     */
    method Step(task: Task, limit: Limit) returns (beyond: bool)
      requires Valid() && WellFormed(task, numUsers, numResources)
      modifies this, policy
      ensures Valid() && beyond == After(task.submitTime, limit)
      ensures currentTime == if task.submitTime > old(currentTime) then task.submitTime else old(currentTime)
      ensures arrived == if beyond then old(arrived) else old(arrived[task.user := arrived[task.user] + [task]])
      ensures old(history) <= history
      ensures policy.credibilities == old(policy.credibilities)
      ensures DrainedUntil(limit, task.submitTime, old(currentTime))
    {
      if task.submitTime > currentTime {
        RunAllTasks();
        ghost var done := FinishTasksUntil(Finite(Earliest(limit, task.submitTime)));
        currentTime := task.submitTime;
      }
      beyond := After(task.submitTime, limit);
      if !beyond {
        Enqueue(task);
      }
    }

    /**
     * The loop of `simulate`: the tasks of the stream in turn, up to the
     * first one beyond the limit. `stop` is the number of tasks enqueued and
     * `beyond` says whether the loop ended early.
     */
    method Feed(tasks: seq<Task>, limit: Limit) returns (beyond: bool, stop: nat)
      requires Valid()
      requires forall i :: 0 <= i < |tasks| ==> WellFormed(tasks[i], numUsers, numResources)
      modifies this, policy
      ensures Valid()
      ensures stop <= |tasks| && (beyond <==> stop < |tasks|)
      ensures forall i :: 0 <= i < stop ==> !After(tasks[i].submitTime, limit)
      ensures beyond ==> After(tasks[stop].submitTime, limit)
      ensures Received(arrived, old(arrived), tasks, stop, numUsers)
      ensures currentTime == ClockAfter(old(currentTime), tasks, if beyond then stop + 1 else stop)
      ensures old(history) <= history
      ensures policy.credibilities == old(policy.credibilities)
    {
      beyond, stop := false, 0;
      ghost var start, clock, past, cred := arrived, currentTime, history, policy.credibilities;
      while stop < |tasks| && !beyond
        invariant Valid()
        invariant stop <= |tasks| && (beyond ==> stop < |tasks| && After(tasks[stop].submitTime, limit))
        invariant forall j :: 0 <= j < stop ==> !After(tasks[j].submitTime, limit)
        invariant Received(arrived, start, tasks, stop, numUsers)
        invariant currentTime == ClockAfter(clock, tasks, if beyond then stop + 1 else stop)
        invariant past <= history
        invariant policy.credibilities == cred
        decreases |tasks| - stop, !beyond
      {
        beyond := Advance(tasks, stop, limit, start, clock);
        if !beyond {
          stop := stop + 1;
        }
      }
    }

    /**
     * One turn of `simulate`'s loop: Step on the next task of the stream,
     * which extends what was received and the clock by that task.
     */
    method Advance(tasks: seq<Task>, stop: nat, limit: Limit, ghost start: seq<seq<Task>>, ghost clock: real)
      returns (beyond: bool)
      requires Valid() && stop < |tasks| && WellFormed(tasks[stop], numUsers, numResources)
      requires Received(arrived, start, tasks, stop, numUsers) && currentTime == ClockAfter(clock, tasks, stop)
      modifies this, policy
      ensures Valid() && beyond == After(tasks[stop].submitTime, limit)
      ensures Received(arrived, start, tasks, if beyond then stop else stop + 1, numUsers)
      ensures currentTime == ClockAfter(clock, tasks, stop + 1)
      ensures old(history) <= history
      ensures policy.credibilities == old(policy.credibilities)
    {
      ghost var before := arrived;
      beyond := Step(tasks[stop], limit);
      if !beyond {
        ReceivedStep(before, start, tasks, stop, numUsers);
      }
    }

    /**
     * `simulate(tasks, simulation_limit)`: the stream is fed in; unless a
     * task beyond the limit ended it, the tasks due by the limit complete.
     */
    method Simulate(tasks: seq<Task>, simulationLimit: Option<real>) returns (ghost stop: nat)
      requires Valid()
      requires forall i :: 0 <= i < |tasks| ==> WellFormed(tasks[i], numUsers, numResources)
      modifies this, policy
      ensures Valid()
      ensures var limit := if simulationLimit.None? then Unbounded else Finite(simulationLimit.value);
        stop <= |tasks| &&
        (forall i :: 0 <= i < stop ==> !After(tasks[i].submitTime, limit)) &&
        (stop < |tasks| ==> After(tasks[stop].submitTime, limit)) &&
        (stop == |tasks| ==> forall i :: 0 <= i < |running.entries| ==> After(running.entries[i].priority, limit))
      ensures Received(arrived, old(arrived), tasks, stop, numUsers)
      ensures currentTime == ClockAfter(old(currentTime), tasks, if stop < |tasks| then stop + 1 else stop)
      ensures old(currentTime) <= currentTime
      ensures old(history) <= history
      ensures policy.credibilities == old(policy.credibilities)
    {
      var limit := if simulationLimit.None? then Unbounded else Finite(simulationLimit.value);
      var beyond;
      beyond, stop := Feed(tasks, limit);
      ClockIsLatest(old(currentTime), tasks, if beyond then stop + 1 else stop);
      if !beyond {
        ghost var done := FinishTasksUntil(limit);
      }
    }
  }
}
