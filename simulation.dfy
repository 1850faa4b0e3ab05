/**
 * The simulator of allocators/arrival/__init__.py as values: its state, the
 * three steps that change it (an admission, a completion, an arrival) and
 * the invariant they keep. The class Arrival.Arrival runs these steps.
 */
module Simulation {
  import opened Wrappers
  import opened Vectors
  import opened PriorityQueues
  import opened Tasks
  import opened Ledger

  /** `simulation_limit`: a time, or numpy's `inf` when none is given. */
  datatype Limit = Finite(time: real) | Unbounded

  /** `t > limit`, where nothing is beyond an unbounded limit. */
  predicate After(t: real, limit: Limit) {
    limit.Finite? && t > limit.time
  }

  /** `min(simulation_limit, t)`. */
  function Earliest(limit: Limit, t: real): (m: real)
    ensures m <= t && (limit.Finite? ==> m <= limit.time)
    ensures m == t || (limit.Finite? && m == limit.time)
  {
    if limit.Finite? && limit.time < t then limit.time else t
  }

  // ------------------------------------------------------ the input stream

  /** The tasks among the first `k` of the stream `ts` that belong to user `u`, in stream order. */
  function UserTasks(ts: seq<Task>, k: nat, u: nat): seq<Task>
    requires k <= |ts|
  {
    if k == 0 then [] else UserTasks(ts, k - 1, u) + (if ts[k - 1].user == u then [ts[k - 1]] else [])
  }

  /** A user's share of the stream holds all and only that user's tasks (UserTasks itself keeps them in stream order). */
  lemma {:induction false} UserTasksInOrder(ts: seq<Task>, k: nat, u: nat)
    requires k <= |ts|
    ensures forall j :: 0 <= j < |UserTasks(ts, k, u)| ==> UserTasks(ts, k, u)[j].user == u
    ensures forall i :: 0 <= i < k && ts[i].user == u ==>
              exists j :: 0 <= j < |UserTasks(ts, k, u)| && UserTasks(ts, k, u)[j] == ts[i]
  {
    if k > 0 {
      UserTasksInOrder(ts, k - 1, u);
      forall i | 0 <= i < k && ts[i].user == u
        ensures exists j :: 0 <= j < |UserTasks(ts, k, u)| && UserTasks(ts, k, u)[j] == ts[i]
      {
        if i < k - 1 {
          var j :| 0 <= j < |UserTasks(ts, k - 1, u)| && UserTasks(ts, k - 1, u)[j] == ts[i];
          assert UserTasks(ts, k, u)[j] == ts[i];
        } else {
          assert UserTasks(ts, k, u)[|UserTasks(ts, k, u)| - 1] == ts[i];
        }
      }
    }
  }

  /** `arrived` is `start` with each user's share of the first `k` tasks of `ts` appended to that user's list. */
  predicate Received(arrived: seq<seq<Task>>, start: seq<seq<Task>>, ts: seq<Task>, k: nat, numUsers: nat)
    requires k <= |ts|
  {
    |arrived| == numUsers && |start| == numUsers &&
    forall u :: 0 <= u < numUsers ==> arrived[u] == start[u] + UserTasks(ts, k, u)
  }

  /** Appending the next task of the stream to its user's list extends what was received by one task. */
  lemma ReceivedStep(arrived: seq<seq<Task>>, start: seq<seq<Task>>, ts: seq<Task>, k: nat, numUsers: nat)
    requires k < |ts| && Received(arrived, start, ts, k, numUsers) && ts[k].user < numUsers
    ensures Received(arrived[ts[k].user := arrived[ts[k].user] + [ts[k]]], start, ts, k + 1, numUsers)
  {
  }

  /**
   * `current_time` after the arrival loop has seen the first `k` tasks of
   * `ts`, starting from `c`: it moves to a submit time only when that time
   * is later (lines 70 and 74).
   */
  function ClockAfter(c: real, ts: seq<Task>, k: nat): real
    requires k <= |ts|
  {
    if k == 0 then c
    else
      var prev := ClockAfter(c, ts, k - 1);
      if ts[k - 1].submitTime > prev then ts[k - 1].submitTime else prev
  }

  /** The clock ends at the latest of its start and the submit times it has seen. */
  lemma {:induction false} ClockIsLatest(c: real, ts: seq<Task>, k: nat)
    requires k <= |ts|
    ensures c <= ClockAfter(c, ts, k)
    ensures forall i :: 0 <= i < k ==> ts[i].submitTime <= ClockAfter(c, ts, k)
    ensures ClockAfter(c, ts, k) == c || exists i :: 0 <= i < k && ClockAfter(c, ts, k) == ts[i].submitTime
  {
    if k > 0 {
      ClockIsLatest(c, ts, k - 1);
    }
  }

  // ------------------------------------------------------- the state and its steps

  /**
   * The fields of `Arrival`: `consumed_resources`, `allocations`,
   * `users_queues`, `running_tasks`, `current_time`, `allocation_history`.
   */
  datatype Sim = Sim(consumed: Vector, allocations: Matrix, queues: seq<seq<Task>>,
                     running: PQueue<Task>, clock: real, history: seq<Matrix>)

  /** What an admission needs: `t` heads its user's backlog and its demands fit the vectors. */
  predicate CanAdmit(s: Sim, t: Task) {
    t.user < |s.allocations| && t.user < |s.queues| && |s.queues[t.user]| > 0 &&
    |s.allocations[t.user]| == |t.demands| == |s.consumed|
  }

  /**
   * `run_task` once the policy has picked `t` off the head of its user's
   * backlog: the demands are charged to `consumed_resources` and to the
   * user's row, a snapshot of the rows is appended to the history, and the
   * task runs until `current_time + duration`, keyed by that time.
   */
  function Admission(s: Sim, t: Task): (s': Sim)
    requires CanAdmit(s, t)
  {
    var u, finish := t.user, s.clock + t.duration;
    var rows := s.allocations[u := Plus(s.allocations[u], t.demands)];
    Sim(Plus(s.consumed, t.demands), rows, s.queues[u := s.queues[u][1..]],
        Add(s.running, t.(finishTime := Some(finish)), finish), s.clock, s.history + [rows])
  }

  /** The fields of an admission's result, one by one. */
  lemma AdmissionFields(s: Sim, t: Task)
    requires CanAdmit(s, t)
    ensures var u, finish, a := t.user, s.clock + t.duration, Admission(s, t);
      a.consumed == Plus(s.consumed, t.demands) &&
      a.allocations == s.allocations[u := Plus(s.allocations[u], t.demands)] &&
      a.queues == s.queues[u := s.queues[u][1..]] &&
      a.running == Add(s.running, t.(finishTime := Some(finish)), finish) &&
      a.clock == s.clock && a.history == s.history + [a.allocations]
  {
  }

  /** What a completion needs: a running task whose demands fit the vectors. */
  predicate CanComplete(s: Sim) {
    PriorityQueues.Valid(s.running) && |s.running.entries| > 0 &&
    var t := s.running.entries[0].item;
    t.user < |s.allocations| && |s.allocations[t.user]| == |t.demands| == |s.consumed|
  }

  /**
   * The body of `_finish_tasks_until` for the running task with the
   * smallest finish time: its demands come back from `consumed_resources`
   * and from its user's row, and it leaves the running queue.
   */
  function Completion(s: Sim): (s': Sim)
    requires CanComplete(s)
  {
    var t := s.running.entries[0].item;
    var u := t.user;
    s.(consumed := Minus(s.consumed, t.demands),
       allocations := s.allocations[u := Minus(s.allocations[u], t.demands)],
       running := Pop(s.running))
  }

  /** `users_queues[task.user].append(task)`. */
  function Arrive(s: Sim, t: Task): (s': Sim)
    requires t.user < |s.queues|
  {
    s.(queues := s.queues[t.user := s.queues[t.user] + [t]])
  }

  /** The running queue is ordered by finish time and holds well-formed tasks stamped with it. */
  predicate Scheduled(s: Sim, numUsers: nat, n: nat) {
    match s
    case Sim(_, _, _, running, _, _) =>
      PriorityQueues.Valid(running) && RunningOk(running.entries, numUsers, n)
  }

  /**
   * The consumed resources are the column sums of the allocation matrix,
   * and each row holds exactly the demands of that user's running tasks.
   */
  predicate Charged(s: Sim, numUsers: nat, n: nat) {
    match s
    case Sim(consumed, allocations, _, running, _, _) =>
      IsMatrix(allocations, numUsers, n) && DemandsSized(running.entries, n) &&
      SumsColumns(consumed, allocations, n) && RowsAreLoads(allocations, running.entries, numUsers, n)
  }

  /**
   * Each backlog holds well-formed tasks of its own user: what arrived for
   * that user, less the prefix already admitted.
   */
  predicate Backlogged(s: Sim, numUsers: nat, n: nat, arrived: seq<seq<Task>>, admitted: seq<seq<Task>>) {
    match s
    case Sim(_, _, queues, _, _, _) =>
      BacklogsOk(queues, numUsers, n) && Fifo(arrived, admitted, queues, numUsers)
  }

  /**
   * The simulator's invariant. `arrived` and `admitted` are bookkeeping:
   * every task appended to each backlog, and every task admitted from it.
   */
  predicate Consistent(s: Sim, numUsers: nat, n: nat, arrived: seq<seq<Task>>, admitted: seq<seq<Task>>) {
    Scheduled(s, numUsers, n) && Charged(s, numUsers, n) && Backlogged(s, numUsers, n, arrived, admitted)
  }

  /** An admission keeps the running queue ordered and its entries well formed. */
  lemma AdmissionScheduled(s: Sim, t: Task, numUsers: nat, n: nat)
    requires CanAdmit(s, t) && WellFormed(t, numUsers, n) && Scheduled(s, numUsers, n)
    ensures Scheduled(Admission(s, t), numUsers, n)
    ensures |Admission(s, t).running.entries| == |s.running.entries| + 1
  {
    var finish := s.clock + t.duration;
    var e := Entry(t.(finishTime := Some(finish)), finish);
    var k := InsertPosition(s.running.entries, finish);
    AdmissionFields(s, t);
    AddEntries(s.running, e.item, finish);
    AddSpec(s.running, e.item, finish);
    RunningOkInsert(s.running.entries, k, e, numUsers, n);
    assert Admission(s, t).running == Add(s.running, e.item, finish);
    assert Admission(s, t).running.entries == s.running.entries[..k] + [e] + s.running.entries[k..];
  }

  /** An admission adds exactly the new task, keyed by its finish time, to the running tasks. */
  lemma AdmissionAddsRunning(s: Sim, t: Task)
    requires CanAdmit(s, t)
    ensures var finish := s.clock + t.duration;
      multiset(Admission(s, t).running.entries) ==
        multiset(s.running.entries) + multiset{Entry(t.(finishTime := Some(finish)), finish)}
  {
    var finish := s.clock + t.duration;
    assert Admission(s, t).running == Add(s.running, t.(finishTime := Some(finish)), finish);
    AddMultiset(s.running, t.(finishTime := Some(finish)), finish);
  }

  /** An admission adds the task's demands to its user's row and to the column sums. */
  lemma AdmissionSums(s: Sim, t: Task, numUsers: nat, n: nat)
    requires CanAdmit(s, t) && WellFormed(t, numUsers, n) && Charged(s, numUsers, n)
    ensures IsMatrix(Admission(s, t).allocations, numUsers, n)
    ensures SumsColumns(Admission(s, t).consumed, Admission(s, t).allocations, n)
  {
    AdmissionFields(s, t);
    SumsColumnsPlusRow(s.consumed, s.allocations, n, t.user, t.demands);
  }

  /** After an admission each row is still the load of that user's running tasks. */
  lemma AdmissionRows(s: Sim, t: Task, numUsers: nat, n: nat)
    requires CanAdmit(s, t) && WellFormed(t, numUsers, n) && Charged(s, numUsers, n)
    ensures IsMatrix(Admission(s, t).allocations, numUsers, n) && DemandsSized(Admission(s, t).running.entries, n)
    ensures RowsAreLoads(Admission(s, t).allocations, Admission(s, t).running.entries, numUsers, n)
  {
    var finish := s.clock + t.duration;
    var e := Entry(t.(finishTime := Some(finish)), finish);
    var k := InsertPosition(s.running.entries, finish);
    AdmissionFields(s, t);
    AddEntries(s.running, e.item, finish);
    AdmissionLoads(s.allocations, s.running.entries, k, e, numUsers, n);
    assert Admission(s, t).running.entries == s.running.entries[..k] + [e] + s.running.entries[k..];
    assert Admission(s, t).allocations == s.allocations[e.item.user := Plus(s.allocations[e.item.user], e.item.demands)];
  }

  /** An admission charges the task's demands to the column sums, to its user's row and to that row's load. */
  lemma AdmissionCharged(s: Sim, t: Task, numUsers: nat, n: nat)
    requires CanAdmit(s, t) && WellFormed(t, numUsers, n) && Charged(s, numUsers, n)
    ensures Charged(Admission(s, t), numUsers, n)
  {
    AdmissionSums(s, t, numUsers, n);
    AdmissionRows(s, t, numUsers, n);
  }

  /** An admission serves the head of its user's backlog, in FIFO order. */
  lemma AdmissionBacklogged(s: Sim, t: Task, numUsers: nat, n: nat, arrived: seq<seq<Task>>, admitted: seq<seq<Task>>)
    requires Backlogged(s, numUsers, n, arrived, admitted)
    requires CanAdmit(s, t) && t.user < numUsers && t == s.queues[t.user][0]
    ensures Backlogged(Admission(s, t), numUsers, n, arrived, admitted[t.user := admitted[t.user] + [t]])
    ensures Count(Admission(s, t).queues) == Count(s.queues) - 1
  {
    AdmissionFields(s, t);
    ServeHead(arrived, admitted, s.queues, t.user, numUsers, n);
    CountTail(s.queues, t.user);
  }

  /**
   * Admitting the head of a backlog keeps the invariant, takes one task
   * out of the backlogs, adds one to the running queue and one snapshot to
   * the history, and leaves the clock alone.
   */
  lemma AdmissionKeeps(s: Sim, t: Task, numUsers: nat, n: nat, arrived: seq<seq<Task>>, admitted: seq<seq<Task>>)
    requires Consistent(s, numUsers, n, arrived, admitted)
    requires t.user < numUsers && |s.queues[t.user]| > 0 && t == s.queues[t.user][0]
    ensures CanAdmit(s, t)
    ensures Consistent(Admission(s, t), numUsers, n, arrived, admitted[t.user := admitted[t.user] + [t]])
    ensures Count(Admission(s, t).queues) == Count(s.queues) - 1
    ensures |Admission(s, t).running.entries| == |s.running.entries| + 1
    ensures |Admission(s, t).history| == |s.history| + 1 && Admission(s, t).clock == s.clock
  {
    assert WellFormed(t, numUsers, n);
    AdmissionFields(s, t);
    AdmissionScheduled(s, t, numUsers, n);
    AdmissionCharged(s, t, numUsers, n);
    AdmissionBacklogged(s, t, numUsers, n, arrived, admitted);
  }

  /** A completion keeps the running queue ordered: it drops the entry with the smallest finish time. */
  lemma CompletionScheduled(s: Sim, numUsers: nat, n: nat)
    requires CanComplete(s) && Scheduled(s, numUsers, n)
    ensures Scheduled(Completion(s), numUsers, n)
    ensures Completion(s).running.entries == s.running.entries[1..]
  {
    var r := s.running.entries;
    var rest := Pop(s.running).entries;
    assert rest == r[1..];
    assert RunningOk(rest, numUsers, n) by {
      forall i | 0 <= i < |rest|
        ensures WellFormed(rest[i].item, numUsers, n) && rest[i].item.finishTime == Some(rest[i].priority)
      {
        assert rest[i] == r[i + 1];
      }
    }
  }

  /**
   * A completion takes the task's demands back from the column sums, from
   * its user's row and from that row's load. The row it releases from holds
   * at least the released demands, so it never goes negative.
   */
  lemma CompletionCharged(s: Sim, numUsers: nat, n: nat)
    requires CanComplete(s) && Scheduled(s, numUsers, n) && Charged(s, numUsers, n)
    ensures var t := s.running.entries[0].item;
      t.user < numUsers && NonNegative(s.allocations[t.user])
    ensures var t := s.running.entries[0].item;
      forall j :: 0 <= j < n ==> t.demands[j] <= s.allocations[t.user][j]
    ensures Charged(Completion(s), numUsers, n)
  {
    var r := s.running.entries;
    var t := r[0].item;
    var u, d := t.user, t.demands;
    forall j | 0 <= j < n
      ensures 0.0 <= s.allocations[u][j] && d[j] <= s.allocations[u][j]
    {
      LoadNonNegative(r, u, n, j);
      LoadNonNegative(r[1..], u, n, j);
      assert s.allocations[u][j] == Share(r[0], u, j) + Load(r[1..], u, n, j);
    }
    SumsColumnsMinusRow(s.consumed, s.allocations, n, u, d);
    CompletionLoads(s.allocations, r, numUsers, n);
  }

  /**
   * Completing the running task with the smallest finish time keeps the
   * invariant, and the user's row it releases from is never negative.
   */
  lemma CompletionKeeps(s: Sim, numUsers: nat, n: nat, arrived: seq<seq<Task>>, admitted: seq<seq<Task>>)
    requires Consistent(s, numUsers, n, arrived, admitted)
    requires |s.running.entries| > 0
    ensures CanComplete(s)
    ensures var t := s.running.entries[0].item;
      t.user < numUsers && NonNegative(s.allocations[t.user])
    ensures Consistent(Completion(s), numUsers, n, arrived, admitted)
    ensures Completion(s).running.entries == s.running.entries[1..]
    ensures Completion(s).queues == s.queues && Completion(s).clock == s.clock && Completion(s).history == s.history
  {
    assert WellFormed(s.running.entries[0].item, numUsers, n);
    CompletionScheduled(s, numUsers, n);
    CompletionCharged(s, numUsers, n);
  }

  /** Appending an arrival to the back of its user's backlog keeps the invariant. */
  lemma ArrivalKeeps(s: Sim, t: Task, numUsers: nat, n: nat, arrived: seq<seq<Task>>, admitted: seq<seq<Task>>)
    requires Consistent(s, numUsers, n, arrived, admitted)
    requires WellFormed(t, numUsers, n)
    ensures Consistent(Arrive(s, t), numUsers, n, arrived[t.user := arrived[t.user] + [t]], admitted)
  {
    AppendArrival(arrived, admitted, s.queues, t, numUsers, n);
  }

  /**
   * A completion undoes its admission: when the admitted task is the next
   * to finish, completing it restores the consumed resources, the rows and
   * the running queue.
   */
  lemma CompletionUndoesAdmission(s: Sim, t: Task)
    requires CanAdmit(s, t) && PriorityQueues.Valid(s.running)
    requires forall i :: 0 <= i < |s.running.entries| ==> s.clock + t.duration < s.running.entries[i].priority
    ensures CanComplete(Admission(s, t))
    ensures var s' := Completion(Admission(s, t));
      s'.consumed == s.consumed && s'.allocations == s.allocations && s'.running == s.running
  {
    var u, d, finish := t.user, t.demands, s.clock + t.duration;
    var k := InsertPosition(s.running.entries, finish);
    assert k == 0;
    var a := Admission(s, t);
    assert a.running.entries == [Entry(t.(finishTime := Some(finish)), finish)] + s.running.entries;
    AddSpec(s.running, t.(finishTime := Some(finish)), finish);
    MinusUndoesPlus(s.consumed, d);
    MinusUndoesPlus(s.allocations[u], d);
    assert a.running.entries[1..] == s.running.entries;
  }

  // ------------------------------------------- the clock during completions

  /**
   * As written, completing a task leaves `current_time` where it was, so a
   * task admitted right after finishes before the one just completed: here
   * a task due at 10 completes at clock 0, and the next one, of duration 1,
   * is due at 1.
   */
  lemma StaleClockAdmitsEarlierFinish()
    ensures var done := Task(0, 10.0, [1.0], 0.0, Some(10.0), 0);
            var next := Task(0, 1.0, [1.0], 0.0, None, 1);
            var s := Sim([1.0], [[1.0]], [[next]], PQueue([Entry(done, 10.0)]), 0.0, []);
            CanComplete(s) && CanAdmit(Completion(s), next) &&
            Admission(Completion(s), next).running.entries[0].priority < s.running.entries[0].priority
  {
    var done := Task(0, 10.0, [1.0], 0.0, Some(10.0), 0);
    var next := Task(0, 1.0, [1.0], 0.0, None, 1);
    var s := Sim([1.0], [[1.0]], [[next]], PQueue([Entry(done, 10.0)]), 0.0, []);
    assert Pop(s.running).entries == [];
    var c := Completion(s);
    assert c.clock == 0.0 && c.running.entries == [];
    assert Admission(c, next).running.entries == [Entry(next.(finishTime := Some(1.0)), 1.0)];
  }

  /** A completion that moves the clock to the finish time of the task it completes. */
  function CompletionAdvancing(s: Sim): (s': Sim)
    requires CanComplete(s)
    ensures s'.clock == s.running.entries[0].priority
  {
    Completion(s).(clock := s.running.entries[0].priority)
  }

  /**
   * With the clock advanced, every task still running or admitted next
   * finishes no earlier than the task just completed.
   */
  lemma AdvancingKeepsFinishOrder(s: Sim, t: Task)
    requires CanComplete(s) && CanAdmit(CompletionAdvancing(s), t) && t.duration >= 0.0
    ensures var head, a := s.running.entries[0].priority, Admission(CompletionAdvancing(s), t);
            forall i :: 0 <= i < |a.running.entries| ==> head <= a.running.entries[i].priority
  {
    var c := CompletionAdvancing(s);
    AdmissionFields(c, t);
    assert c.running == Pop(s.running);
    PopThenAddKeepsFloor(s.running, t.(finishTime := Some(c.clock + t.duration)), c.clock + t.duration);
  }

  /** Popping the head and adding an entry due no earlier leaves nothing due before the old head. */
  lemma PopThenAddKeepsFloor<T>(q: PQueue<T>, x: T, p: real)
    requires PriorityQueues.Valid(q) && |q.entries| > 0 && q.entries[0].priority <= p
    ensures forall e :: e in Add(Pop(q), x, p).entries ==> q.entries[0].priority <= e.priority
  {
    var rest := q.entries[1..];
    assert Pop(q) == PQueue(rest);
    SortedHead(q.entries);
    assert forall e :: e in rest ==> q.entries[0].priority <= e.priority;
    AddMembers(Pop(q), x, p);
  }
}
