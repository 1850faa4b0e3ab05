/**
 * The bookkeeping behind the simulator's invariant: what the running tasks
 * hold per user, the per-user backlogs, and how an admission, a completion
 * or an arrival changes each of them.
 */
module Ledger {
  import opened Wrappers
  import opened Vectors
  import opened PriorityQueues
  import opened Tasks
  import opened MmmDrf

  // ------------------------------------------------- what running tasks hold

  predicate DemandsSized(s: seq<Entry<Task>>, n: nat) {
    forall i :: 0 <= i < |s| ==> |s[i].item.demands| == n
  }

  /** What one running task holds of resource `r` in user `u`'s row. */
  function Share(e: Entry<Task>, u: nat, r: nat): real
    requires r < |e.item.demands|
  {
    if e.item.user == u then e.item.demands[r] else 0.0
  }

  /** How much of resource `r` the tasks of user `u` among the running entries `s` hold. */
  function Load(s: seq<Entry<Task>>, u: nat, n: nat, r: nat): real
    requires DemandsSized(s, n) && r < n
  {
    if s == [] then 0.0 else Share(s[0], u, r) + Load(s[1..], u, n, r)
  }

  lemma {:induction false} LoadAppend(a: seq<Entry<Task>>, b: seq<Entry<Task>>, u: nat, n: nat, r: nat)
    requires DemandsSized(a, n) && DemandsSized(b, n) && r < n
    ensures DemandsSized(a + b, n)
    ensures Load(a + b, u, n, r) == Load(a, u, n, r) + Load(b, u, n, r)
  {
    if a == [] {
      assert a + b == b;
    } else {
      assert (a + b)[1..] == a[1..] + b;
      LoadAppend(a[1..], b, u, n, r);
    }
  }

  /** Inserting a running task anywhere adds exactly its share to its user's load. */
  lemma LoadInsert(s: seq<Entry<Task>>, k: nat, e: Entry<Task>, u: nat, n: nat, r: nat)
    requires DemandsSized(s, n) && |e.item.demands| == n && k <= |s| && r < n
    ensures DemandsSized(s[..k] + [e] + s[k..], n)
    ensures Load(s[..k] + [e] + s[k..], u, n, r) == Load(s, u, n, r) + Share(e, u, r)
  {
    var left, right := s[..k], s[k..];
    assert DemandsSized(left, n) && DemandsSized(right, n) && DemandsSized([e], n);
    assert [e][1..] == [];
    LoadAppend(left, [e], u, n, r);
    LoadAppend(left + [e], right, u, n, r);
    assert s == left + right;
    LoadAppend(left, right, u, n, r);
  }

  /** Non-negative demands make a non-negative load. */
  lemma {:induction false} LoadNonNegative(s: seq<Entry<Task>>, u: nat, n: nat, r: nat)
    requires DemandsSized(s, n) && r < n
    requires forall i :: 0 <= i < |s| ==> NonNegative(s[i].item.demands)
    ensures 0.0 <= Load(s, u, n, r)
  {
    if s != [] {
      LoadNonNegative(s[1..], u, n, r);
    }
  }

  /** The number of tasks waiting in all backlogs. */
  function Count(queues: seq<seq<Task>>): nat
  {
    if queues == [] then 0 else |queues[0]| + Count(queues[1..])
  }

  lemma {:induction false} CountTail(queues: seq<seq<Task>>, u: nat)
    requires u < |queues| && |queues[u]| > 0
    ensures Count(queues[u := queues[u][1..]]) == Count(queues) - 1
  {
    var q': seq<seq<Task>> := queues[u := queues[u][1..]];
    if u == 0 {
      assert q'[1..] == queues[1..];
    } else {
      assert q'[1..] == queues[1..][u - 1 := queues[1..][u - 1][1..]];
      CountTail(queues[1..], u - 1);
    }
  }

  // ------------------------------------------- pieces of the class invariant

  /** Every running entry is a well-formed task stamped with its own priority as finish time. */
  predicate RunningOk(s: seq<Entry<Task>>, numUsers: nat, n: nat) {
    forall i :: 0 <= i < |s| ==>
      WellFormed(s[i].item, numUsers, n) && s[i].item.finishTime == Some(s[i].priority)
  }

  /** Backlog `u` holds only well-formed tasks of user `u`. */
  predicate BacklogsOk(queues: seq<seq<Task>>, numUsers: nat, n: nat) {
    |queues| == numUsers && QueuesOwned(queues) &&
    forall u, j :: 0 <= u < numUsers && 0 <= j < |queues[u]| ==> WellFormed(queues[u][j], numUsers, n)
  }

  /** Each allocation row is the load of that user's running tasks. */
  predicate RowsAreLoads(allocations: Matrix, s: seq<Entry<Task>>, numUsers: nat, n: nat)
    requires IsMatrix(allocations, numUsers, n) && DemandsSized(s, n)
  {
    forall u, r :: 0 <= u < numUsers && 0 <= r < n ==> allocations[u][r] == Load(s, u, n, r)
  }

  /** FIFO bookkeeping: a backlog is what arrived for the user, less an admitted prefix. */
  predicate Fifo(arrived: seq<seq<Task>>, admitted: seq<seq<Task>>, queues: seq<seq<Task>>, numUsers: nat) {
    |arrived| == numUsers && |admitted| == numUsers && |queues| == numUsers &&
    forall u :: 0 <= u < numUsers ==> arrived[u] == admitted[u] + queues[u]
  }

  lemma RunningOkSized(s: seq<Entry<Task>>, numUsers: nat, n: nat)
    requires RunningOk(s, numUsers, n)
    ensures DemandsSized(s, n)
  {
  }

  /** Admitting a task keeps the running entries well formed. */
  lemma RunningOkInsert(s: seq<Entry<Task>>, k: nat, e: Entry<Task>, numUsers: nat, n: nat)
    requires RunningOk(s, numUsers, n) && k <= |s|
    requires WellFormed(e.item, numUsers, n) && e.item.finishTime == Some(e.priority)
    ensures RunningOk(s[..k] + [e] + s[k..], numUsers, n)
  {
    InsertIndex(s, k, e);
  }

  /** Admitting `e` adds its demands to its user's row and to no other. */
  lemma AdmissionLoads(allocations: Matrix, s: seq<Entry<Task>>, k: nat, e: Entry<Task>, numUsers: nat, n: nat)
    requires IsMatrix(allocations, numUsers, n) && DemandsSized(s, n) && k <= |s|
    requires |e.item.demands| == n && e.item.user < numUsers
    requires RowsAreLoads(allocations, s, numUsers, n)
    ensures DemandsSized(s[..k] + [e] + s[k..], n)
    ensures IsMatrix(allocations[e.item.user := Plus(allocations[e.item.user], e.item.demands)], numUsers, n)
    ensures RowsAreLoads(allocations[e.item.user := Plus(allocations[e.item.user], e.item.demands)],
                         s[..k] + [e] + s[k..], numUsers, n)
  {
    var u := e.item.user;
    var a' := allocations[u := Plus(allocations[u], e.item.demands)];
    var s' := s[..k] + [e] + s[k..];
    InsertIndex(s, k, e);
    forall v, r | 0 <= v < numUsers && 0 <= r < n
      ensures a'[v][r] == Load(s', v, n, r)
    {
      LoadInsert(s, k, e, v, n, r);
    }
  }

  /** Completing the earliest running task takes its demands back from its user's row only. */
  lemma CompletionLoads(allocations: Matrix, s: seq<Entry<Task>>, numUsers: nat, n: nat)
    requires IsMatrix(allocations, numUsers, n) && DemandsSized(s, n) && |s| > 0
    requires s[0].item.user < numUsers
    requires RowsAreLoads(allocations, s, numUsers, n)
    ensures DemandsSized(s[1..], n)
    ensures IsMatrix(allocations[s[0].item.user := Minus(allocations[s[0].item.user], s[0].item.demands)], numUsers, n)
    ensures RowsAreLoads(allocations[s[0].item.user := Minus(allocations[s[0].item.user], s[0].item.demands)],
                         s[1..], numUsers, n)
  {
    var u, d := s[0].item.user, s[0].item.demands;
    var a' := allocations[u := Minus(allocations[u], d)];
    forall v, r | 0 <= v < numUsers && 0 <= r < n
      ensures a'[v][r] == Load(s[1..], v, n, r)
    {
      assert Load(s, v, n, r) == Share(s[0], v, r) + Load(s[1..], v, n, r);
    }
  }

  /** Serving a backlog head keeps the backlogs well formed and the FIFO bookkeeping exact. */
  lemma ServeHead(arrived: seq<seq<Task>>, admitted: seq<seq<Task>>, queues: seq<seq<Task>>, u: nat, numUsers: nat, n: nat)
    requires BacklogsOk(queues, numUsers, n) && Fifo(arrived, admitted, queues, numUsers)
    requires u < numUsers && |queues[u]| > 0
    ensures BacklogsOk(queues[u := queues[u][1..]], numUsers, n)
    ensures Fifo(arrived, admitted[u := admitted[u] + [queues[u][0]]], queues[u := queues[u][1..]], numUsers)
  {
    var q': seq<seq<Task>> := queues[u := queues[u][1..]];
    assert queues[u] == [queues[u][0]] + queues[u][1..];
    forall v, j | 0 <= v < numUsers && 0 <= j < |q'[v]|
      ensures q'[v][j].user == v && WellFormed(q'[v][j], numUsers, n)
    {
      if v == u { assert q'[v][j] == queues[u][j + 1]; }
    }
  }

  /** Appending an arrival to the back of its user's backlog. */
  lemma AppendArrival(arrived: seq<seq<Task>>, admitted: seq<seq<Task>>, queues: seq<seq<Task>>, t: Task, numUsers: nat, n: nat)
    requires BacklogsOk(queues, numUsers, n) && Fifo(arrived, admitted, queues, numUsers)
    requires WellFormed(t, numUsers, n)
    ensures BacklogsOk(queues[t.user := queues[t.user] + [t]], numUsers, n)
    ensures Fifo(arrived[t.user := arrived[t.user] + [t]], admitted, queues[t.user := queues[t.user] + [t]], numUsers)
  {
    var u := t.user;
    var q': seq<seq<Task>> := queues[u := queues[u] + [t]];
    forall v, j | 0 <= v < numUsers && 0 <= j < |q'[v]|
      ensures q'[v][j].user == v && WellFormed(q'[v][j], numUsers, n)
    {
      if v == u && j < |queues[u]| { assert q'[v][j] == queues[u][j]; }
    }
  }
}
