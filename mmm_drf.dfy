/**
 * The 3M-DRF allocation policy (class MMMDRF in
 * mmmalloc/allocators/arrival/mmm_drf.py): Dominant Resource Fairness
 * extended with resources each user owns and a per-user, per-resource
 * credibility. Users are ranked in two queues: by how much of their own
 * resources they use (only while that is below all of it), and by their
 * dominant share net of owned resources and credibility.
 */
module MmmDrf {
  import opened Wrappers
  import opened Vectors
  import opened PriorityQueues
  import opened Tasks

  // ---------------------------------------------------------------- keys

  /** `a / b` per resource, for divisors that are all positive. */
  function Quotients(a: Vector, b: Vector): (q: Vector)
    requires |a| == |b| && Positive(b)
    ensures |q| == |a| && forall r :: 0 <= r < |a| ==> q[r] == a[r] / b[r]
  {
    seq(|a|, r requires 0 <= r < |a| => a[r] / b[r])
  }

  /**
   * `res_left = max(allocations[user] / user_resources[user])`. When the user
   * owns none of some resource, numpy's quotient there is +inf or NaN (the
   * allocation is never negative), and the maximum never compares below 1;
   * that case is None.
   */
  function ResourceKey(alloc: Vector, owned: Vector): (k: Option<real>)
    requires |alloc| == |owned| > 0
    requires NonNegative(alloc) && NonNegative(owned)
    ensures k.Some? <==> Positive(owned)
    ensures k.Some? ==> 0.0 <= k.value
    ensures k.Some? ==> (forall r :: 0 <= r < |alloc| ==> alloc[r] / owned[r] <= k.value) &&
                        exists r :: 0 <= r < |alloc| && alloc[r] / owned[r] == k.value
  {
    if Positive(owned) then
      var k := Max(Quotients(alloc, owned));
      assert Quotients(alloc, owned)[0] >= 0.0;
      Some(k)
    else None
  }

  /** The resource-bound key is below 1 exactly when the user holds less than it owns of every resource. */
  lemma ResourceKeyBelowOne(alloc: Vector, owned: Vector)
    requires |alloc| == |owned| > 0
    requires NonNegative(alloc) && NonNegative(owned)
    ensures (ResourceKey(alloc, owned).Some? && ResourceKey(alloc, owned).value < 1.0)
            <==> forall r :: 0 <= r < |alloc| ==> alloc[r] < owned[r]
  {
    if Positive(owned) {
      var q := Quotients(alloc, owned);
      forall r | 0 <= r < |alloc|
        ensures q[r] < 1.0 <==> alloc[r] < owned[r]
      {
        QuotientBelowOne(alloc[r], owned[r]);
      }
    } else {
      var r :| 0 <= r < |owned| && !(0.0 < owned[r]);
      assert !(alloc[r] < owned[r]);
    }
  }

  lemma QuotientBelowOne(x: real, c: real)
    requires 0.0 < c
    ensures x / c < 1.0 <==> x < c
  {
    assert x / c * c == x;
  }

  lemma QuotientAtMostZero(x: real, c: real)
    requires 0.0 < c
    ensures x / c <= 0.0 <==> x <= 0.0
  {
    assert x / c * c == x;
  }

  /**
   * The credibility-queue key: `max((allocations[user] - user_resources[user]
   * - credibilities[user]) / capacities)`.
   */
  function CredibilityKey(alloc: Vector, owned: Vector, cred: Vector, capacities: Vector): (k: real)
    requires |alloc| == |owned| == |cred| == |capacities| > 0
    requires Positive(capacities)
    ensures forall r :: 0 <= r < |alloc| ==> (alloc[r] - owned[r] - cred[r]) / capacities[r] <= k
    ensures exists r :: 0 <= r < |alloc| && (alloc[r] - owned[r] - cred[r]) / capacities[r] == k
  {
    var q := Quotients(Minus(Minus(alloc, owned), cred), capacities);
    var k := Max(q);
    var r :| 0 <= r < |q| && q[r] == k;
    k
  }

  /** DRF's dominant share: `max(allocations[user] / capacities)`. */
  function DominantShare(alloc: Vector, capacities: Vector): real
    requires |alloc| == |capacities| > 0
    requires Positive(capacities)
  {
    Max(Quotients(alloc, capacities))
  }

  /** The credibility key is at most 0 exactly when no resource is held beyond what is owned plus credibility. */
  lemma CredibilityKeyNonPositive(alloc: Vector, owned: Vector, cred: Vector, capacities: Vector)
    requires |alloc| == |owned| == |cred| == |capacities| > 0
    requires Positive(capacities)
    ensures CredibilityKey(alloc, owned, cred, capacities) <= 0.0
            <==> forall r :: 0 <= r < |alloc| ==> alloc[r] <= owned[r] + cred[r]
  {
    var q := Quotients(Minus(Minus(alloc, owned), cred), capacities);
    forall r | 0 <= r < |alloc|
      ensures q[r] <= 0.0 <==> alloc[r] <= owned[r] + cred[r]
    {
      QuotientAtMostZero(alloc[r] - owned[r] - cred[r], capacities[r]);
    }
  }

  /** With nothing owned and no credibility, the credibility key is DRF's dominant share. */
  lemma DrfReduction(alloc: Vector, owned: Vector, cred: Vector, capacities: Vector)
    requires |alloc| == |owned| == |cred| == |capacities| > 0
    requires Positive(capacities)
    requires forall r :: 0 <= r < |owned| ==> owned[r] == 0.0 && cred[r] == 0.0
    ensures CredibilityKey(alloc, owned, cred, capacities) == DominantShare(alloc, capacities)
  {
    MaxExtensional(Quotients(Minus(Minus(alloc, owned), cred), capacities), Quotients(alloc, capacities));
  }

  /**
   * The closing note of mmm_drf.py expects this key to rank users exactly as
   * DRF does when all users own the same resources and have no credibility.
   * It does not: with capacities [1, 1], both users owning [1, 0], user A
   * holding [1, 0] and user B holding [0, 0.5], the key ranks A first and
   * DRF ranks B first.
   */
  lemma EqualOwnedRowsRankUnlikeDrf()
    ensures var capacities, owned, cred := [1.0, 1.0], [1.0, 0.0], [0.0, 0.0];
            var a, b := [1.0, 0.0], [0.0, 0.5];
            CredibilityKey(a, owned, cred, capacities) < CredibilityKey(b, owned, cred, capacities) &&
            DominantShare(b, capacities) < DominantShare(a, capacities)
  {
    CounterexampleKeys();
    CounterexampleShares();
  }

  /** The credibility keys of the counterexample: 0 for `[1, 0]`, 0.5 for `[0, 0.5]`. */
  lemma CounterexampleKeys()
    ensures CredibilityKey([1.0, 0.0], [1.0, 0.0], [0.0, 0.0], [1.0, 1.0]) == 0.0
    ensures CredibilityKey([0.0, 0.5], [1.0, 0.0], [0.0, 0.0], [1.0, 1.0]) == 0.5
  {
    assert Quotients(Minus(Minus([1.0, 0.0], [1.0, 0.0]), [0.0, 0.0]), [1.0, 1.0]) == [0.0, 0.0];
    assert Quotients(Minus(Minus([0.0, 0.5], [1.0, 0.0]), [0.0, 0.0]), [1.0, 1.0]) == [-1.0, 0.5];
  }

  /** DRF's dominant shares of the counterexample: 1 for `[1, 0]`, 0.5 for `[0, 0.5]`. */
  lemma CounterexampleShares()
    ensures DominantShare([1.0, 0.0], [1.0, 1.0]) == 1.0
    ensures DominantShare([0.0, 0.5], [1.0, 1.0]) == 0.5
  {
    assert Quotients([1.0, 0.0], [1.0, 1.0]) == [1.0, 0.0];
    assert Quotients([0.0, 0.5], [1.0, 1.0]) == [0.0, 0.5];
  }

  // ------------------------------------------------- user_fulfills_request

  /**
   * `user_fulfills_request` as written: `allocations[task.user] + task.demands`
   * is compared with the whole `user_resources` matrix, which numpy
   * broadcasts, so the sum must fit within EVERY user's owned row. It is
   * never weaker than the intended check, and agrees with it when every
   * user owns the same resources.
   */
  predicate FitsOwnedAsWritten(allocations: Matrix, owned: Matrix, t: Task): (b: bool)
    ensures b && t.user < |owned| ==> FitsOwned(allocations, owned, t)
    ensures t.user < |owned| && (forall v :: 0 <= v < |owned| ==> owned[v] == owned[t.user]) ==>
              (b <==> FitsOwned(allocations, owned, t))
  {
    var u, d := t.user, t.demands;
    u < |allocations| && |allocations[u]| == |d| &&
    (forall v :: 0 <= v < |owned| ==> |owned[v]| == |d|) &&
    forall v, r :: 0 <= v < |owned| && 0 <= r < |d| ==> allocations[u][r] + d[r] <= owned[v][r]
  }

  /** The evidently intended check: the sum fits within the task's own user's owned row. */
  predicate FitsOwned(allocations: Matrix, owned: Matrix, t: Task) {
    var u, d := t.user, t.demands;
    u < |allocations| && u < |owned| && |allocations[u]| == |d| == |owned[u]| &&
    forall r :: 0 <= r < |d| ==> allocations[u][r] + d[r] <= owned[u][r]
  }

  /** Whether a task fits depends on its own user's owned row only: changing another user's row changes nothing. */
  lemma FitsOwnedIgnoresOtherUsers(allocations: Matrix, owned: Matrix, t: Task, v: nat, row: Vector)
    requires v < |owned| && v != t.user
    ensures FitsOwned(allocations, owned[v := row], t) <==> FitsOwned(allocations, owned, t)
  {
  }

  /**
   * A request the intended check admits and the broadcast refuses: user 0
   * owns 10 units, user 1 owns 1, and user 0 asks for 5.
   */
  lemma BroadcastRefusesOwnedRequest()
    ensures var allocations, owned := [[0.0], [0.0]], [[10.0], [1.0]];
            var t := Task(0, 1.0, [5.0], 0.0, None, 0);
            FitsOwned(allocations, owned, t) && !FitsOwnedAsWritten(allocations, owned, t)
  {
    var owned := [[10.0], [1.0]];
    var t := Task(0, 1.0, [5.0], 0.0, None, 0);
    assert !(0.0 + t.demands[0] <= owned[1][0]);
  }

  // -------------------------------------------------- picking from a queue

  /**
   * The optional predicate `_pick_from_queue` applies to a user's next task:
   * none, `user_fulfills_request` as written (`Broadcast`), or the check it
   * evidently intends (`WithinOwned`).
   */
  datatype Filter = Unfiltered | Broadcast(allocations: Matrix, owned: Matrix) | WithinOwned(allocations: Matrix, owned: Matrix)

  predicate Passes(f: Filter, t: Task) {
    match f
    case Unfiltered => true
    case Broadcast(allocations, owned) => FitsOwnedAsWritten(allocations, owned, t)
    case WithinOwned(allocations, owned) => FitsOwned(allocations, owned, t)
  }

  /** A ranked user can be served: it has a backlog and its next task passes the filter. */
  predicate Eligible(e: Entry<nat>, queues: seq<seq<Task>>, f: Filter) {
    e.item < |queues| && |queues[e.item]| > 0 && Passes(f, queues[e.item][0])
  }

  /** Rank of the first eligible user, or the queue length when none is. */
  function FirstEligible(s: seq<Entry<nat>>, queues: seq<seq<Task>>, f: Filter): (k: nat)
    ensures k <= |s|
    ensures forall j :: 0 <= j < k ==> !Eligible(s[j], queues, f)
    ensures k < |s| ==> Eligible(s[k], queues, f)
  {
    if s == [] || Eligible(s[0], queues, f) then 0
    else 1 + FirstEligible(s[1..], queues, f)
  }

  /** A ranking queue of users `0 .. numUsers - 1`. */
  predicate WellRanked(q: PQueue<nat>, numUsers: nat) {
    PriorityQueues.Valid(q) && forall i :: 0 <= i < |q.entries| ==> q.entries[i].item < numUsers
  }

  /** Removing one entry keeps a ranking queue ordered. */
  lemma RemoveAtRanked(q: PQueue<nat>, k: nat, numUsers: nat)
    requires WellRanked(q, numUsers) && k < |q.entries|
    ensures WellRanked(PQueue(q.entries[..k] + q.entries[k + 1..]), numUsers)
  {
    var s, r := q.entries, q.entries[..k] + q.entries[k + 1..];
    assert forall i :: 0 <= i < |r| ==> r[i] == (if i < k then s[i] else s[i + 1]);
    DeleteKeepsSorted(s, k);
  }

  datatype Selection = Selection(task: Option<Task>, queue: PQueue<nat>, queues: seq<seq<Task>>)

  /**
   * `_pick_from_queue(queue, predicate)`, whose code is not part of this
   * model: the first user in rank order whose next task passes the filter is
   * served, that user leaves the ranking, and the task leaves the user's
   * backlog. With no such user nothing changes.
   */
  function PickFromQueue(q: PQueue<nat>, queues: seq<seq<Task>>, f: Filter): (sel: Selection)
    requires WellRanked(q, |queues|)
    ensures WellRanked(sel.queue, |queues|)
    ensures sel.task.None? <==> forall i :: 0 <= i < |q.entries| ==> !Eligible(q.entries[i], queues, f)
    ensures sel.task.None? ==> sel.queue == q && sel.queues == queues
    ensures sel.task.Some? ==>
      var k := FirstEligible(q.entries, queues, f);
      var u := q.entries[k].item;
      k < |q.entries| && Passes(f, sel.task.value) &&
      sel.task.value == queues[u][0] && sel.queues == queues[u := queues[u][1..]] &&
      |sel.queue.entries| == |q.entries| - 1 &&
      multiset(sel.queue.entries) + multiset{q.entries[k]} == multiset(q.entries)
  {
    var k := FirstEligible(q.entries, queues, f);
    if k == |q.entries| then Selection(None, q, queues)
    else
      var u := q.entries[k].item;
      RemoveAtRanked(q, k, |queues|);
      DeleteCounts(q.entries, k);
      Selection(Some(queues[u][0]), PQueue(q.entries[..k] + q.entries[k + 1..]), queues[u := queues[u][1..]])
  }

  /**
   * Wherever the check as written lets a ranking serve a task, the intended
   * check serves one too: it refuses nothing the broadcast admits.
   */
  lemma IntendedServesWhenBroadcastDoes(q: PQueue<nat>, queues: seq<seq<Task>>, allocations: Matrix, owned: Matrix)
    requires WellRanked(q, |queues|) && QueuesOwned(queues) && |owned| == |queues|
    requires PickFromQueue(q, queues, Broadcast(allocations, owned)).task.Some?
    ensures PickFromQueue(q, queues, WithinOwned(allocations, owned)).task.Some?
  {
    var i :| 0 <= i < |q.entries| && Eligible(q.entries[i], queues, Broadcast(allocations, owned));
    var u := q.entries[i].item;
    assert queues[u][0].user == u;
    assert Eligible(q.entries[i], queues, WithinOwned(allocations, owned));
  }

  /** Every task in user `u`'s backlog belongs to `u`. */
  predicate QueuesOwned(queues: seq<seq<Task>>) {
    forall u, j :: 0 <= u < |queues| && 0 <= j < |queues[u]| ==> queues[u][j].user == u
  }

  /** `_insert_user_resources_heap` on a queue value: add the user only while its key is below 1. */
  function InsertResources(q: PQueue<nat>, user: nat, alloc: Vector, owned: Vector): PQueue<nat>
    requires |alloc| == |owned| > 0
    requires NonNegative(alloc) && NonNegative(owned)
  {
    match ResourceKey(alloc, owned)
    case Some(k) => if k < 1.0 then Add(q, user, k) else q
    case None => q
  }

  /**
   * The user joins the resource-bound ranking exactly when it holds less
   * than it owns of every resource; otherwise the ranking is untouched.
   */
  lemma InsertResourcesJoins(q: PQueue<nat>, user: nat, alloc: Vector, owned: Vector, numUsers: nat)
    requires |alloc| == |owned| > 0
    requires NonNegative(alloc) && NonNegative(owned)
    requires WellRanked(q, numUsers) && user < numUsers
    ensures WellRanked(InsertResources(q, user, alloc, owned), numUsers)
    ensures (forall r :: 0 <= r < |alloc| ==> alloc[r] < owned[r]) ==>
              |InsertResources(q, user, alloc, owned).entries| == |q.entries| + 1 &&
              Contains(InsertResources(q, user, alloc, owned), user)
    ensures !(forall r :: 0 <= r < |alloc| ==> alloc[r] < owned[r]) ==> InsertResources(q, user, alloc, owned) == q
  {
    ResourceKeyBelowOne(alloc, owned);
    var key := ResourceKey(alloc, owned);
    if key.Some? && key.value < 1.0 {
      AddInto(q, user, key.value, numUsers);
    }
  }

  /** Adding a user keeps a ranking queue well ranked and makes it hold the user. */
  lemma AddInto(q: PQueue<nat>, user: nat, p: real, numUsers: nat)
    requires WellRanked(q, numUsers) && user < numUsers
    ensures WellRanked(Add(q, user, p), numUsers)
    ensures |Add(q, user, p).entries| == |q.entries| + 1
    ensures Contains(Add(q, user, p), user)
  {
    AddSpec(q, user, p);
    AddMembers(q, user, p);
    var r := Add(q, user, p).entries;
    forall i | 0 <= i < |r| ensures r[i].item < numUsers {
      assert r[i] in r;
      if r[i] != Entry(user, p) {
        var j :| 0 <= j < |q.entries| && r[i] == q.entries[j];
      }
    }
    assert Entry(user, p) in r;
    var i :| 0 <= i < |r| && r[i] == Entry(user, p);
    assert r[i].item == user;
  }

  /** `np.max(credibilities, axis=1)`: each user's largest credibility. */
  function RowMaxes(m: Matrix, cols: nat): (s: Vector)
    requires cols > 0 && IsMatrix(m, |m|, cols)
    ensures |s| == |m| && forall u :: 0 <= u < |m| ==> forall r :: 0 <= r < cols ==> m[u][r] <= s[u]
    ensures forall u :: 0 <= u < |m| ==> Attains(m[u], s[u])
  {
    RowMaxAttained(m, cols);
    seq(|m|, u requires 0 <= u < |m| => Max(m[u]))
  }

  /** Each row's maximum is one of the row's entries. */
  lemma {:induction false} RowMaxAttained(m: Matrix, cols: nat)
    requires cols > 0 && IsMatrix(m, |m|, cols)
    ensures forall u :: 0 <= u < |m| ==> Attains(m[u], Max(m[u]))
  {
    forall u | 0 <= u < |m|
      ensures Attains(m[u], Max(m[u]))
    {
      var top := Max(m[u]);
      var r :| 0 <= r < |m[u]| && m[u][r] == top;
    }
  }

  // ------------------------------------------------------------ the policy

  class MMMDRF {
    const capacities: Vector
    const numUsers: nat
    const numResources: nat
    /** `user_resources`: row `u` is what user `u` owns of each resource. */
    const userResources: Matrix
    /** `delta`, the damping factor reserved for the credibility update. */
    const delta: real
    var credibilities: Matrix
    /** `user_resources_queue`, keyed by `res_left`. */
    var resourcesQueue: PQueue<nat>
    /** `user_credibilities_queue`, keyed by the credibility key. */
    var credibilitiesQueue: PQueue<nat>

    ghost predicate Valid()
      reads this
    {
      numResources == |capacities| > 0 && Positive(capacities) &&
      IsMatrix(userResources, numUsers, numResources) &&
      (forall u :: 0 <= u < numUsers ==> NonNegative(userResources[u])) &&
      IsMatrix(credibilities, numUsers, numResources) &&
      WellRanked(resourcesQueue, numUsers) && WellRanked(credibilitiesQueue, numUsers)
    }

    /**
     * `MMMDRF(capacities, users_resources, initial_credibilities, delta)`,
     * with the owned resources already in user-index order.
     */
    constructor (capacities: Vector, userResources: Matrix, initialCredibilities: Option<Matrix>, delta: real)
      requires |capacities| > 0 && Positive(capacities)
      requires IsMatrix(userResources, |userResources|, |capacities|)
      requires forall u :: 0 <= u < |userResources| ==> NonNegative(userResources[u])
      requires initialCredibilities.Some? ==> IsMatrix(initialCredibilities.value, |userResources|, |capacities|)
      ensures Valid()
      ensures this.capacities == capacities && numResources == |capacities|
      ensures this.userResources == userResources && numUsers == |userResources| && this.delta == delta
      ensures credibilities == if initialCredibilities.None? then ZeroMatrix(numUsers, numResources)
                               else initialCredibilities.value
      ensures resourcesQueue == FromPriorities(Zeros(numUsers))
      ensures credibilitiesQueue == FromPriorities(RowMaxes(credibilities, numResources))
    {
      this.capacities := capacities;
      numResources := |capacities|;
      numUsers := |userResources|;
      this.userResources := userResources;
      this.delta := delta;
      var zeros := Zeros(|userResources|);
      FromPrioritiesHolds(zeros);
      resourcesQueue := FromPriorities(zeros);
      var cred := if initialCredibilities.None? then ZeroMatrix(|userResources|, |capacities|)
                  else initialCredibilities.value;
      credibilities := cred;
      var maxes := RowMaxes(cred, |capacities|);
      FromPrioritiesHolds(maxes);
      credibilitiesQueue := FromPriorities(maxes);
    }

    /** `_insert_user_resources_heap(user)`. */
    method InsertUserResourcesHeap(user: nat, allocations: Matrix)
      requires Valid() && user < numUsers && IsMatrix(allocations, numUsers, numResources)
      requires NonNegative(allocations[user])
      modifies this
      ensures Valid()
      ensures resourcesQueue == InsertResources(old(resourcesQueue), user, allocations[user], userResources[user])
      ensures credibilitiesQueue == old(credibilitiesQueue) && credibilities == old(credibilities)
    {
      InsertResourcesJoins(resourcesQueue, user, allocations[user], userResources[user], numUsers);
      var key := ResourceKey(allocations[user], userResources[user]);
      if key.Some? && key.value < 1.0 {
        resourcesQueue := Add(resourcesQueue, user, key.value);
      }
    }

    /** `_insert_user_cred_heap(user)`: always adds the user with its credibility key. */
    method InsertUserCredHeap(user: nat, allocations: Matrix)
      requires Valid() && user < numUsers && IsMatrix(allocations, numUsers, numResources)
      modifies this
      ensures Valid()
      ensures credibilitiesQueue == Add(old(credibilitiesQueue), user,
        CredibilityKey(allocations[user], userResources[user], credibilities[user], capacities))
      ensures resourcesQueue == old(resourcesQueue) && credibilities == old(credibilities)
    {
      var key := CredibilityKey(allocations[user], userResources[user], credibilities[user], capacities);
      AddInto(credibilitiesQueue, user, key, numUsers);
      credibilitiesQueue := Add(credibilitiesQueue, user, key);
    }

    /** `_insert_user(user)`: into the resource-bound queue, then into the credibility queue. */
    method InsertUser(user: nat, allocations: Matrix)
      requires Valid() && user < numUsers && IsMatrix(allocations, numUsers, numResources)
      requires NonNegative(allocations[user])
      modifies this
      ensures Valid() && credibilities == old(credibilities)
      ensures resourcesQueue == InsertResources(old(resourcesQueue), user, allocations[user], userResources[user])
      ensures credibilitiesQueue == Add(old(credibilitiesQueue), user,
        CredibilityKey(allocations[user], userResources[user], credibilities[user], capacities))
    {
      InsertUserResourcesHeap(user, allocations);
      InsertUserCredHeap(user, allocations);
    }

    /** No user can be served from either ranking: the admission drain's fixpoint. */
    ghost predicate NothingToPick(allocations: Matrix, queues: seq<seq<Task>>)
      reads this
    {
      (forall i :: 0 <= i < |resourcesQueue.entries| ==>
         !Eligible(resourcesQueue.entries[i], queues, Broadcast(allocations, userResources))) &&
      (forall i :: 0 <= i < |credibilitiesQueue.entries| ==>
         !Eligible(credibilitiesQueue.entries[i], queues, Unfiltered))
    }

    /** The task `pick_task()` hands out for these allocations and backlogs. */
    ghost function Choice(allocations: Matrix, queues: seq<seq<Task>>): (c: Option<Task>)
      requires Valid() && |queues| == numUsers
      reads this
      ensures c.None? <==> NothingToPick(allocations, queues)
      ensures c.Some? && QueuesOwned(queues) ==>
        var u := c.value.user;
        u < |queues| && |queues[u]| > 0 && c.value == queues[u][0]
    {
      var r := PickFromQueue(resourcesQueue, queues, Broadcast(allocations, userResources));
      if r.task.Some? then r.task else PickFromQueue(credibilitiesQueue, queues, Unfiltered).task
    }

    /**
     * `pick_task()`: the resource-bound ranking first, restricted to tasks
     * that pass `user_fulfills_request` as written (the broadcast check); the
     * credibility ranking only when that yields nothing. The picked task
     * leaves the head of its user's backlog.
     */
    method PickTask(allocations: Matrix, queues: seq<seq<Task>>) returns (picked: Option<Task>, queues': seq<seq<Task>>)
      requires Valid() && |queues| == numUsers && QueuesOwned(queues)
      modifies this
      ensures Valid() && credibilities == old(credibilities)
      ensures var r := PickFromQueue(old(resourcesQueue), queues, Broadcast(allocations, userResources));
              r.task.Some? ==> picked == r.task && queues' == r.queues &&
                               resourcesQueue == r.queue && credibilitiesQueue == old(credibilitiesQueue)
      ensures var r := PickFromQueue(old(resourcesQueue), queues, Broadcast(allocations, userResources));
              var c := PickFromQueue(old(credibilitiesQueue), queues, Unfiltered);
              r.task.None? ==> picked == c.task && queues' == c.queues &&
                               resourcesQueue == old(resourcesQueue) && credibilitiesQueue == c.queue
      ensures picked == old(Choice(allocations, queues))
      ensures picked.None? <==> old(NothingToPick(allocations, queues))
      ensures picked.None? ==> queues' == queues && NothingToPick(allocations, queues)
      ensures picked.Some? ==>
        var u := picked.value.user;
        u < |queues| && |queues[u]| > 0 && picked.value == queues[u][0] && queues' == queues[u := queues[u][1..]]
    {
      var r := PickFromQueue(resourcesQueue, queues, Broadcast(allocations, userResources));
      if r.task.Some? {
        resourcesQueue := r.queue;
        picked, queues' := r.task, r.queues;
      } else {
        var c := PickFromQueue(credibilitiesQueue, queues, Unfiltered);
        credibilitiesQueue := c.queue;
        picked, queues' := c.task, c.queues;
      }
    }

    /**
     * The rankings are `rq` and `cq` with `user` re-entered, keyed by the
     * allocation `alloc`: what `_insert_user` leaves behind.
     */
    ghost predicate Reranked(rq: PQueue<nat>, cq: PQueue<nat>, user: nat, alloc: Vector)
      requires Valid() && user < numUsers && |alloc| == numResources && NonNegative(alloc)
      reads this
    {
      resourcesQueue == InsertResources(rq, user, alloc, userResources[user]) &&
      credibilitiesQueue == Add(cq, user, CredibilityKey(alloc, userResources[user], credibilities[user], capacities))
    }

    /**
     * `finish_task(task)`: the user re-enters both rankings, keyed by the
     * allocations it is given; credibilities are left as they are.
     */
    method FinishTask(task: Task, allocations: Matrix)
      requires Valid() && task.user < numUsers && IsMatrix(allocations, numUsers, numResources)
      requires NonNegative(allocations[task.user])
      modifies this
      ensures Valid() && credibilities == old(credibilities)
      ensures resourcesQueue == InsertResources(old(resourcesQueue), task.user, allocations[task.user], userResources[task.user])
      ensures credibilitiesQueue == Add(old(credibilitiesQueue), task.user,
        CredibilityKey(allocations[task.user], userResources[task.user], credibilities[task.user], capacities))
    {
      InsertUser(task.user, allocations);
    }
  }
}
