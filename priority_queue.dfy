/**
 * The keyed min-queue the simulator and the 3M-DRF policy use
 * (`helpers.priority_queue.PriorityQueue`). Its implementation is not part of
 * this model; its operation set follows the C++ interface in
 * sdrf/helpers/c_live_tree/priority_queue.h (add, pop, get_min, remove by
 * name, empty, element_is_in). The queue is a value: its entries in the order
 * `pop` would return them. Equal priorities leave in insertion order; that
 * tie-break is an assumption of this model.
 */
module PriorityQueues {
  import opened Wrappers

  datatype Entry<T> = Entry(item: T, priority: real)

  datatype PQueue<T> = PQueue(entries: seq<Entry<T>>)

  /**
   * The priority of entry `i`. Order is stated on this term alone, so that
   * the ordering facts are used only where a proof names a position.
   */
  function PriorityAt<T>(s: seq<Entry<T>>, i: nat): real
    requires i < |s|
  {
    s[i].priority
  }

  predicate Sorted<T>(s: seq<Entry<T>>) {
    forall i, j :: 0 <= i < j < |s| ==> PriorityAt(s, i) <= PriorityAt(s, j)
  }

  /** The queue's entries are in priority order. */
  predicate Valid<T>(q: PQueue<T>) {
    match q
    case PQueue(entries) => Sorted(entries)
  }

  function Empty<T>(): (q: PQueue<T>)
    ensures Valid(q) && IsEmpty(q)
  {
    PQueue([])
  }

  predicate IsEmpty<T>(q: PQueue<T>) {
    q.entries == []
  }

  /**
   * Where an entry with priority `p` goes: after every entry whose priority is
   * at most `p`, before the first one whose priority exceeds it.
   */
  function InsertPosition<T>(s: seq<Entry<T>>, p: real): (k: nat)
    ensures k <= |s|
    ensures forall i :: 0 <= i < k ==> s[i].priority <= p
    ensures k < |s| ==> p < s[k].priority
  {
    if s == [] || p < s[0].priority then 0
    else 1 + InsertPosition(s[1..], p)
  }

  /** `add(item, priority)`. */
  function Add<T>(q: PQueue<T>, x: T, p: real): (r: PQueue<T>)
  {
    var k := InsertPosition(q.entries, p);
    PQueue(q.entries[..k] + [Entry(x, p)] + q.entries[k..])
  }

  /** `Add` splices the new entry in at its insertion position. */
  lemma AddEntries<T>(q: PQueue<T>, x: T, p: real)
    ensures var k := InsertPosition(q.entries, p);
      Add(q, x, p).entries == q.entries[..k] + [Entry(x, p)] + q.entries[k..]
  {
  }

  /** Where `s[..k] + [e] + s[k..]` takes each of its entries from. */
  lemma InsertIndex<T>(s: seq<Entry<T>>, k: nat, e: Entry<T>)
    requires k <= |s|
    ensures |s[..k] + [e] + s[k..]| == |s| + 1
    ensures forall i :: 0 <= i < |s| + 1 ==>
      (s[..k] + [e] + s[k..])[i] == if i < k then s[i] else if i == k then e else s[i - 1]
  {
  }

  /** Inserting between the entries at most its priority and those above it keeps a sequence sorted. */
  lemma InsertKeepsSorted<T>(s: seq<Entry<T>>, k: nat, e: Entry<T>)
    requires Sorted(s) && k <= |s|
    requires forall i :: 0 <= i < k ==> s[i].priority <= e.priority
    requires k < |s| ==> e.priority < s[k].priority
    ensures Sorted(s[..k] + [e] + s[k..])
  {
    var r := s[..k] + [e] + s[k..];
    InsertIndex(s, k, e);
    forall i, j | 0 <= i < j < |r|
      ensures PriorityAt(r, i) <= PriorityAt(r, j)
    {
      if j > k + 1 {
        assert PriorityAt(s, k) <= PriorityAt(s, j - 1);
      }
      if i < j - 1 && j > k && i != k {
        assert PriorityAt(s, if i < k then i else i - 1) <= PriorityAt(s, j - 1);
      }
      if i < k && j < k {
        assert PriorityAt(s, i) <= PriorityAt(s, j);
      }
    }
  }

  /** Adding keeps the queue ordered, and adds exactly the one entry. */
  lemma AddSpec<T>(q: PQueue<T>, x: T, p: real)
    requires Valid(q)
    ensures Valid(Add(q, x, p))
    ensures |Add(q, x, p).entries| == |q.entries| + 1
    ensures multiset(Add(q, x, p).entries) == multiset(q.entries) + multiset{Entry(x, p)}
  {
    var s, k := q.entries, InsertPosition(q.entries, p);
    AddEntries(q, x, p);
    InsertKeepsSorted(s, k, Entry(x, p));
    AddMultiset(q, x, p);
  }

  /** Adding puts exactly one entry more into the queue. */
  lemma AddMultiset<T>(q: PQueue<T>, x: T, p: real)
    ensures multiset(Add(q, x, p).entries) == multiset(q.entries) + multiset{Entry(x, p)}
  {
    var s, k := q.entries, InsertPosition(q.entries, p);
    AddEntries(q, x, p);
    calc {
      multiset(Add(q, x, p).entries);
      multiset(s[..k]) + multiset{Entry(x, p)} + multiset(s[k..]);
      { assert s == s[..k] + s[k..]; }
      multiset(s) + multiset{Entry(x, p)};
    }
  }

  /** Taking out one entry keeps a sequence sorted. */
  lemma DeleteKeepsSorted<T>(s: seq<Entry<T>>, k: nat)
    requires Sorted(s) && k < |s|
    ensures Sorted(s[..k] + s[k + 1..])
  {
    var r := s[..k] + s[k + 1..];
    assert forall i :: 0 <= i < |r| ==> r[i] == if i < k then s[i] else s[i + 1];
    forall i, j | 0 <= i < j < |r|
      ensures PriorityAt(r, i) <= PriorityAt(r, j)
    {
      assert PriorityAt(s, if i < k then i else i + 1) <= PriorityAt(s, if j < k then j else j + 1);
    }
  }

  /** Taking out entry `k` takes exactly that entry out. */
  lemma DeleteCounts<T>(s: seq<Entry<T>>, k: nat)
    requires k < |s|
    ensures |s[..k] + s[k + 1..]| == |s| - 1
    ensures multiset(s[..k] + s[k + 1..]) + multiset{s[k]} == multiset(s)
  {
    assert s == s[..k] + [s[k]] + s[k + 1..];
  }

  /** The first entry of a sorted sequence has the smallest priority. */
  lemma SortedHead<T>(s: seq<Entry<T>>)
    requires Sorted(s) && |s| > 0
    ensures forall i :: 0 <= i < |s| ==> s[0].priority <= s[i].priority
  {
    forall i | 0 < i < |s|
      ensures s[0].priority <= s[i].priority
    {
      assert PriorityAt(s, 0) <= PriorityAt(s, i);
    }
  }

  /** `get_min()`: the entry with the smallest priority, or None when empty. */
  function GetMin<T>(q: PQueue<T>): (m: Option<Entry<T>>)
    requires Valid(q)
    ensures m.None? <==> IsEmpty(q)
    ensures m.Some? ==> forall i :: 0 <= i < |q.entries| ==> m.value.priority <= q.entries[i].priority
    ensures m.Some? ==> exists i :: 0 <= i < |q.entries| && q.entries[i] == m.value
  {
    if q.entries == [] then None
    else
      SortedHead(q.entries);
      Some(q.entries[0])
  }

  /** `pop()`: the queue without the entry `get_min` returns. */
  function Pop<T>(q: PQueue<T>): (r: PQueue<T>)
    requires Valid(q)
    ensures Valid(r)
    ensures GetMin(q).None? ==> r == q
    ensures GetMin(q).Some? ==> multiset(r.entries) + multiset{GetMin(q).value} == multiset(q.entries)
  {
    if q.entries == [] then q
    else
      assert q.entries == [q.entries[0]] + q.entries[1..];
      DeleteKeepsSorted(q.entries, 0);
      assert q.entries[..0] + q.entries[1..] == q.entries[1..];
      PQueue(q.entries[1..])
  }

  /** `element_is_in(name)`. */
  predicate Contains<T(==)>(q: PQueue<T>, x: T) {
    exists i :: 0 <= i < |q.entries| && q.entries[i].item == x
  }

  /** Index of the first entry holding `x`, or the length when none does. */
  function FirstIndexOf<T(==)>(s: seq<Entry<T>>, x: T): (k: nat)
    ensures k <= |s|
    ensures forall i :: 0 <= i < k ==> s[i].item != x
    ensures k < |s| ==> s[k].item == x
  {
    if s == [] || s[0].item == x then 0 else 1 + FirstIndexOf(s[1..], x)
  }

  /**
   * `remove(name)`: drops the earliest entry holding `x`; removing an absent
   * item leaves the queue as it is.
   */
  function Remove<T(==)>(q: PQueue<T>, x: T): (r: PQueue<T>)
    requires Valid(q)
    ensures Valid(r)
    ensures !Contains(q, x) ==> r == q
    ensures Contains(q, x) ==> |r.entries| == |q.entries| - 1
    ensures Contains(q, x) ==> exists p :: multiset(r.entries) + multiset{Entry(x, p)} == multiset(q.entries)
  {
    var s := q.entries;
    var k := FirstIndexOf(s, x);
    if k == |s| then q
    else
      DeleteCounts(s, k);
      DeleteKeepsSorted(s, k);
      assert s[k] == Entry(x, s[k].priority);
      PQueue(s[..k] + s[k + 1..])
  }

  /** The entries of `Add(q, x, p)` are the new one and those of `q`, and no others. */
  lemma AddMembers<T>(q: PQueue<T>, x: T, p: real)
    ensures forall e :: e in Add(q, x, p).entries <==> e == Entry(x, p) || e in q.entries
  {
    var s, k := q.entries, InsertPosition(q.entries, p);
    assert Add(q, x, p).entries == s[..k] + [Entry(x, p)] + s[k..];
    assert s == s[..k] + s[k..];
  }

  /**
   * A queue built from a priority per index, `PriorityQueue(priorities)`:
   * item `i` with priority `ps[i]`, added in index order.
   */
  function FromPriorities(ps: seq<real>): (q: PQueue<nat>)
    ensures Valid(q)
    ensures |q.entries| == |ps|
  {
    if ps == [] then Empty()
    else
      var n := |ps| - 1;
      var q0 := FromPriorities(ps[..n]);
      AddSpec(q0, n, ps[n]);
      Add(q0, n, ps[n])
  }

  /** Every entry of the seeded queue is an index carrying its own priority. */
  lemma {:induction false} FromPrioritiesEntries(ps: seq<real>)
    ensures forall e :: e in FromPriorities(ps).entries ==> e.item < |ps| && e.priority == ps[e.item]
  {
    if ps != [] {
      var n := |ps| - 1;
      var init := ps[..n];
      FromPrioritiesEntries(init);
      AddMembers(FromPriorities(init), n, ps[n]);
      forall e | e in FromPriorities(ps).entries
        ensures e.item < |ps| && e.priority == ps[e.item]
      {
        if e != Entry(n, ps[n]) {
          assert init[e.item] == ps[e.item];
        }
      }
    }
  }

  /** The seeded queue holds every index. */
  lemma {:induction false} FromPrioritiesComplete(ps: seq<real>)
    ensures forall u :: 0 <= u < |ps| ==> Contains(FromPriorities(ps), u)
  {
    if ps != [] {
      var n := |ps| - 1;
      var q0 := FromPriorities(ps[..n]);
      var r := FromPriorities(ps).entries;
      FromPrioritiesComplete(ps[..n]);
      AddMembers(q0, n, ps[n]);
      forall u | 0 <= u < |ps|
        ensures Contains(FromPriorities(ps), u)
      {
        var e := Entry(n, ps[n]);
        if u < n {
          assert Contains(q0, u);
          var j :| 0 <= j < |q0.entries| && q0.entries[j].item == u;
          e := q0.entries[j];
          assert e in q0.entries;
        }
        assert e in r && e.item == u;
        var i :| 0 <= i < |r| && r[i] == e;
      }
    }
  }

  /** The seeded queue holds every index exactly with its own priority. */
  lemma FromPrioritiesHolds(ps: seq<real>)
    ensures forall i :: 0 <= i < |FromPriorities(ps).entries| ==>
      FromPriorities(ps).entries[i].item < |ps| && FromPriorities(ps).entries[i].priority == ps[FromPriorities(ps).entries[i].item]
    ensures forall u :: 0 <= u < |ps| ==> Contains(FromPriorities(ps), u)
  {
    FromPrioritiesEntries(ps);
    FromPrioritiesComplete(ps);
    var r := FromPriorities(ps).entries;
    forall i | 0 <= i < |r|
      ensures r[i].item < |ps| && r[i].priority == ps[r[i].item]
    {
      assert r[i] in r;
    }
  }
}
