/**
 The task queue sets (pfunc/fifo.hpp, lifo.hpp, cilk.hpp, prio.hpp): one queue per index, a cyclic scan that
 starts at the caller's own queue, and a policy that fixes which end of a queue may be taken.

 The four template specialisations differ in the container only, so one class carries the policy.
 */
module TaskQueues {
  import opened Common
  import opened Policies

  datatype Task = Task(id: nat, desc: Descriptor)

  type Queue = seq<Task>

  /** Where `put` stores a task. */
  function Insert<T>(policy: Policy, q: seq<T>, x: T): seq<T> {
    if policy.Cilk? then [x] + q else q + [x]
  }

  /** The index `i` of `q` is the one end the policy looks at; a priority queue shows some maximal task. */
  ghost predicate IsEnd(policy: Policy, lt: (int, int) -> bool, q: Queue, own: bool, i: nat) {
    && i < |q|
    && match policy
       case Fifo => i == 0
       case Lifo => i == |q| - 1
       case Cilk => i == if own then 0 else |q| - 1
       case Prio => forall j :: 0 <= j < |q| ==> !lt(q[i].desc.priority, q[j].desc.priority)
  }

  /** One locked visit to a queue comes away empty-handed. */
  ghost predicate Refuses(policy: Policy, lt: (int, int) -> bool, point: Point, q: Queue, own: bool) {
    q == [] || exists i: nat :: IsEnd(policy, lt, q, own, i) && !Accepts(policy, lt, point, q[i].desc)
  }

  /** One locked visit to a queue takes `x` and leaves `q'`. */
  ghost predicate Yields(
    policy: Policy, lt: (int, int) -> bool, point: Point, q: Queue, own: bool, x: Task, q': Queue) {
    exists i: nat :: IsEnd(policy, lt, q, own, i) && Accepts(policy, lt, point, q[i].desc) && x == q[i] &&
        q' == RemoveAt(q, i)
  }

  /** The queue visited at the `k`-th attempt of a scan that starts at `first`. */
  function Visited(first: nat, k: nat, n: nat): (r: nat)
    requires n > 0
    ensures r < n
  {
    (first + k) % n
  }

  /** Attempt number `k`, and no earlier one, takes `x`. */
  ghost predicate TakenAt(
    policy: Policy, lt: (int, int) -> bool, point: Point, first: nat,
    before: seq<Queue>, k: nat, x: Task, after: seq<Queue>)
    requires |before| > 0
  {
    var i := Visited(first, k, |before|);
    && k < |before|
    && (forall j :: 0 <= j < k ==>
          Refuses(policy, lt, point, before[Visited(first, j, |before|)], Visited(first, j, |before|) == first))
    && |after| == |before|
    && Yields(policy, lt, point, before[i], i == first, x, after[i])
    && after == before[i := after[i]]
  }

  /** The result of an undisturbed scan. */
  ghost predicate Scan(
    policy: Policy, lt: (int, int) -> bool, point: Point, first: nat,
    before: seq<Queue>, result: Option<Task>, after: seq<Queue>)
    requires |before| > 0
  {
    match result
    case Some(x) => exists k :: TakenAt(policy, lt, point, first, before, k, x, after)
    case None =>
      && after == before
      && forall j :: 0 <= j < |before| ==>
           Refuses(policy, lt, point, before[Visited(first, j, |before|)], Visited(first, j, |before|) == first)
  }

  class TaskQueueSet {
    const policy: Policy
    const lt: (int, int) -> bool
    var queues: seq<Queue>

    constructor (policy: Policy, lt: (int, int) -> bool, n: nat)
      ensures this.policy == policy && this.lt == lt
      ensures |queues| == n && forall i :: 0 <= i < n ==> queues[i] == []
    {
      this.policy, this.lt := policy, lt;
      queues := seq(n, _ => []);
    }

    /**
     The set gains exactly `x`; it lies on the side of queue `k` where the newest tasks are, and the rest stays put.
     */
    method Put(k: nat, x: Task)
      requires k < |queues|
      modifies this
      ensures BagOf(queues, QueueBag) == old(BagOf(queues, QueueBag)) + multiset{x}
      ensures |queues| == |old(queues)| && forall i :: 0 <= i < |queues| && i != k ==> queues[i] == old(queues)[i]
      ensures var newest := if policy.Cilk? then 0 else |old(queues)[k]|;
              && |queues[k]| == |old(queues)[k]| + 1
              && queues[k][newest] == x && RemoveAt(queues[k], newest) == old(queues)[k]
    {
      QueueGains(policy, queues, k, x);
      queues := queues[k := Insert(policy, queues[k], x)];
    }

    /** The end of a queue the policy looks at. */
    method End(q: Queue, own: bool) returns (i: nat)
      requires q != []
      requires policy.Prio? ==> StrictWeakOrder(lt)
      ensures IsEnd(policy, lt, q, own, i)
    {
      match policy {
        case Fifo => i := 0;
        case Lifo => i := |q| - 1;
        case Cilk => i := if own then 0 else |q| - 1;
        case Prio =>
          i := 0;
          for j := 1 to |q|
            invariant i < j
            invariant forall k :: 0 <= k < j ==> !lt(q[i].desc.priority, q[k].desc.priority)
          {
            if lt(q[i].desc.priority, q[j].desc.priority) {
              i := j;
            }
          }
      }
    }

    method TestAndGet(k: nat, point: Point, own: bool) returns (r: Option<Task>)
      requires k < |queues|
      requires policy.Prio? ==> StrictWeakOrder(lt)
      modifies this
      ensures |queues| == |old(queues)|
      ensures r == None ==> queues == old(queues) && Refuses(policy, lt, point, queues[k], own)
      ensures r.Some? ==>
                && Yields(policy, lt, point, old(queues)[k], own, r.value, queues[k])
                && queues == old(queues)[k := queues[k]]
    {
      r := None;
      if queues[k] != [] {
        var q := queues[k];
        var i := End(q, own);
        if Accepts(policy, lt, point, q[i].desc) {
          r := Some(q[i]);
          queues := queues[k := RemoveAt(q, i)];
        }
      }
    }

    method Get(first: nat, point: Point) returns (r: Option<Task>)
      requires first < |queues|
      requires policy.Prio? ==> StrictWeakOrder(lt)
      modifies this
      ensures Scan(policy, lt, point, first, old(queues), r, queues)
    {
      var n := |queues|;
      r := None;
      var i, attempts := first, 0;
      while attempts < n
        invariant 0 <= attempts <= n && i == first + attempts
        invariant r == None && queues == old(queues)
        invariant forall j :: 0 <= j < attempts ==>
                    Refuses(policy, lt, point, queues[Visited(first, j, n)], Visited(first, j, n) == first)
      {
        var index := i % n;
        assert index == Visited(first, attempts, n);
        r := TestAndGet(index, point, index == first);
        if r.Some? {
          assert TakenAt(policy, lt, point, first, old(queues), attempts, r.value, queues);
          return;
        }
        i, attempts := i + 1, attempts + 1;
      }
    }
  }

  // ---------------------------------------------------------------- the scan

  /** The attempt at which a scan reaches queue `i`. */
  function AttemptFor(first: nat, i: nat, n: nat): (k: nat)
    requires first < n && i < n
    ensures k < n
  {
    if i >= first then i - first else n + i - first
  }

  lemma WrapOnce(m: nat, n: nat)
    requires 0 < n <= m < 2 * n
    ensures m % n == m - n
  {
    TurnsAreUnique(m / n, m % n, 1, m - n, n);
  }

  /** Division with remainder has one answer. */
  lemma TurnsAreUnique(q: int, r: int, q': int, r': int, n: int)
    requires q * n + r == q' * n + r' && 0 <= r < n && 0 <= r' < n
    ensures r == r'
  {
    if q > q' {
      WholeTurns(q, q', n);
    } else if q < q' {
      WholeTurns(q', q, n);
    }
  }

  lemma {:induction false} WholeTurns(q: int, q': int, n: int)
    requires q > q' && n > 0
    ensures q * n >= q' * n + n
    decreases q - q'
  {
    assert (q - 1) * n == q * n - n;
    if q - 1 > q' {
      WholeTurns(q - 1, q', n);
    }
  }

  lemma VisitedValue(first: nat, k: nat, n: nat)
    requires first < n && k < n
    ensures Visited(first, k, n) == if first + k < n then first + k else first + k - n
  {
    if first + k >= n {
      WrapOnce(first + k, n);
    } else {
      TurnsAreUnique((first + k) / n, (first + k) % n, 0, first + k, n);
    }
  }

  /** A scan starts at its own queue, reaches every queue, and none of them twice. */
  lemma ScanVisitsEachQueueOnce(first: nat, n: nat)
    requires first < n
    ensures Visited(first, 0, n) == first
    ensures forall i {:trigger AttemptFor(first, i, n)} :: 0 <= i < n ==>
              Visited(first, AttemptFor(first, i, n), n) == i
    ensures forall k {:trigger Visited(first, k, n)} :: 0 <= k < n ==> AttemptFor(first, Visited(first, k, n), n) == k
  {
    VisitedValue(first, 0, n);
    forall i {:trigger AttemptFor(first, i, n)} | 0 <= i < n
      ensures Visited(first, AttemptFor(first, i, n), n) == i
    {
      VisitedValue(first, AttemptFor(first, i, n), n);
    }
    forall k {:trigger Visited(first, k, n)} | 0 <= k < n
      ensures AttemptFor(first, Visited(first, k, n), n) == k
    {
      VisitedValue(first, k, n);
    }
  }

  function QueueBag(q: Queue): multiset<Task> {
    multiset(q)
  }

  lemma TakeOut<T>(all: multiset<T>, all': multiset<T>, q: multiset<T>, q': multiset<T>, x: multiset<T>)
    requires all' + q == all + q' && q == q' + x
    ensures all == all' + x
  {
    assert all + q' == (all' + x) + q';
    assert forall e :: (all + q')[e] == all[e] + q'[e];
    assert forall e :: ((all' + x) + q')[e] == (all' + x)[e] + q'[e];
  }

  /** Putting a task adds it to the tasks in all queues. */
  lemma QueueGains(policy: Policy, qs: seq<Queue>, i: nat, x: Task)
    requires i < |qs|
    ensures BagOf(qs[i := Insert(policy, qs[i], x)], QueueBag) == BagOf(qs, QueueBag) + multiset{x}
  {
    var q' := Insert(policy, qs[i], x);
    assert multiset(q') == multiset(qs[i]) + multiset{x};
    BagUpdate(qs, i, q', QueueBag);
    TakeOut(BagOf(qs[i := q'], QueueBag), BagOf(qs, QueueBag), QueueBag(q'), QueueBag(qs[i]), multiset{x});
  }

  /** The task put last is the only one its owner can be shown next. */
  ghost predicate IsNext(policy: Policy, lt: (int, int) -> bool, q: Queue, x: Task) {
    match policy
    case Fifo => q == []
    case Lifo => true
    case Cilk => true
    case Prio => forall j :: 0 <= j < |q| ==> lt(q[j].desc.priority, x.desc.priority)
  }

  lemma OnlyEnd(policy: Policy, lt: (int, int) -> bool, q: Queue, x: Task, e: nat)
    requires IsNext(policy, lt, q, x) && IsEnd(policy, lt, Insert(policy, q, x), true, e)
    ensures Insert(policy, q, x)[e] == x && RemoveAt(Insert(policy, q, x), e) == q
  {
    var r := Insert(policy, q, x);
    if policy.Prio? {
      assert r[|q|] == x && !lt(r[e].desc.priority, r[|q|].desc.priority);
    }
  }

  lemma NextIsNotRefused(policy: Policy, lt: (int, int) -> bool, point: Point, q: Queue, x: Task)
    requires IsNext(policy, lt, q, x) && Accepts(policy, lt, point, x.desc)
    ensures !Refuses(policy, lt, point, Insert(policy, q, x), true)
  {
    var r := Insert(policy, q, x);
    forall e: nat | IsEnd(policy, lt, r, true, e)
      ensures Accepts(policy, lt, point, r[e].desc)
    {
      OnlyEnd(policy, lt, q, x, e);
    }
  }

  /** A scan whose own queue does not refuse ends there. */
  lemma SuccessAtOnce(
    policy: Policy, lt: (int, int) -> bool, point: Point, first: nat, qs: seq<Queue>, result: Option<Task>,
    after: seq<Queue>)
    requires first < |qs| && Scan(policy, lt, point, first, qs, result, after)
    requires !Refuses(policy, lt, point, qs[first], true)
    ensures result.Some? && |after| == |qs| && after == qs[first := after[first]]
    ensures Yields(policy, lt, point, qs[first], true, result.value, after[first])
  {
    VisitedValue(first, 0, |qs|);
    assert !Refuses(policy, lt, point, qs[Visited(first, 0, |qs|)], Visited(first, 0, |qs|) == first);
    var k :| TakenAt(policy, lt, point, first, qs, k, result.value, after);
  }

  /**
   `get` undoes `put`: a task put into the caller's own queue comes straight back, and the queues are as before,
   whenever it is next there (always under cilkS and lifoS, into an empty queue under fifoS, above all others under
   prioS) and the predicate accepts it.
   */
  lemma GetUndoesPut(
    policy: Policy, lt: (int, int) -> bool, point: Point, k: nat, qs: seq<Queue>, x: Task,
    result: Option<Task>, after: seq<Queue>)
    requires k < |qs| && IsNext(policy, lt, qs[k], x) && Accepts(policy, lt, point, x.desc)
    requires Scan(policy, lt, point, k, qs[k := Insert(policy, qs[k], x)], result, after)
    ensures result == Some(x) && after == qs
  {
    var before := qs[k := Insert(policy, qs[k], x)];
    NextIsNotRefused(policy, lt, point, qs[k], x);
    SuccessAtOnce(policy, lt, point, k, before, result, after);
    var e: nat :| IsEnd(policy, lt, before[k], true, e) && result.value == before[k][e] &&
        after[k] == RemoveAt(before[k], e);
    OnlyEnd(policy, lt, qs[k], x, e);
  }

  /** What a successful scan does to the queues. */
  lemma WhatScanTakes(
    policy: Policy, lt: (int, int) -> bool, point: Point, first: nat, before: seq<Queue>, x: Task, after: seq<Queue>)
    returns (i: nat, e: nat)
    requires |before| > 0 && Scan(policy, lt, point, first, before, Some(x), after)
    ensures i < |before| && IsEnd(policy, lt, before[i], i == first, e)
    ensures x == before[i][e] && after == before[i := RemoveAt(before[i], e)]
  {
    var k :| TakenAt(policy, lt, point, first, before, k, x, after);
    i := Visited(first, k, |before|);
    e :| IsEnd(policy, lt, before[i], i == first, e) && x == before[i][e] && after[i] == RemoveAt(before[i], e);
  }

  /** A scan neither loses nor duplicates a task. */
  lemma ScanConserves(
    policy: Policy, lt: (int, int) -> bool, point: Point, first: nat,
    before: seq<Queue>, result: Option<Task>, after: seq<Queue>)
    requires |before| > 0 && Scan(policy, lt, point, first, before, result, after)
    ensures BagOf(before, QueueBag) ==
              BagOf(after, QueueBag) + (if result.Some? then multiset{result.value} else multiset{})
  {
    if result.Some? {
      var i, e := WhatScanTakes(policy, lt, point, first, before, result.value, after);
      RemoveAtBag(before[i], e);
      BagUpdate(before, i, after[i], QueueBag);
      TakeOut(BagOf(before, QueueBag), BagOf(after, QueueBag), QueueBag(before[i]), QueueBag(after[i]),
          multiset{result.value});
    }
  }

  // ---------------------------------------------------------------- completeness of the priority scan

  /** No queued task outranks the waiting one. */
  ghost predicate NothingOutranks(lt: (int, int) -> bool, previous: Descriptor, qs: seq<Queue>) {
    forall i, j :: 0 <= i < |qs| && 0 <= j < |qs[i]| ==> !lt(previous.priority, qs[i][j].desc.priority)
  }

  /** If the top of a priority queue does not outrank the waiting task, nothing in the queue does. */
  lemma TopDecides(lt: (int, int) -> bool, previous: Descriptor, q: Queue, own: bool)
    requires StrictWeakOrder(lt) && Refuses(Prio, lt, Waiting(previous), q, own)
    ensures forall j :: 0 <= j < |q| ==> !lt(previous.priority, q[j].desc.priority)
  {
    if q != [] {
      var i: nat :| IsEnd(Prio, lt, q, own, i) && !Accepts(Prio, lt, Waiting(previous), q[i].desc);
      forall j | 0 <= j < |q|
        ensures !lt(previous.priority, q[j].desc.priority)
      {
        var p, x, y := previous.priority, q[i].desc.priority, q[j].desc.priority;
        assert !lt(x, y) && !lt(p, x);
        assert lt(p, y) ==> lt(p, x) || lt(x, y);
      }
    }
  }

  /**
   At a waiting point the priority scan is complete although it looks at queue tops only, and what it returns is
   maximal in its queue.
   */
  lemma PrioWaitingScanIsComplete(
    lt: (int, int) -> bool, previous: Descriptor, first: nat,
    before: seq<Queue>, result: Option<Task>, after: seq<Queue>)
    requires StrictWeakOrder(lt) && first < |before|
    requires Scan(Prio, lt, Waiting(previous), first, before, result, after)
    ensures result == None <==> NothingOutranks(lt, previous, before)
    ensures result.Some? ==>
              exists i :: && 0 <= i < |before| && result.value in before[i]
                          && forall y :: y in before[i] ==> !lt(result.value.desc.priority, y.desc.priority)
  {
    if result.Some? {
      var k :| TakenAt(Prio, lt, Waiting(previous), first, before, k, result.value, after);
      var i := Visited(first, k, |before|);
      var e: nat :| IsEnd(Prio, lt, before[i], i == first, e) && Accepts(Prio, lt, Waiting(previous), before[i][e].desc)
                    && result.value == before[i][e];
    } else {
      ScanVisitsEachQueueOnce(first, |before|);
      forall i | 0 <= i < |before|
        ensures forall j :: 0 <= j < |before[i]| ==> !lt(previous.priority, before[i][j].desc.priority)
      {
        var k := AttemptFor(first, i, |before|);
        assert Visited(first, k, |before|) == i;
        TopDecides(lt, previous, before[i], i == first);
      }
    }
  }

  /** What a scan returns is deep enough, of another group, or of higher priority, as the point and the policy ask. */
  lemma TakenIsSuitable(
    policy: Policy, lt: (int, int) -> bool, point: Point, first: nat,
    before: seq<Queue>, x: Task, after: seq<Queue>)
    requires first < |before| && Scan(policy, lt, point, first, before, Some(x), after)
    ensures point.Grouped? ==> x.desc.group != point.previous.group
    ensures policy.Cilk? && !point.Regular? ==> point.previous.level <= x.desc.level
    ensures policy.Prio? && !point.Regular? ==> lt(point.previous.priority, x.desc.priority)
  {
    var k :| TakenAt(policy, lt, point, first, before, k, x, after);
    var i := Visited(first, k, |before|);
    var e: nat :| IsEnd(policy, lt, before[i], i == first, e) && Accepts(policy, lt, point, before[i][e].desc)
                  && x == before[i][e];
  }

  /** Nothing about the task stands in the way of running it on top of the previous one. */
  ghost predicate Unhindered(policy: Policy, lt: (int, int) -> bool, point: Point, x: Task) {
    point.Regular? ||
    (&& (point.Grouped? ==> x.desc.group != point.previous.group)
     && (policy.Cilk? ==> point.previous.level <= x.desc.level)
     && (policy.Prio? ==> lt(point.previous.priority, x.desc.priority)))
  }

  /**
   At a waiting point and at a barrier, too, a scan returns NULL exactly if all queues are empty, provided that nothing
   queued is hindered: always at a wait under fifoS and lifoS, without lower levels under cilkS, without tasks of the
   caller's group at a barrier, and with higher priorities only under prioS.
   */
  lemma UnhinderedScanFailsOnlyWhenEmpty(
    policy: Policy, lt: (int, int) -> bool, point: Point, first: nat,
    before: seq<Queue>, result: Option<Task>, after: seq<Queue>)
    requires first < |before| && Scan(policy, lt, point, first, before, result, after)
    requires forall i, j :: 0 <= i < |before| && 0 <= j < |before[i]| ==> Unhindered(policy, lt, point, before[i][j])
    ensures result == None <==> forall i :: 0 <= i < |before| ==> before[i] == []
  {
    ScanVisitsEachQueueOnce(first, |before|);
    if result == None {
      forall i | 0 <= i < |before|
        ensures before[i] == []
      {
        var k := AttemptFor(first, i, |before|);
        assert Visited(first, k, |before|) == i;
        UnhinderedIsNotRefused(policy, lt, point, before[i], i == first);
      }
    } else {
      var k :| TakenAt(policy, lt, point, first, before, k, result.value, after);
      assert before[Visited(first, k, |before|)] != [];
    }
  }

  lemma UnhinderedIsNotRefused(policy: Policy, lt: (int, int) -> bool, point: Point, q: Queue, own: bool)
    requires forall j :: 0 <= j < |q| ==> Unhindered(policy, lt, point, q[j])
    ensures Refuses(policy, lt, point, q, own) ==> q == []
  {
    forall e: nat | IsEnd(policy, lt, q, own, e)
      ensures Accepts(policy, lt, point, q[e].desc)
    {
      assert Unhindered(policy, lt, point, q[e]);
    }
  }

  /** At the main loop every policy is complete: a scan fails only when all queues are empty. */
  lemma RegularScanFailsOnlyWhenEmpty(
    policy: Policy, lt: (int, int) -> bool, first: nat,
    before: seq<Queue>, result: Option<Task>, after: seq<Queue>)
    requires first < |before| && Scan(policy, lt, Regular, first, before, result, after)
    ensures result == None <==> forall i :: 0 <= i < |before| ==> before[i] == []
  {
    ScanVisitsEachQueueOnce(first, |before|);
    if result == None {
      forall i | 0 <= i < |before|
        ensures before[i] == []
      {
        var k := AttemptFor(first, i, |before|);
        assert Visited(first, k, |before|) == i;
        assert Refuses(policy, lt, Regular, before[i], i == first);
      }
    } else {
      var k :| TakenAt(policy, lt, Regular, first, before, k, result.value, after);
      assert before[Visited(first, k, |before|)] != [];
    }
  }

  /** At a barrier the same scan is NOT complete: a top of the caller's own group hides the task below it. */
  lemma GroupScanIsIncomplete()
    ensures var lt := (x: int, y: int) => x < y;
            var previous := Descriptor(0, 0, 7, 2, 0);
            var top, below := Task(1, Descriptor(2, 0, 7, 2, 1)), Task(2, Descriptor(1, 0, 8, 2, 0));
            && StrictWeakOrder(lt)
            && Scan(Prio, lt, Grouped(previous), 0, [[top, below]], None, [[top, below]])
            && lt(previous.priority, below.desc.priority) && previous.group != below.desc.group
  {
    var lt := (x: int, y: int) => x < y;
    var previous := Descriptor(0, 0, 7, 2, 0);
    var q := [Task(1, Descriptor(2, 0, 7, 2, 1)), Task(2, Descriptor(1, 0, 8, 2, 0))];
    assert IsEnd(Prio, lt, q, true, 0);
    assert Refuses(Prio, lt, Grouped(previous), q, true);
  }

  /** Some task of the queue outranks the one at the barrier and is of another group. */
  ghost predicate Fits(lt: (int, int) -> bool, previous: Descriptor, q: Queue) {
    exists j :: 0 <= j < |q| && lt(previous.priority, q[j].desc.priority) && q[j].desc.group != previous.group
  }

  /** In a queue with an acceptable task the top is refused exactly if it belongs to the caller's own group. */
  lemma GroupTopDecides(lt: (int, int) -> bool, previous: Descriptor, q: Queue, own: bool, i: nat)
    requires StrictWeakOrder(lt) && Fits(lt, previous, q) && IsEnd(Prio, lt, q, own, i)
    ensures Accepts(Prio, lt, Grouped(previous), q[i].desc) <==> q[i].desc.group != previous.group
  {
    var j :| 0 <= j < |q| && lt(previous.priority, q[j].desc.priority);
    var p, x, y := previous.priority, q[i].desc.priority, q[j].desc.priority;
    assert lt(p, y) && !lt(x, y);
    assert lt(p, y) ==> lt(p, x) || lt(x, y);
  }

  /** Some maximal task of `q` is of the caller's own group, and hides the others when it is the one shown. */
  ghost predicate Hidden(lt: (int, int) -> bool, previous: Descriptor, q: Queue) {
    exists i: nat :: IsEnd(Prio, lt, q, true, i) && q[i].desc.group == previous.group
  }

  /** All maximal tasks of `q` are of the caller's own group. */
  ghost predicate AlwaysHidden(lt: (int, int) -> bool, previous: Descriptor, q: Queue) {
    forall i: nat :: IsEnd(Prio, lt, q, true, i) ==> q[i].desc.group == previous.group
  }

  /** A priority queue that is not empty has something to show. */
  lemma {:induction false} SomethingIsShown(lt: (int, int) -> bool, q: Queue) returns (i: nat)
    requires StrictWeakOrder(lt) && q != []
    ensures forall own :: IsEnd(Prio, lt, q, own, i)
  {
    var n := |q| - 1;
    if n == 0 {
      i := 0;
    } else {
      i := SomethingIsShown(lt, q[..n]);
      assert IsEnd(Prio, lt, q[..n], true, i);
      var best, last := q[i].desc.priority, q[n].desc.priority;
      assert forall j :: 0 <= j < n ==> q[j] == q[..n][j] && !lt(best, q[j].desc.priority);
      if lt(best, last) {
        assert forall j :: 0 <= j < n && lt(last, q[j].desc.priority) ==> lt(best, q[j].desc.priority);
        i := n;
      }
    }
  }

  /** A visit at a barrier can fail exactly if the queue has nothing acceptable or a top of the caller's group. */
  lemma GroupVisitCanFail(lt: (int, int) -> bool, previous: Descriptor, q: Queue, own: bool)
    requires StrictWeakOrder(lt)
    ensures Refuses(Prio, lt, Grouped(previous), q, own) <==>
            (Fits(lt, previous, q) ==> Hidden(lt, previous, q))
  {
    if Fits(lt, previous, q) {
      if e: nat :| IsEnd(Prio, lt, q, own, e) && !Accepts(Prio, lt, Grouped(previous), q[e].desc) {
        GroupTopDecides(lt, previous, q, own, e);
        assert IsEnd(Prio, lt, q, true, e);
      }
      if e: nat :| IsEnd(Prio, lt, q, true, e) && q[e].desc.group == previous.group {
        assert IsEnd(Prio, lt, q, own, e);
      }
    } else if q != [] {
      var e := SomethingIsShown(lt, q);
      assert IsEnd(Prio, lt, q, own, e);
    }
  }

  /** A visit at a barrier can succeed exactly if something is acceptable and some top is of another group. */
  lemma GroupVisitCanSucceed(lt: (int, int) -> bool, previous: Descriptor, q: Queue, own: bool)
    requires StrictWeakOrder(lt)
    ensures (exists e: nat :: IsEnd(Prio, lt, q, own, e) && Accepts(Prio, lt, Grouped(previous), q[e].desc)) <==>
            (Fits(lt, previous, q) && !AlwaysHidden(lt, previous, q))
  {
    if Fits(lt, previous, q) {
      forall e: nat | IsEnd(Prio, lt, q, own, e)
        ensures Accepts(Prio, lt, Grouped(previous), q[e].desc) <==> q[e].desc.group != previous.group
      {
        GroupTopDecides(lt, previous, q, own, e);
      }
      assert forall e: nat :: IsEnd(Prio, lt, q, own, e) <==> IsEnd(Prio, lt, q, true, e);
    }
  }

  /**
   Exactly when a barrier scan can return NULL: every queue with an acceptable task has a maximal task of the caller's
   own group.  Together with `Fits` this says which tasks it can miss.
   */
  lemma GroupScanCanFailExactly(lt: (int, int) -> bool, previous: Descriptor, first: nat, qs: seq<Queue>)
    requires StrictWeakOrder(lt) && first < |qs|
    ensures Scan(Prio, lt, Grouped(previous), first, qs, None, qs) <==>
            forall i :: 0 <= i < |qs| && Fits(lt, previous, qs[i]) ==> Hidden(lt, previous, qs[i])
  {
    ScanVisitsEachQueueOnce(first, |qs|);
    forall i | 0 <= i < |qs|
      ensures Refuses(Prio, lt, Grouped(previous), qs[i], i == first) <==>
              (Fits(lt, previous, qs[i]) ==> Hidden(lt, previous, qs[i]))
    {
      GroupVisitCanFail(lt, previous, qs[i], i == first);
    }
    if Scan(Prio, lt, Grouped(previous), first, qs, None, qs) {
      forall i | 0 <= i < |qs|
        ensures Refuses(Prio, lt, Grouped(previous), qs[i], i == first)
      {
        assert Visited(first, AttemptFor(first, i, |qs|), |qs|) == i;
      }
    }
  }

  /** Some visit, the first that can, takes something. */
  lemma {:induction false} FirstSuccess(
    lt: (int, int) -> bool, previous: Descriptor, first: nat, qs: seq<Queue>, k: nat)
    returns (x: Task, after: seq<Queue>)
    requires StrictWeakOrder(lt) && first < |qs| && k < |qs|
    requires var i := Visited(first, k, |qs|); Fits(lt, previous, qs[i]) && !AlwaysHidden(lt, previous, qs[i])
    ensures Scan(Prio, lt, Grouped(previous), first, qs, Some(x), after)
  {
    if j :| && 0 <= j < k
            && var i := Visited(first, j, |qs|);
               Fits(lt, previous, qs[i]) && !AlwaysHidden(lt, previous, qs[i]) {
      x, after := FirstSuccess(lt, previous, first, qs, j);
    } else {
      forall j | 0 <= j < k
        ensures var i := Visited(first, j, |qs|); Refuses(Prio, lt, Grouped(previous), qs[i], i == first)
      {
        NothingShown(lt, previous, qs[Visited(first, j, |qs|)], Visited(first, j, |qs|) == first);
      }
      var i := Visited(first, k, |qs|);
      GroupVisitCanSucceed(lt, previous, qs[i], i == first);
      var e: nat :| IsEnd(Prio, lt, qs[i], i == first, e) && Accepts(Prio, lt, Grouped(previous), qs[i][e].desc);
      x, after := qs[i][e], qs[i := RemoveAt(qs[i], e)];
      assert Yields(Prio, lt, Grouped(previous), qs[i], i == first, x, after[i]);
      assert TakenAt(Prio, lt, Grouped(previous), first, qs, k, x, after);
    }
  }

  lemma NothingShown(lt: (int, int) -> bool, previous: Descriptor, q: Queue, own: bool)
    requires StrictWeakOrder(lt) && !(Fits(lt, previous, q) && !AlwaysHidden(lt, previous, q))
    ensures Refuses(Prio, lt, Grouped(previous), q, own)
  {
    GroupVisitCanSucceed(lt, previous, q, own);
    if q != [] {
      var e := SomethingIsShown(lt, q);
      assert IsEnd(Prio, lt, q, own, e);
    }
  }

  /** Every scan of these queues at this barrier returns NULL. */
  ghost predicate ScanMustFail(lt: (int, int) -> bool, previous: Descriptor, first: nat, qs: seq<Queue>)
    requires |qs| > 0
  {
    forall result, after :: Scan(Prio, lt, Grouped(previous), first, qs, result, after) ==> result == None
  }

  /**
   Exactly when a barrier scan must return NULL, however ties are broken: in every queue with an acceptable task all
   maximal tasks are of the caller's own group.
   */
  lemma GroupScanMustFailExactly(lt: (int, int) -> bool, previous: Descriptor, first: nat, qs: seq<Queue>)
    requires StrictWeakOrder(lt) && first < |qs|
    ensures ScanMustFail(lt, previous, first, qs) <==>
            forall i :: 0 <= i < |qs| && Fits(lt, previous, qs[i]) ==> AlwaysHidden(lt, previous, qs[i])
  {
    if i :| 0 <= i < |qs| && Fits(lt, previous, qs[i]) && !AlwaysHidden(lt, previous, qs[i]) {
      ScanVisitsEachQueueOnce(first, |qs|);
      assert Visited(first, AttemptFor(first, i, |qs|), |qs|) == i;
      var x, after := FirstSuccess(lt, previous, first, qs, AttemptFor(first, i, |qs|));
      assert Scan(Prio, lt, Grouped(previous), first, qs, Some(x), after);
    } else {
      forall i | 0 <= i < |qs|
        ensures forall e: nat :: IsEnd(Prio, lt, qs[i], i == first, e) ==>
                  !Accepts(Prio, lt, Grouped(previous), qs[i][e].desc)
      {
        GroupVisitCanSucceed(lt, previous, qs[i], i == first);
      }
    }
  }

  // ---------------------------------------------------------------- order over a history

  /** A call on the queue set: the tasks put in are told apart by the time of the call. */
  datatype Call = PutCall(queue: nat, desc: Descriptor) | GetCall(first: nat, point: Point, result: Option<Task>)

  ghost predicate Happens(
    policy: Policy, lt: (int, int) -> bool, before: seq<Queue>, now: nat, call: Call, after: seq<Queue>)
  {
    match call
    case PutCall(k, desc) => k < |before| && after == before[k := Insert(policy, before[k], Task(now, desc))]
    case GetCall(first, point, result) => first < |before| && Scan(policy, lt, point, first, before, result, after)
  }

  /** The queue sets a history of calls goes through, from empty queues on. */
  ghost predicate History(policy: Policy, lt: (int, int) -> bool, calls: seq<Call>, states: seq<seq<Queue>>) {
    && |states| == |calls| + 1
    && (forall i :: 0 <= i < |states[0]| ==> states[0][i] == [])
    && forall t {:trigger calls[t]} :: 0 <= t < |calls| ==> Happens(policy, lt, states[t], t, calls[t], states[t + 1])
  }

  /** Newest first in the deques of cilkS, oldest first elsewhere, and nothing from the future. */
  ghost predicate InOrder(policy: Policy, q: Queue, now: nat) {
    && (forall i :: 0 <= i < |q| ==> q[i].id < now)
    && forall i, j :: 0 <= i < j < |q| ==> if policy.Cilk? then q[i].id > q[j].id else q[i].id < q[j].id
  }

  ghost predicate AllInOrder(policy: Policy, qs: seq<Queue>, now: nat) {
    forall i :: 0 <= i < |qs| ==> InOrder(policy, qs[i], now)
  }

  lemma InsertKeepsOrder(policy: Policy, q: Queue, now: nat, desc: Descriptor)
    requires InOrder(policy, q, now)
    ensures InOrder(policy, Insert(policy, q, Task(now, desc)), now + 1)
  {
    var r := Insert(policy, q, Task(now, desc));
    if policy.Cilk? {
      assert forall k :: 0 < k < |r| ==> r[k] == q[k - 1];
    } else {
      assert forall k :: 0 <= k < |q| ==> r[k] == q[k];
    }
  }

  lemma RemoveKeepsOrder(policy: Policy, q: Queue, now: nat, i: nat)
    requires InOrder(policy, q, now) && i < |q|
    ensures InOrder(policy, RemoveAt(q, i), now)
  {
    var r := RemoveAt(q, i);
    assert forall k :: 0 <= k < |r| ==> r[k] == q[if k < i then k else k + 1];
  }

  lemma TimePasses(policy: Policy, q: Queue, now: nat)
    requires InOrder(policy, q, now)
    ensures InOrder(policy, q, now + 1)
  {
  }

  lemma ReplaceKeepsOrder(policy: Policy, before: seq<Queue>, now: nat, k: nat, q: Queue)
    requires AllInOrder(policy, before, now) && k < |before| && InOrder(policy, q, now + 1)
    ensures AllInOrder(policy, before[k := q], now + 1)
  {
    var after := before[k := q];
    forall i | 0 <= i < |after|
      ensures InOrder(policy, after[i], now + 1)
    {
      if i != k {
        TimePasses(policy, before[i], now);
      }
    }
  }

  lemma CallKeepsOrder(
    policy: Policy, lt: (int, int) -> bool, before: seq<Queue>, now: nat, call: Call, after: seq<Queue>)
    requires AllInOrder(policy, before, now) && Happens(policy, lt, before, now, call, after)
    ensures AllInOrder(policy, after, now + 1)
  {
    match call
    case PutCall(k, desc) =>
      InsertKeepsOrder(policy, before[k], now, desc);
      ReplaceKeepsOrder(policy, before, now, k, Insert(policy, before[k], Task(now, desc)));
    case GetCall(first, point, None) =>
      TimePasses(policy, before[first], now);
      ReplaceKeepsOrder(policy, before, now, first, before[first]);
      assert before[first := before[first]] == before;
    case GetCall(first, point, Some(x)) =>
      var i, e := WhatScanTakes(policy, lt, point, first, before, x, after);
      RemoveKeepsOrder(policy, before[i], now, e);
      TimePasses(policy, RemoveAt(before[i], e), now);
      ReplaceKeepsOrder(policy, before, now, i, RemoveAt(before[i], e));
  }

  lemma {:induction false} HistoryIsOrdered(
    policy: Policy, lt: (int, int) -> bool, calls: seq<Call>, states: seq<seq<Queue>>, t: nat)
    requires History(policy, lt, calls, states) && t <= |calls|
    ensures AllInOrder(policy, states[t], t)
  {
    if t > 0 {
      HistoryIsOrdered(policy, lt, calls, states, t - 1);
      CallKeepsOrder(policy, lt, states[t - 1], t - 1, calls[t - 1], states[t]);
    }
  }

  ghost predicate Newest(x: Task, q: Queue) {
    x in q && forall y :: y in q ==> y.id <= x.id
  }

  ghost predicate Oldest(x: Task, q: Queue) {
    x in q && forall y :: y in q ==> x.id <= y.id
  }

  /**
   Over any history of puts and scans, with any predicates: a cilkS scan that succeeds at its own queue takes the newest
   task left there and one that succeeds elsewhere the oldest; fifoS takes the oldest of the chosen queue and lifoS the
   newest.
   */
  lemma TakesInOrder(
    policy: Policy, lt: (int, int) -> bool, calls: seq<Call>, states: seq<seq<Queue>>, t: nat) returns (i: nat)
    requires History(policy, lt, calls, states) && t < |calls| && calls[t].GetCall? && calls[t].result.Some?
    ensures i < |states[t]| && calls[t].result.value in states[t][i]
    ensures forall j :: 0 <= j < |states[t]| && j != i ==> |states[t + 1]| > j && states[t + 1][j] == states[t][j]
    ensures policy.Lifo? || (policy.Cilk? && i == calls[t].first) ==> Newest(calls[t].result.value, states[t][i])
    ensures policy.Fifo? || (policy.Cilk? && i != calls[t].first) ==> Oldest(calls[t].result.value, states[t][i])
  {
    HistoryIsOrdered(policy, lt, calls, states, t);
    var before := states[t];
    var e;
    i, e := WhatScanTakes(policy, lt, calls[t].point, calls[t].first, before, calls[t].result.value, states[t + 1]);
    assert InOrder(policy, before[i], t);
  }
}
