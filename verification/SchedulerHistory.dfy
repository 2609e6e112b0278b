/**
 What the task manager does over time (pfunc/taskmgr.hpp): where spawned tasks go and in which order they lie there,
 what an undisturbed search amounts to, and how waits and workers come to an end.
 */
module SchedulerHistory {
  import opened Common
  import opened Policies
  import opened TaskQueues
  import opened Scheduler

  // ---------------------------------------------------------------- which queue

  /** An activation of `spawn_task` that is about to put `x` into queue `q`. */
  ghost predicate AboutToPut(s: State, x: Task, q: nat) {
    exists t, i :: 0 <= t < |s.threads| && 0 <= i < |s.threads[t].stack| && s.threads[t].stack[i].kind == Spawn(x, q)
  }

  ghost predicate SpawnedInto(acts: seq<Action>, x: Task, q: nat) {
    exists k :: 0 <= k < |acts| && acts[k].CallSpawn? && acts[k].task == x && acts[k].queue == q
  }

  lemma PutComesFromSpawn(c: Config, s: State, a: Action, x: Task, q: nat)
    requires Enabled(c, s, a) && AboutToPut(Do(c, s, a), x, q)
    ensures AboutToPut(s, x, q) || (a.CallSpawn? && a.task == x && a.queue == q)
  {
    var s' := Do(c, s, a);
    var t, i :| 0 <= t < |s'.threads| && 0 <= i < |s'.threads[t].stack| && s'.threads[t].stack[i].kind == Spawn(x, q);
    if t != a.t {
      assert s'.threads[t] == s.threads[t];
    } else {
      KindComesFromBelow(c, s, a, i);
    }
  }

  /** Only calls bring new activations; everything else keeps the kinds that are there. */
  lemma KindComesFromBelow(c: Config, s: State, a: Action, i: nat)
    requires Enabled(c, s, a) && i < |Move(c, s, a).stack|
    ensures (i < |s.threads[a.t].stack| && s.threads[a.t].stack[i].kind == Move(c, s, a).stack[i].kind)
            || a.CallSpawn? || a.CallWait? || a.CallBlock? || a.CallBarrier?
    ensures a.CallSpawn? && i >= |s.threads[a.t].stack| ==> Move(c, s, a).stack[i].kind == Spawn(a.task, a.queue)
    ensures (a.CallWait? || a.CallBlock? || a.CallBarrier?) && i >= |s.threads[a.t].stack| ==>
              !Move(c, s, a).stack[i].kind.Spawn?
    ensures i < |s.threads[a.t].stack| ==> s.threads[a.t].stack[i].kind == Move(c, s, a).stack[i].kind
  {
  }

  lemma EntryComesFromPut(c: Config, s: State, a: Action, x: Task, q: nat)
    requires Enabled(c, s, a) && q < |Do(c, s, a).queues| && x in Do(c, s, a).queues[q]
    ensures |Do(c, s, a).queues| == |s.queues| && (x in s.queues[q] || AboutToPut(s, x, q))
  {
    match a {
      case Put(t) =>
        var th := s.threads[t];
        assert th.stack[|th.stack| - 1].kind == Top(th).kind;
      case Take(t, index) =>
        var i := VisitedQueue(c, s, t);
        RemoveAtBag(s.queues[i], index);
        assert x in multiset(RemoveAt(s.queues[i], index)) ==> x in multiset(s.queues[i]);
      case _ =>
    }
  }

  lemma {:induction false} EntriesWereSpawned(c: Config, s: State, acts: seq<Action>, x: Task, q: nat)
    requires Possible(c, s, acts) && q < |After(c, s, acts).queues|
    requires x in After(c, s, acts).queues[q] || AboutToPut(After(c, s, acts), x, q)
    ensures |After(c, s, acts).queues| == |s.queues|
    ensures x in s.queues[q] || AboutToPut(s, x, q) || SpawnedInto(acts, x, q)
    decreases |acts|
  {
    if acts != [] {
      var s1, rest := Do(c, s, acts[0]), acts[1..];
      EntriesWereSpawned(c, s1, rest, x, q);
      if SpawnedInto(rest, x, q) {
        var k :| 0 <= k < |rest| && rest[k].CallSpawn? && rest[k].task == x && rest[k].queue == q;
        assert acts[k + 1] == rest[k];
      } else if x in s1.queues[q] {
        EntryComesFromPut(c, s, acts[0], x, q);
      } else {
        PutComesFromSpawn(c, s, acts[0], x, q);
      }
    }
  }

  /** In every run a task lies only in the queue that its spawn named. */
  lemma TasksLieWhereTheyWereSpawned(c: Config, s: State, acts: seq<Action>, x: Task, q: nat)
    requires Init(c, s) && Possible(c, s, acts)
    requires q < |After(c, s, acts).queues| && x in After(c, s, acts).queues[q]
    ensures SpawnedInto(acts, x, q)
  {
    EntriesWereSpawned(c, s, acts, x, q);
    forall t | 0 <= t < |s.threads|
      ensures s.threads[t].stack == [InitialActivation(IsWorker(s, t))]
    {
    }
  }

  // ---------------------------------------------------------------- in which order

  /** The tasks put into queue `q`, in the order of the steps that put them. */
  ghost function PutsInto(c: Config, s: State, acts: seq<Action>, q: nat): seq<Task>
    requires Possible(c, s, acts)
    decreases |acts|
  {
    if acts == [] then [] else PutBy(c, s, acts[0], q) + PutsInto(c, Do(c, s, acts[0]), acts[1..], q)
  }

  ghost function PutBy(c: Config, s: State, a: Action, q: nat): seq<Task>
    requires Enabled(c, s, a)
  {
    if a.Put? && Top(s.threads[a.t]).kind.queue == q then [Top(s.threads[a.t]).kind.task] else []
  }

  /** Newest at the front under cilkS, newest at the back otherwise. */
  function Arranged(policy: Policy, old': seq<Task>, new': seq<Task>): seq<Task> {
    if policy.Cilk? then Reversed(new') + old' else old' + new'
  }

  lemma ArrangedLater(policy: Policy, old': seq<Task>, put: seq<Task>, later: seq<Task>)
    requires |put| <= 1
    ensures Arranged(policy, Arranged(policy, old', put), later) == Arranged(policy, old', put + later)
  {
    if put == [] {
      assert put + later == later;
      assert Reversed(later) + (Reversed(put) + old') == Reversed(later) + old';
      assert (old' + put) + later == old' + later;
    } else {
      assert put == [put[0]];
      assert Reversed(put + later) == Reversed(later) + put by {
        assert (put + later)[1..] == later;
      }
      assert Reversed(put) == put by {
        assert put[1..] == [];
      }
      assert Reversed(later) + (put + old') == (Reversed(later) + put) + old';
      assert (old' + put) + later == old' + (put + later);
    }
  }

  lemma SubArranged(policy: Policy, a: seq<Task>, b: seq<Task>, later: seq<Task>)
    requires Subsequence(a, b)
    ensures Subsequence(Arranged(policy, a, later), Arranged(policy, b, later))
  {
    if policy.Cilk? {
      SubsequenceBehind(Reversed(later), a, b);
    } else {
      SubsequenceBefore(a, b, later);
    }
  }

  /** One step leaves of a queue, and of what it puts there, a subsequence. */
  lemma OneStepKeepsOrder(c: Config, s: State, a: Action, q: nat)
    requires Enabled(c, s, a) && q < |s.queues|
    ensures |Do(c, s, a).queues| == |s.queues|
    ensures Subsequence(Do(c, s, a).queues[q], Arranged(c.policy, s.queues[q], PutBy(c, s, a, q)))
  {
    var now, was := Do(c, s, a).queues[q], s.queues[q];
    SubsequenceSame(now);
    if a.Put? && Top(s.threads[a.t]).kind.queue == q {
      var x := Top(s.threads[a.t]).kind.task;
      assert Reversed([x]) == [x] by {
        assert [x][1..] == [];
      }
      assert now == Insert(c.policy, was, x);
    } else {
      assert Arranged(c.policy, was, []) == was;
      if a.Take? && VisitedQueue(c, s, a.t) == q {
        SubsequenceRemoved(was, a.index);
      }
    }
  }

  lemma {:induction false} QueuesKeepOrder(c: Config, s: State, acts: seq<Action>, q: nat)
    requires Possible(c, s, acts) && q < |s.queues|
    ensures |After(c, s, acts).queues| == |s.queues|
    ensures Subsequence(After(c, s, acts).queues[q], Arranged(c.policy, s.queues[q], PutsInto(c, s, acts, q)))
    decreases |acts|
  {
    if acts == [] {
      SubsequenceSame(s.queues[q]);
      assert Arranged(c.policy, s.queues[q], []) == s.queues[q];
    } else {
      var s1, put, later := Do(c, s, acts[0]), PutBy(c, s, acts[0], q), PutsInto(c, Do(c, s, acts[0]), acts[1..], q);
      OneStepKeepsOrder(c, s, acts[0], q);
      QueuesKeepOrder(c, s1, acts[1..], q);
      SubArranged(c.policy, s1.queues[q], Arranged(c.policy, s.queues[q], put), later);
      ArrangedLater(c.policy, s.queues[q], put, later);
      SubsequenceChain(After(c, s, acts).queues[q], Arranged(c.policy, s1.queues[q], later),
                       Arranged(c.policy, s.queues[q], put + later));
    }
  }

  /**
   In every run each queue holds, of the tasks put into it, some in the order in which they were put, under cilkS in the
   opposite order.
   */
  lemma QueuesLieInPutOrder(c: Config, s: State, acts: seq<Action>, q: nat)
    requires Init(c, s) && Possible(c, s, acts) && q < |s.queues|
    ensures |After(c, s, acts).queues| == |s.queues|
    ensures Subsequence(After(c, s, acts).queues[q], PutOrder(c.policy, PutsInto(c, s, acts, q)))
  {
    QueuesKeepOrder(c, s, acts, q);
    var puts := PutsInto(c, s, acts, q);
    assert Reversed(puts) + [] == Reversed(puts) && [] + puts == puts;
  }

  function PutOrder(policy: Policy, puts: seq<Task>): seq<Task> {
    if policy.Cilk? then Reversed(puts) else puts
  }

  /**
   What a thread takes from a queue is its first task under fifoS, its last under lifoS, and under cilkS the newest, at
   the front, from the thread's own queue and the oldest, at the back, from another.
   */
  lemma TakesFromTheEnd(c: Config, s: State, t: nat, index: nat)
    requires Enabled(c, s, Take(t, index))
    ensures var q := VisitedQueue(c, s, t);
            var n := |s.queues[q]|;
            && index < n && Do(c, s, Take(t, index)).queues[q] == RemoveAt(s.queues[q], index)
            && (c.policy.Fifo? ==> index == 0)
            && (c.policy.Lifo? ==> index == n - 1)
            && (c.policy.Cilk? ==> index == if c.homes[t] == q then 0 else n - 1)
  {
  }

  // ---------------------------------------------------------------- an undisturbed search

  function Refusals(t: nat, k: nat): seq<Action> {
    if k == 0 then [] else [Refuse(t)] + Refusals(t, k - 1)
  }

  /** A thread at its `j`-th visit. */
  ghost predicate AtVisit(c: Config, s: State, t: nat, j: nat) {
    && WellFormed(c, s) && t < |s.threads| && s.threads[t].stack != []
    && Top(s.threads[t]).phase == Visit(j) && j < |s.queues|
  }

  ghost function AtLaterVisit(s: State, t: nat, j: nat): State
    requires t < |s.threads| && s.threads[t].stack != []
  {
    SetThread(s, t, Goto(s.threads[t], Visit(j)))
  }

  ghost predicate RefusesAt(c: Config, s: State, t: nat, i: nat)
    requires AtVisit(c, s, t, 0)
  {
    var q := Visited(c.homes[t], i, |s.queues|);
    Refuses(c.policy, c.lt, PointOf(Top(s.threads[t]).kind), s.queues[q], q == c.homes[t])
  }

  lemma RefuseOnce(c: Config, s: State, t: nat, j: nat)
    requires AtVisit(c, s, t, 0) && j + 1 < |s.queues|
    requires Enabled(c, AtLaterVisit(s, t, j), Refuse(t))
    ensures Do(c, AtLaterVisit(s, t, j), Refuse(t)) == AtLaterVisit(s, t, j + 1)
    ensures RefusesAt(c, s, t, j)
  {
    var s1 := AtLaterVisit(s, t, j);
    assert Below(s1.threads[t]) == Below(s.threads[t]);
    assert s1.threads[t := Goto(s1.threads[t], Visit(j + 1))] == AtLaterVisit(s, t, j + 1).threads;
  }

  lemma {:induction false} RefuseOften(c: Config, s: State, t: nat, j: nat, k: nat)
    requires AtVisit(c, s, t, 0) && j + k < |s.queues| && Possible(c, AtLaterVisit(s, t, j), Refusals(t, k))
    ensures After(c, AtLaterVisit(s, t, j), Refusals(t, k)) == AtLaterVisit(s, t, j + k)
    ensures forall i :: j <= i < j + k ==> RefusesAt(c, s, t, i)
    decreases k
  {
    if k > 0 {
      assert Refusals(t, k)[0] == Refuse(t) && Refusals(t, k)[1..] == Refusals(t, k - 1);
      RefuseOnce(c, s, t, j);
      RefuseOften(c, s, t, j + 1, k - 1);
    }
  }

  lemma StartOfScan(c: Config, s: State, t: nat)
    requires AtVisit(c, s, t, 0)
    ensures AtLaterVisit(s, t, 0) == s
  {
    var th := s.threads[t];
    assert th.stack == Below(th) + [Activation(Top(th).kind, Visit(0))];
  }

  /**
   A search that refuses `k` queues and takes from the next one, undisturbed, is the scan of the queue set, from the
   thread's own queue on, and it comes away with the task.
   */
  lemma SuccessfulSearchIsScan(c: Config, s: State, t: nat, k: nat, index: nat) returns (x: Task)
    requires AtVisit(c, s, t, 0) && k < |s.queues| && Possible(c, s, Refusals(t, k))
    requires Enabled(c, After(c, s, Refusals(t, k)), Take(t, index))
    ensures var r := Do(c, After(c, s, Refusals(t, k)), Take(t, index));
            && Scan(c.policy, c.lt, PointOf(Top(s.threads[t]).kind), c.homes[t], s.queues, Some(x), r.queues)
            && Below(r.threads[t]) == Below(s.threads[t])
            && Top(r.threads[t]).phase == if Top(s.threads[t]).kind.Steal? then Hold(x) else Retest(Some(x))
  {
    StartOfScan(c, s, t);
    RefuseOften(c, s, t, 0, k);
    var s1 := AtLaterVisit(s, t, k);
    var q := Visited(c.homes[t], k, |s.queues|);
    assert VisitedQueue(c, s1, t) == q;
    x := s.queues[q][index];
    var after := Do(c, s1, Take(t, index)).queues;
    var point := PointOf(Top(s.threads[t]).kind);
    assert Yields(c.policy, c.lt, point, s.queues[q], q == c.homes[t], x, after[q]);
    forall j | 0 <= j < k
      ensures var i := Visited(c.homes[t], j, |s.queues|); Refuses(c.policy, c.lt, point, s.queues[i], i == c.homes[t])
    {
      assert RefusesAt(c, s, t, j);
    }
    assert TakenAt(c.policy, c.lt, point, c.homes[t], s.queues, k, x, after);
  }

  /** A search that refuses every queue, undisturbed, is a scan that returns NULL; a wait tests again, a barrier ends */
  lemma FailedSearchIsScan(c: Config, s: State, t: nat)
    requires AtVisit(c, s, t, 0) && Possible(c, s, Refusals(t, |s.queues| - 1))
    requires Enabled(c, After(c, s, Refusals(t, |s.queues| - 1)), Refuse(t))
    ensures var r := Do(c, After(c, s, Refusals(t, |s.queues| - 1)), Refuse(t));
            && Scan(c.policy, c.lt, PointOf(Top(s.threads[t]).kind), c.homes[t], s.queues, None, r.queues)
            && if Top(s.threads[t]).kind.Steal? then r.threads[t] == Pop(s.threads[t])
               else r.threads[t] == Goto(s.threads[t], Test)
  {
    var n := |s.queues|;
    StartOfScan(c, s, t);
    RefuseOften(c, s, t, 0, n - 1);
    var s1 := AtLaterVisit(s, t, n - 1);
    assert Below(s1.threads[t]) == Below(s.threads[t]);
    assert RefusesAt(c, s, t, n - 1);
    forall j | 0 <= j < n
      ensures var i := Visited(c.homes[t], j, n);
              Refuses(c.policy, c.lt, PointOf(Top(s.threads[t]).kind), s.queues[i], i == c.homes[t])
    {
      assert RefusesAt(c, s, t, j);
    }
  }

  // ---------------------------------------------------------------- coming to an end

  /**
   Once its completion predicate holds a search ends with the two tests of `get_task`: it looks into no queue and runs
   nothing more, so a finished wait returns to the task below and a cancelled worker leaves its loop.
   */
  lemma CompletedSearchEnds(c: Config, s: State, t: nat, more: bool)
    requires WellFormed(c, s) && t < |s.threads| && s.threads[t].stack != []
    requires Top(s.threads[t]).phase.Test? && Complete(s, t, Top(s.threads[t]).kind)
    ensures Possible(c, s, [TestCompletion(t, more), RetestCompletion(t)])
    ensures After(c, s, [TestCompletion(t, more), RetestCompletion(t)]) == SetThread(s, t, Pop(s.threads[t]))
  {
    var acts := [TestCompletion(t, more), RetestCompletion(t)];
    var s1 := Do(c, s, acts[0]);
    assert Below(s1.threads[t]) == Below(s.threads[t]);
    assert acts[1..] == [RetestCompletion(t)] && acts[1..][1..] == [];
    var s2 := Do(c, s1, acts[1]);
    assert Possible(c, s2, []) && Possible(c, s1, acts[1..]);
    assert After(c, s1, acts[1..]) == After(c, s2, []) == s2;
    assert s2.threads == SetThread(s, t, Pop(s.threads[t])).threads;
  }

  /** Cancelling a worker makes its loop end at the next test, and leaves everything else alone. */
  lemma CancelledWorkerEnds(c: Config, s: State, t: nat, more: bool)
    requires WellFormed(c, s) && t < |s.threads| && s.threads[t].stack != []
    requires Top(s.threads[t]).phase.Test? && Top(s.threads[t]).kind.Worker?
    ensures Enabled(c, s, Cancel(t))
    ensures var s1 := Do(c, s, Cancel(t));
            && Possible(c, s1, [TestCompletion(t, more), RetestCompletion(t)])
            && s1 == SetThread(s, t, s.threads[t].(cancelled := true))
            && After(c, s1, [TestCompletion(t, more), RetestCompletion(t)]) ==
               SetThread(s, t, Pop(s.threads[t]).(cancelled := true))
  {
    var s1 := Do(c, s, Cancel(t));
    var th := Pop(s.threads[t]).(cancelled := true);
    assert SetThread(s1, t, Pop(s1.threads[t])).threads == SetThread(s, t, th).threads;
    CompletedSearchEnds(c, Do(c, s, Cancel(t)), t, more);
  }

  /** A blocked wait for a finished task returns in one step. */
  lemma FinishedBlockReturns(c: Config, s: State, t: nat)
    requires WellFormed(c, s) && t < |s.threads| && s.threads[t].stack != []
    requires Top(s.threads[t]).kind.Block? && Top(s.threads[t]).kind.target in s.finished
    ensures Enabled(c, s, Unblock(t)) && Do(c, s, Unblock(t)) == SetThread(s, t, Pop(s.threads[t]))
  {
  }

  /** From publishing a waitable task until its wake the notifier owes the wake, and then no longer. */
  lemma NotifierOwesTheWake(c: Config, s: State, t: nat)
    requires Enabled(c, s, PublishCompletion(t)) && c.waitable(Top(s.threads[t]).phase.task.id)
    ensures var x, s1 := Top(s.threads[t]).phase.task, Do(c, s, PublishCompletion(t));
            && x in s1.finished && OwesWake(c, s1.threads[t], x) && WakeOwed(c, s1, x)
            && Enabled(c, s1, IssueWake(t)) && !OwesWake(c, Do(c, s1, IssueWake(t)).threads[t], x)
  {
    var x, s1 := Top(s.threads[t]).phase.task, Do(c, s, PublishCompletion(t));
    assert OwesWake(c, s1.threads[t], x);
  }

  // ---------------------------------------------------------------- undisturbed calls

  lemma RunPrepend(c: Config, s: State, a: Action, rest: seq<Action>)
    requires Enabled(c, s, a) && Possible(c, Do(c, s, a), rest)
    ensures Possible(c, s, [a] + rest) && After(c, s, [a] + rest) == After(c, Do(c, s, a), rest)
  {
    var acts := [a] + rest;
    assert acts[0] == a && acts[1..] == rest;
  }

  lemma RunOne(c: Config, s: State, a: Action)
    requires Enabled(c, s, a)
    ensures Possible(c, s, [a]) && After(c, s, [a]) == Do(c, s, a)
  {
    assert Possible(c, Do(c, s, a), []) && After(c, Do(c, s, a), []) == Do(c, s, a);
    RunPrepend(c, s, a, []);
    assert [a] + [] == [a];
  }

  /** User code that can call the scheduler. */
  ghost predicate CanCall(c: Config, s: State, t: nat) {
    WellFormed(c, s) && t < |s.threads| && s.threads[t].stack != [] && UserCode(Top(s.threads[t]))
  }

  /** All earlier uses of the task object of `x` are over, and no activation waits for one of them. */
  ghost predicate NothingUses(c: Config, s: State, x: Task) {
    && (forall y :: y in s.spawned && y !in s.finished ==> c.handle(y.id) != c.handle(x.id))
    && forall t, i :: 0 <= t < |s.threads| && 0 <= i < |s.threads[t].stack| ==>
         WaitsForOther(c, s.threads[t].stack[i].kind, x)
  }

  ghost predicate WaitsForOther(c: Config, kind: Kind, x: Task) {
    match kind
    case WaitFor(target, _) => c.handle(target.id) != c.handle(x.id)
    case Block(target) => c.handle(target.id) != c.handle(x.id)
    case _ => true
  }

  /** A caller may spawn into a task object exactly if nothing uses it. */
  lemma FreeMeansUnused(c: Config, s: State, x: Task)
    ensures ObjectIsFree(c, s, x) <==> NothingUses(c, s, x)
  {
    forall t, i | 0 <= t < |s.threads| && 0 <= i < |s.threads[t].stack|
      ensures WaitsForOther(c, s.threads[t].stack[i].kind, x) <==>
              match Awaited(s.threads[t].stack[i])
              case Some(y) => c.handle(y.id) != c.handle(x.id)
              case None => true
    {
    }
  }

  /** At the start every thread but the last is a worker in its loop, and the last is the main program. */
  lemma ThreadsAtStart(c: Config, s: State, t: nat)
    requires Init(c, s) && t < |s.threads|
    ensures s.threads[t].stack ==
            [if t + 1 < |s.threads| then Activation(Worker, Test) else Activation(MainProgram, User)]
  {
  }

  /** Any number of workers and queues can be set up, with any assignment of threads to queues. */
  lemma InitialState(c: Config, queues: nat, caches: seq<Descriptor>) returns (s: State)
    requires queues > 0 && |c.homes| == |caches| > 0 && forall t :: 0 <= t < |c.homes| ==> c.homes[t] < queues
    ensures Init(c, s) && |s.queues| == queues && |s.threads| == |caches|
  {
    var n := |caches|;
    s := State(seq(queues, _ => []),
               seq(n, t requires 0 <= t < n => Thread([InitialActivation(t + 1 < n)], caches[t], false)),
               {}, {}, multiset{}, multiset{});
  }

  /** A search that is not complete goes on: with the queues while attempts are left, and after a yield otherwise. */
  lemma SearchGoesOn(c: Config, s: State, t: nat)
    requires WellFormed(c, s) && t < |s.threads| && s.threads[t].stack != []
    requires Top(s.threads[t]).phase.Test? && !Complete(s, t, Top(s.threads[t]).kind)
    ensures Enabled(c, s, TestCompletion(t, true)) && AtVisit(c, Do(c, s, TestCompletion(t, true)), t, 0)
    ensures Possible(c, s, [TestCompletion(t, false)] + [RetestCompletion(t)])
    ensures After(c, s, [TestCompletion(t, false)] + [RetestCompletion(t)]) == s
  {
    var th := s.threads[t];
    var s1 := Do(c, s, TestCompletion(t, false));
    GotoTwice(th, Retest(None), Test);
    RunOne(c, s1, RetestCompletion(t));
    RunPrepend(c, s, TestCompletion(t, false), [RetestCompletion(t)]);
    assert th.stack == Below(th) + [Activation(Top(th).kind, Test)];
    assert Do(c, s1, RetestCompletion(t)).threads == s.threads;
  }

  /** Spawning, undisturbed: the task is in the named queue, its spawn is recorded, and the caller goes on as before. */
  lemma SpawnPutsTask(c: Config, s: State, t: nat, x: Task, q: nat)
    requires CanCall(c, s, t) && q < |s.queues| && NothingUses(c, s, x) && forall y :: y in s.spawned ==> y.id != x.id
    ensures Possible(c, s, [CallSpawn(t, x, q)] + [Put(t)])
    ensures After(c, s, [CallSpawn(t, x, q)] + [Put(t)]) ==
            s.(queues := s.queues[q := Insert(c.policy, s.queues[q], x)], spawned := s.spawned + {x})
  {
    FreeMeansUnused(c, s, x);
    var s1 := Do(c, s, CallSpawn(t, x, q));
    assert Top(s1.threads[t]) == Activation(Spawn(x, q), Pending);
    assert Below(s1.threads[t]) == s.threads[t].stack;
    RunOne(c, s1, Put(t));
    RunPrepend(c, s, CallSpawn(t, x, q), [Put(t)]);
    assert s.threads[t := s.threads[t]] == s.threads;
    assert Do(c, s1, Put(t)).threads == s.threads;
  }

  /**
   A worker's task can wait for a nested task by running others, and look for others at a barrier; anybody can wait by
   blocking.
   */
  lemma WaitsBegin(c: Config, s: State, t: nat, x: Task)
    requires CanCall(c, s, t) && x in s.spawned
    ensures Enabled(c, s, CallBlock(t, x)) && Top(Do(c, s, CallBlock(t, x)).threads[t]).kind == Block(x)
    ensures IsWorker(s, t) && !c.waitable(x.id) ==>
              && Enabled(c, s, CallWait(t, x))
              && Top(Do(c, s, CallWait(t, x)).threads[t]) == Activation(WaitFor(x, s.threads[t].cache), Test)
    ensures IsWorker(s, t) ==>
              && Enabled(c, s, CallBarrier(t))
              && Top(Do(c, s, CallBarrier(t)).threads[t]) == Activation(Steal(s.threads[t].cache), Visit(0))
    ensures !IsWorker(s, t) ==> !Enabled(c, s, CallWait(t, x)) && !Enabled(c, s, CallBarrier(t))
  {
  }

  /** The first steps of a task that a search has come away with: it runs with the cache describing it. */
  lemma TaskStarts(c: Config, s: State, t: nat)
    requires WellFormed(c, s) && t < |s.threads| && s.threads[t].stack != [] && Top(s.threads[t]).phase.Hold?
    ensures var x := Top(s.threads[t]).phase.task;
            && Enabled(c, s, SetCache(t))
            && Do(c, s, SetCache(t)) ==
               SetThread(s, t, Goto(s.threads[t], Run(x)).(cache := x.desc)).(started := s.started + multiset{x})
  {
  }

  /** Where an activation is once it has notified its task and restored the cache. */
  ghost function Resumed(th: Thread): Thread
    requires th.stack != []
  {
    match Top(th).kind
    case WaitFor(_, saved) => Goto(th, Test).(cache := saved)
    case Steal(saved) => Pop(th).(cache := saved)
    case _ => Goto(th, Test)
  }

  /** The steps from the return of a task's function to the next turn of the loop that ran it. */
  ghost function EndOfTask(c: Config, s: State, t: nat): seq<Action>
    requires t < |s.threads| && s.threads[t].stack != [] && Top(s.threads[t]).phase.Run?
  {
    [FinishRun(t)] + ([PublishCompletion(t)] +
      ((if c.waitable(Top(s.threads[t]).phase.task.id) then [IssueWake(t)] else []) +
       (if Top(s.threads[t]).kind.Worker? then [] else [RestoreCache(t)])))
  }

  ghost predicate RunsTasks(kind: Kind) {
    kind.Worker? || kind.WaitFor? || kind.Steal?
  }

  lemma GotoTwice(th: Thread, p: Phase, q: Phase)
    requires th.stack != []
    ensures Goto(Goto(th, p), q) == Goto(th, q) && Pop(Goto(th, p)) == Pop(th)
    ensures Top(Goto(th, p)) == Activation(Top(th).kind, p)
  {
    assert Below(Goto(th, p)) == Below(th);
  }

  lemma RestoreEnds(c: Config, s: State, t: nat)
    requires WellFormed(c, s) && t < |s.threads| && s.threads[t].stack != []
    requires Top(s.threads[t]).phase == AfterNotify(Top(s.threads[t]).kind) && RunsTasks(Top(s.threads[t]).kind)
    ensures var last := if Top(s.threads[t]).kind.Worker? then [] else [RestoreCache(t)];
            Possible(c, s, last) && After(c, s, last) == SetThread(s, t, Resumed(s.threads[t]))
  {
    if Top(s.threads[t]).kind.Worker? {
      var th := s.threads[t];
      assert th.stack == Below(th) + [Activation(Top(th).kind, Test)];
      assert s.threads[t := th] == s.threads;
    } else {
      RunOne(c, s, RestoreCache(t));
    }
  }

  lemma WakeEnds(c: Config, s: State, t: nat, x: Task)
    requires WellFormed(c, s) && t < |s.threads| && s.threads[t].stack != [] && RunsTasks(Top(s.threads[t]).kind)
    requires Top(s.threads[t]).phase == if c.waitable(x.id) then Wake(x) else AfterNotify(Top(s.threads[t]).kind)
    ensures var rest := (if c.waitable(x.id) then [IssueWake(t)] else []) +
                        (if Top(s.threads[t]).kind.Worker? then [] else [RestoreCache(t)]);
            Possible(c, s, rest) && After(c, s, rest) == SetThread(s, t, Resumed(s.threads[t]))
  {
    var last := if Top(s.threads[t]).kind.Worker? then [] else [RestoreCache(t)];
    if c.waitable(x.id) {
      var s1 := Do(c, s, IssueWake(t));
      GotoTwice(s.threads[t], AfterNotify(Top(s.threads[t]).kind), Test);
      RestoreEnds(c, s1, t);
      RunPrepend(c, s, IssueWake(t), last);
      assert SetThread(s1, t, Resumed(s.threads[t])) == SetThread(s, t, Resumed(s.threads[t]));
    } else {
      RestoreEnds(c, s, t);
      assert [] + last == last;
    }
  }

  lemma PublishEnds(c: Config, s: State, t: nat)
    requires WellFormed(c, s) && t < |s.threads| && s.threads[t].stack != []
    requires Top(s.threads[t]).phase.Notify? && RunsTasks(Top(s.threads[t]).kind)
    ensures var x := Top(s.threads[t]).phase.task;
            var rest := (if c.waitable(x.id) then [IssueWake(t)] else []) +
                        (if Top(s.threads[t]).kind.Worker? then [] else [RestoreCache(t)]);
            && Possible(c, s, [PublishCompletion(t)] + rest)
            && After(c, s, [PublishCompletion(t)] + rest) ==
               SetThread(s, t, Resumed(s.threads[t]))
                 .(finished := s.finished + {x}, notified := s.notified + multiset{x})
  {
    var th := s.threads[t];
    var x := Top(th).phase.task;
    var s1 := Do(c, s, PublishCompletion(t));
    GotoTwice(th, if c.waitable(x.id) then Wake(x) else AfterNotify(Top(th).kind), Test);
    WakeEnds(c, s1, t, x);
    var rest := (if c.waitable(x.id) then [IssueWake(t)] else []) +
                (if Top(th).kind.Worker? then [] else [RestoreCache(t)]);
    RunPrepend(c, s, PublishCompletion(t), rest);
    assert SetThread(s1, t, Resumed(th)).threads == SetThread(s, t, Resumed(th)).threads;
  }

  /**
   The end of a task, undisturbed: its completion is published and notified once, and the loop that ran it goes on, a
   worker with the next search, a wait with the next search and the cache restored, a barrier back in its caller.
   */
  lemma TaskEnds(c: Config, s: State, t: nat)
    requires WellFormed(c, s) && t < |s.threads| && s.threads[t].stack != []
    requires Top(s.threads[t]).phase.Run? && RunsTasks(Top(s.threads[t]).kind)
    ensures var x := Top(s.threads[t]).phase.task;
            && Possible(c, s, EndOfTask(c, s, t))
            && After(c, s, EndOfTask(c, s, t)) ==
               SetThread(s, t, Resumed(s.threads[t]))
                 .(finished := s.finished + {x}, notified := s.notified + multiset{x})
  {
    var th := s.threads[t];
    var x := Top(th).phase.task;
    var s1 := Do(c, s, FinishRun(t));
    GotoTwice(th, Notify(x), Test);
    PublishEnds(c, s1, t);
    var rest := (if c.waitable(x.id) then [IssueWake(t)] else []) +
                (if Top(th).kind.Worker? then [] else [RestoreCache(t)]);
    RunPrepend(c, s, FinishRun(t), [PublishCompletion(t)] + rest);
    assert SetThread(s1, t, Resumed(th)).threads == SetThread(s, t, Resumed(th)).threads;
  }
}
