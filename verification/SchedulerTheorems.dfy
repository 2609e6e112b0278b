/** What every run of the task manager keeps: tasks are conserved, the cache is right, and nesting is ordered. */
module SchedulerTheorems {
  import opened Common
  import opened Policies
  import opened TaskQueues
  import opened Scheduler

  // ---------------------------------------------------------------- where the tasks are

  function OptionBag<T>(x: Option<T>): multiset<T> {
    match x case Some(v) => multiset{v} case None => multiset{}
  }

  /** The task an activation has started and not yet notified. */
  function Running(a: Activation): Option<Task> {
    match a.phase
    case Run(x) => Some(x)
    case Notify(x) => Some(x)
    case _ => None
  }

  function ActivationBag(a: Activation): multiset<Task> {
    OptionBag(Carried(a))
  }

  function RunBag(a: Activation): multiset<Task> {
    OptionBag(Running(a))
  }

  function ThreadBag(th: Thread): multiset<Task> {
    BagOf(th.stack, ActivationBag)
  }

  function ThreadRuns(th: Thread): multiset<Task> {
    BagOf(th.stack, RunBag)
  }

  /** All tasks in queues, on call stacks, and finished. */
  ghost function Places(s: State): multiset<Task> {
    BagOf(s.queues, QueueBag) + BagOf(s.threads, ThreadBag) + multiset(s.finished)
  }

  ghost predicate Inv(c: Config, s: State) {
    && WellFormed(c, s)
    && (forall t :: 0 <= t < |s.threads| ==> ThreadOk(c, s.threads[t], IsWorker(s, t)))
    && Places(s) == multiset(s.spawned)
    && s.started == BagOf(s.threads, ThreadRuns) + multiset(s.finished)
    && s.notified == multiset(s.finished)
    && (forall x, y :: x in s.spawned && y in s.spawned && x.id == y.id ==> x == y)
  }

  /** The top activation that a step takes off the stack, if any. */
  ghost function TakenOff(c: Config, s: State, a: Action): Option<Activation>
    requires Enabled(c, s, a)
  {
    if a.Cancel? || a.CallSpawn? || a.CallWait? || a.CallBlock? || a.CallBarrier? then None
    else Some(Top(s.threads[a.t]))
  }

  /** The activation that a step puts on top instead, if any. */
  ghost function PutOn(c: Config, s: State, a: Action): Option<Activation>
    requires Enabled(c, s, a)
  {
    var th, th' := s.threads[a.t], Move(c, s, a);
    if a.Cancel? || |th'.stack| < |th.stack| then None else Some(Top(th'))
  }

  function Singleton<T>(x: Option<T>): seq<T> {
    match x case Some(v) => [v] case None => []
  }

  /** A step exchanges the top activation and leaves the rest of the stack alone. */
  lemma StackShape(c: Config, s: State, a: Action)
    requires Enabled(c, s, a)
    ensures Move(c, s, a).stack ==
            (if TakenOff(c, s, a).Some? then Below(s.threads[a.t]) else s.threads[a.t].stack) +
            Singleton(PutOn(c, s, a))
  {
  }

  /** The task carried by the top activation before and after a step. */
  lemma CarriedStep(c: Config, s: State, a: Action)
    requires Enabled(c, s, a) && ThreadOk(c, s.threads[a.t], IsWorker(s, a.t))
    ensures var was := if TakenOff(c, s, a).Some? then Carried(TakenOff(c, s, a).value) else None;
            var now := if PutOn(c, s, a).Some? then Carried(PutOn(c, s, a).value) else None;
            match a
            case CallSpawn(_, x, _) => was == None && now == Some(x)
            case Take(t, index) => was == None && now == Some(s.queues[VisitedQueue(c, s, t)][index])
            case Put(t) => was == Some(Top(s.threads[t]).kind.task) && now == None
            case PublishCompletion(t) => was == Some(Top(s.threads[t]).phase.task) && now == None
            case _ => was == now
  {
    if a.CallSpawn? || a.Take? || a.Put? || a.PublishCompletion? {
      CarriedChanges(c, s, a);
    } else {
      CarriedStays(c, s, a);
    }
  }

  lemma CarriedChanges(c: Config, s: State, a: Action)
    requires Enabled(c, s, a) && ThreadOk(c, s.threads[a.t], IsWorker(s, a.t))
    requires a.CallSpawn? || a.Take? || a.Put? || a.PublishCompletion?
    ensures var was := if TakenOff(c, s, a).Some? then Carried(TakenOff(c, s, a).value) else None;
            var now := if PutOn(c, s, a).Some? then Carried(PutOn(c, s, a).value) else None;
            match a
            case CallSpawn(_, x, _) => was == None && now == Some(x)
            case Take(t, index) => was == None && now == Some(s.queues[VisitedQueue(c, s, t)][index])
            case Put(t) => was == Some(Top(s.threads[t]).kind.task) && now == None
            case PublishCompletion(t) => was == Some(Top(s.threads[t]).phase.task) && now == None
            case _ => true
  {
    var stack := s.threads[a.t].stack;
    assert ActivationOk(c, stack, |stack| - 1, IsWorker(s, a.t));
  }

  lemma CarriedStays(c: Config, s: State, a: Action)
    requires Enabled(c, s, a) && ThreadOk(c, s.threads[a.t], IsWorker(s, a.t))
    requires !(a.CallSpawn? || a.Take? || a.Put? || a.PublishCompletion?)
    ensures var was := if TakenOff(c, s, a).Some? then Carried(TakenOff(c, s, a).value) else None;
            var now := if PutOn(c, s, a).Some? then Carried(PutOn(c, s, a).value) else None;
            was == now
  {
    if !a.Cancel? {
      var stack := s.threads[a.t].stack;
      assert ActivationOk(c, stack, |stack| - 1, IsWorker(s, a.t));
    }
  }

  /** The task running in the top activation before and after a step. */
  lemma RunningStep(c: Config, s: State, a: Action)
    requires Enabled(c, s, a) && ThreadOk(c, s.threads[a.t], IsWorker(s, a.t))
    ensures var was := if TakenOff(c, s, a).Some? then Running(TakenOff(c, s, a).value) else None;
            var now := if PutOn(c, s, a).Some? then Running(PutOn(c, s, a).value) else None;
            match a
            case SetCache(t) => was == None && now == Some(Top(s.threads[t]).phase.task)
            case PublishCompletion(t) => was == Some(Top(s.threads[t]).phase.task) && now == None
            case _ => was == now
  {
    if !a.Cancel? {
      var stack := s.threads[a.t].stack;
      assert ActivationOk(c, stack, |stack| - 1, IsWorker(s, a.t));
    }
  }

  function Weigh(a: Option<Activation>, f: Activation -> multiset<Task>): multiset<Task> {
    match a case Some(x) => f(x) case None => multiset{}
  }

  lemma WeighOne(below: seq<Activation>, x: Option<Activation>, f: Activation -> multiset<Task>)
    ensures BagOf(below + Singleton(x), f) == BagOf(below, f) + Weigh(x, f)
  {
    if x.Some? {
      BagSnoc(below, x.value, f);
    } else {
      assert below + [] == below;
    }
  }

  /** The bag of a stack changes by the exchange of its top activation. */
  lemma StackBag(c: Config, s: State, a: Action, f: Activation -> multiset<Task>)
    requires Enabled(c, s, a)
    ensures BagOf(Move(c, s, a).stack, f) + Weigh(TakenOff(c, s, a), f) ==
            BagOf(s.threads[a.t].stack, f) + Weigh(PutOn(c, s, a), f)
  {
    StackShape(c, s, a);
    var th := s.threads[a.t];
    var off := TakenOff(c, s, a);
    var below := if off.Some? then Below(th) else th.stack;
    assert th.stack == below + Singleton(off);
    WeighOne(below, off, f);
    WeighOne(below, PutOn(c, s, a), f);
  }

  /** From the exchange on one thread to the exchange over all threads. */
  lemma Exchange<T>(
    all: multiset<T>, all': multiset<T>, one: multiset<T>, one': multiset<T>, off: multiset<T>, on: multiset<T>)
    requires all' + one == all + one' && one' + off == one + on
    ensures all' + off == all + on
  {
    forall e
      ensures (all' + off)[e] == (all + on)[e]
    {
      assert (all' + one)[e] == (all + one')[e];
      assert (one' + off)[e] == (one + on)[e];
    }
  }

  lemma ThreadsBag(c: Config, s: State, a: Action)
    requires Enabled(c, s, a)
    ensures BagOf(Do(c, s, a).threads, ThreadBag) + Weigh(TakenOff(c, s, a), ActivationBag) ==
            BagOf(s.threads, ThreadBag) + Weigh(PutOn(c, s, a), ActivationBag)
    ensures BagOf(Do(c, s, a).threads, ThreadRuns) + Weigh(TakenOff(c, s, a), RunBag) ==
            BagOf(s.threads, ThreadRuns) + Weigh(PutOn(c, s, a), RunBag)
  {
    var th, th' := s.threads[a.t], Move(c, s, a);
    assert Do(c, s, a).threads == s.threads[a.t := th'];
    BagUpdate(s.threads, a.t, th', ThreadBag);
    BagUpdate(s.threads, a.t, th', ThreadRuns);
    StackBag(c, s, a, ActivationBag);
    StackBag(c, s, a, RunBag);
    Exchange(BagOf(s.threads, ThreadBag), BagOf(s.threads[a.t := th'], ThreadBag), ThreadBag(th), ThreadBag(th'),
             Weigh(TakenOff(c, s, a), ActivationBag), Weigh(PutOn(c, s, a), ActivationBag));
    Exchange(BagOf(s.threads, ThreadRuns), BagOf(s.threads[a.t := th'], ThreadRuns), ThreadRuns(th), ThreadRuns(th'),
             Weigh(TakenOff(c, s, a), RunBag), Weigh(PutOn(c, s, a), RunBag));
  }

  lemma CancelOut<T>(a: multiset<T>, b: multiset<T>, x: multiset<T>)
    requires a + x == b + x
    ensures a == b
  {
    forall e
      ensures a[e] == b[e]
    {
      assert (a + x)[e] == (b + x)[e];
    }
  }

  lemma QueueLoses(qs: seq<Queue>, i: nat, k: nat)
    requires i < |qs| && k < |qs[i]|
    ensures BagOf(qs, QueueBag) == BagOf(qs[i := RemoveAt(qs[i], k)], QueueBag) + multiset{qs[i][k]}
  {
    var q' := RemoveAt(qs[i], k);
    RemoveAtBag(qs[i], k);
    BagUpdate(qs, i, q', QueueBag);
    TakeOut(BagOf(qs, QueueBag), BagOf(qs[i := q'], QueueBag), QueueBag(qs[i]), QueueBag(q'), multiset{qs[i][k]});
  }

  /** A task on a call stack has not finished. */
  lemma OnStackNotFinished(c: Config, s: State, x: Task)
    requires Inv(c, s) && x in BagOf(s.threads, ThreadBag)
    ensures x !in s.finished && x in s.spawned
  {
    assert Places(s)[x] == multiset(s.spawned)[x] <= 1;
  }

  /** The effect of a step on the three places, by kind of step. */
  lemma ThreadsGainOrLose(c: Config, s: State, a: Action)
    requires Inv(c, s) && Enabled(c, s, a)
    ensures var was, now := BagOf(s.threads, ThreadBag), BagOf(Do(c, s, a).threads, ThreadBag);
            match a
            case CallSpawn(_, x, _) => now == was + multiset{x}
            case Take(t, index) => now == was + multiset{s.queues[VisitedQueue(c, s, t)][index]}
            case Put(t) => was == now + multiset{Top(s.threads[t]).kind.task}
            case PublishCompletion(t) => was == now + multiset{Top(s.threads[t]).phase.task}
            case _ => now == was
  {
    ThreadsBag(c, s, a);
    CarriedWeights(c, s, a);
    if !(a.CallSpawn? || a.Take? || a.Put? || a.PublishCompletion?) {
      CancelOut(BagOf(Do(c, s, a).threads, ThreadBag), BagOf(s.threads, ThreadBag),
                Weigh(TakenOff(c, s, a), ActivationBag));
    }
  }

  lemma CarriedWeights(c: Config, s: State, a: Action)
    requires Inv(c, s) && Enabled(c, s, a)
    ensures var off, on := Weigh(TakenOff(c, s, a), ActivationBag), Weigh(PutOn(c, s, a), ActivationBag);
            match a
            case CallSpawn(_, x, _) => off == multiset{} && on == multiset{x}
            case Take(t, index) => off == multiset{} && on == multiset{s.queues[VisitedQueue(c, s, t)][index]}
            case Put(t) => off == multiset{Top(s.threads[t]).kind.task} && on == multiset{}
            case PublishCompletion(t) => off == multiset{Top(s.threads[t]).phase.task} && on == multiset{}
            case _ => off == on
  {
    assert ThreadOk(c, s.threads[a.t], IsWorker(s, a.t));
    CarriedStep(c, s, a);
  }

  lemma RunsGainOrLose(c: Config, s: State, a: Action)
    requires Inv(c, s) && Enabled(c, s, a)
    ensures var was, now := BagOf(s.threads, ThreadRuns), BagOf(Do(c, s, a).threads, ThreadRuns);
            match a
            case SetCache(t) => now == was + multiset{Top(s.threads[t]).phase.task}
            case PublishCompletion(t) => was == now + multiset{Top(s.threads[t]).phase.task}
            case _ => now == was
  {
    ThreadsBag(c, s, a);
    RunningWeights(c, s, a);
    if !(a.SetCache? || a.PublishCompletion?) {
      CancelOut(BagOf(Do(c, s, a).threads, ThreadRuns), BagOf(s.threads, ThreadRuns), Weigh(TakenOff(c, s, a), RunBag));
    }
  }

  lemma RunningWeights(c: Config, s: State, a: Action)
    requires Inv(c, s) && Enabled(c, s, a)
    ensures var off, on := Weigh(TakenOff(c, s, a), RunBag), Weigh(PutOn(c, s, a), RunBag);
            match a
            case SetCache(t) => off == multiset{} && on == multiset{Top(s.threads[t]).phase.task}
            case PublishCompletion(t) => off == multiset{Top(s.threads[t]).phase.task} && on == multiset{}
            case _ => off == on
  {
    assert ThreadOk(c, s.threads[a.t], IsWorker(s, a.t));
    RunningStep(c, s, a);
  }

  /** Completion is published for a task that was still on a stack, hence for the first time. */
  lemma PublishesOnce(c: Config, s: State, a: Action)
    requires Inv(c, s) && Enabled(c, s, a) && a.PublishCompletion?
    ensures Top(s.threads[a.t]).phase.task !in s.finished
  {
    ThreadsGainOrLose(c, s, a);
    OnStackNotFinished(c, s, Top(s.threads[a.t]).phase.task);
  }

  lemma SpawnedOnceMore(spawned: set<Task>, x: Task)
    requires forall y :: y in spawned ==> y.id != x.id
    ensures multiset(spawned + {x}) == multiset(spawned) + multiset{x}
  {
    assert x !in spawned;
  }

  /** Moving one task between two places, or spawning it onto a stack, keeps the books balanced. */
  lemma Balance(
    q: multiset<Task>, t: multiset<Task>, f: multiset<Task>, all: multiset<Task>,
    q': multiset<Task>, t': multiset<Task>, f': multiset<Task>, all': multiset<Task>, x: multiset<Task>)
    requires q + t + f == all
    requires || (t' == t + x && all' == all + x && q' == q && f' == f)
             || (all' == all && t == t' + x && q' == q + x && f' == f)
             || (all' == all && t' == t + x && q == q' + x && f' == f)
             || (all' == all && t == t' + x && f' == f + x && q' == q)
    ensures q' + t' + f' == all'
  {
    forall e
      ensures (q' + t' + f')[e] == all'[e]
    {
      assert (q + t + f)[e] == all[e];
    }
  }

  lemma ConservationStep(c: Config, s: State, a: Action)
    requires Inv(c, s) && Enabled(c, s, a)
    ensures Places(Do(c, s, a)) == multiset(Do(c, s, a).spawned)
  {
    ThreadsGainOrLose(c, s, a);
    var s' := Do(c, s, a);
    var x := multiset{};
    match a {
      case CallSpawn(_, y, _) =>
        SpawnedOnceMore(s.spawned, y);
        x := multiset{y};
      case Put(t) =>
        var k := Top(s.threads[t]).kind;
        QueueGains(c.policy, s.queues, k.queue, k.task);
        x := multiset{k.task};
      case Take(t, index) =>
        QueueLoses(s.queues, VisitedQueue(c, s, t), index);
        x := multiset{s.queues[VisitedQueue(c, s, t)][index]};
      case PublishCompletion(t) =>
        PublishesOnce(c, s, a);
        x := multiset{Top(s.threads[t]).phase.task};
        assert multiset(s'.finished) == multiset(s.finished) + x;
      case _ =>
    }
    Balance(BagOf(s.queues, QueueBag), BagOf(s.threads, ThreadBag), multiset(s.finished), multiset(s.spawned),
            BagOf(s'.queues, QueueBag), BagOf(s'.threads, ThreadBag), multiset(s'.finished), multiset(s'.spawned), x);
  }

  lemma Shift<T>(started: multiset<T>, runs: multiset<T>, runs': multiset<T>, done: set<T>, x: T)
    requires started == runs + multiset(done)
    ensures runs' == runs + multiset{x} ==> started + multiset{x} == runs' + multiset(done)
    ensures runs == runs' + multiset{x} && x !in done ==> started == runs' + multiset(done + {x})
    ensures x !in done ==> multiset(done + {x}) == multiset(done) + multiset{x}
  {
  }

  lemma HistoryAtRun(c: Config, s: State, a: Action)
    requires Inv(c, s) && Enabled(c, s, a) && (a.SetCache? || a.PublishCompletion?)
    ensures var s' := Do(c, s, a);
            && s'.started == BagOf(s'.threads, ThreadRuns) + multiset(s'.finished)
            && s'.notified == multiset(s'.finished)
  {
    RunsGainOrLose(c, s, a);
    var x, s' := Top(s.threads[a.t]).phase.task, Do(c, s, a);
    Shift(s.started, BagOf(s.threads, ThreadRuns), BagOf(s'.threads, ThreadRuns), s.finished, x);
    if a.PublishCompletion? {
      PublishesOnce(c, s, a);
    }
  }

  lemma HistoryStep(c: Config, s: State, a: Action)
    requires Inv(c, s) && Enabled(c, s, a)
    ensures var s' := Do(c, s, a);
            && s'.started == BagOf(s'.threads, ThreadRuns) + multiset(s'.finished)
            && s'.notified == multiset(s'.finished)
  {
    if a.SetCache? || a.PublishCompletion? {
      HistoryAtRun(c, s, a);
    } else {
      RunsGainOrLose(c, s, a);
    }
  }

  lemma ThreadsOkStep(c: Config, s: State, a: Action)
    requires Inv(c, s) && Enabled(c, s, a)
    ensures var s' := Do(c, s, a);
            && |s'.threads| == |s.threads|
            && forall t :: 0 <= t < |s'.threads| ==> ThreadOk(c, s'.threads[t], IsWorker(s', t))
  {
    var s' := Do(c, s, a);
    assert s'.threads == s.threads[a.t := Move(c, s, a)];
    ThreadStep(c, s, a);
    forall t | 0 <= t < |s'.threads|
      ensures ThreadOk(c, s'.threads[t], IsWorker(s', t))
    {
      assert ThreadOk(c, s.threads[t], IsWorker(s, t));
    }
  }

  lemma NamesStep(c: Config, s: State, a: Action)
    requires Inv(c, s) && Enabled(c, s, a)
    ensures var s' := Do(c, s, a);
            && |s'.queues| == |s.queues|
            && forall x, y :: x in s'.spawned && y in s'.spawned && x.id == y.id ==> x == y
  {
  }

  lemma InvStep(c: Config, s: State, a: Action)
    requires Inv(c, s) && Enabled(c, s, a)
    ensures Inv(c, Do(c, s, a))
  {
    var s' := Do(c, s, a);
    ThreadsOkStep(c, s, a);
    NamesStep(c, s, a);
    ConservationStep(c, s, a);
    HistoryStep(c, s, a);
    assert WellFormed(c, s');
  }

  lemma {:induction false} InvAlways(c: Config, s: State, acts: seq<Action>)
    requires Inv(c, s) && Possible(c, s, acts)
    ensures Inv(c, After(c, s, acts))
    decreases |acts|
  {
    if acts != [] {
      InvStep(c, s, acts[0]);
      InvAlways(c, Do(c, s, acts[0]), acts[1..]);
    }
  }

  lemma {:induction false} EmptyBag<S, T>(s: seq<S>, f: S -> multiset<T>)
    requires forall i :: 0 <= i < |s| ==> f(s[i]) == multiset{}
    ensures BagOf(s, f) == multiset{}
  {
    if s != [] {
      EmptyBag(s[1..], f);
    }
  }

  lemma InitialBags(stack: seq<Activation>, worker: bool)
    requires stack == [InitialActivation(worker)]
    ensures BagOf(stack, ActivationBag) == multiset{} && BagOf(stack, RunBag) == multiset{}
  {
    EmptyBag(stack, ActivationBag);
    EmptyBag(stack, RunBag);
  }

  lemma InitialThread(c: Config, th: Thread, worker: bool)
    requires th.stack == [InitialActivation(worker)]
    ensures ThreadOk(c, th, worker)
    ensures ThreadBag(th) == multiset{} && ThreadRuns(th) == multiset{}
  {
    InitialBags(th.stack, worker);
    assert ActivationOk(c, th.stack, 0, worker);
  }

  lemma InitInv(c: Config, s: State)
    requires Init(c, s)
    ensures Inv(c, s)
  {
    forall t | 0 <= t < |s.threads|
      ensures ThreadOk(c, s.threads[t], IsWorker(s, t))
      ensures ThreadBag(s.threads[t]) == multiset{} && ThreadRuns(s.threads[t]) == multiset{}
    {
      InitialThread(c, s.threads[t], IsWorker(s, t));
    }
    EmptyBag(s.threads, ThreadBag);
    EmptyBag(s.threads, ThreadRuns);
    EmptyBag(s.queues, QueueBag);
  }

  // ---------------------------------------------------------------- what every run keeps

  /** Where a task can be, and how often it can have run. */
  ghost predicate Conserved(s: State, x: Task) {
    var queued, held, done := BagOf(s.queues, QueueBag)[x], BagOf(s.threads, ThreadBag)[x], multiset(s.finished)[x];
    && queued + held + done == (if x in s.spawned then 1 else 0)
    && s.started[x] <= 1 && s.notified[x] <= 1
    && (x in s.finished <==> s.notified[x] == 1)
    && (x in s.finished ==> s.started[x] == 1)
  }

  lemma RunningIsCarried(c: Config, s: State)
    requires Inv(c, s)
    ensures forall t, i ::
              (0 <= t < |s.threads| && 0 <= i < |s.threads[t].stack| && Running(s.threads[t].stack[i]).Some?) ==>
                Carried(s.threads[t].stack[i]) == Running(s.threads[t].stack[i])
  {
    forall t, i | 0 <= t < |s.threads| && 0 <= i < |s.threads[t].stack| && Running(s.threads[t].stack[i]).Some?
      ensures Carried(s.threads[t].stack[i]) == Running(s.threads[t].stack[i])
    {
      assert ThreadOk(c, s.threads[t], IsWorker(s, t));
      assert ActivationOk(c, s.threads[t].stack, i, IsWorker(s, t));
    }
  }

  lemma InvConserves(c: Config, s: State, x: Task)
    requires Inv(c, s)
    ensures Conserved(s, x)
  {
    assert Places(s)[x] == multiset(s.spawned)[x];
    RunningIsCarried(c, s);
    RunsAreHeld(s.threads, x);
  }

  /**
   Task conservation: after any run every spawned task is in exactly one queue slot, on exactly one call stack, or
   finished; nothing else is anywhere; a task has run and been notified at most once, and exactly once when finished.
   */
  lemma TasksAreConserved(c: Config, s: State, acts: seq<Action>, x: Task)
    requires Init(c, s) && Possible(c, s, acts)
    ensures Conserved(After(c, s, acts), x)
  {
    InitInv(c, s);
    InvAlways(c, s, acts);
    InvConserves(c, After(c, s, acts), x);
  }

  /** A task that is running on a stack is carried by that stack. */
  lemma {:induction false} RunsAreCarried(stack: seq<Activation>, x: Task)
    requires forall i :: 0 <= i < |stack| && Running(stack[i]).Some? ==> Carried(stack[i]) == Running(stack[i])
    ensures BagOf(stack, RunBag)[x] <= BagOf(stack, ActivationBag)[x]
  {
    if stack != [] {
      RunsAreCarried(stack[1..], x);
    }
  }

  lemma {:induction false} RunsAreHeld(threads: seq<Thread>, x: Task)
    requires forall t, i :: 0 <= t < |threads| && 0 <= i < |threads[t].stack| && Running(threads[t].stack[i]).Some? ==>
               Carried(threads[t].stack[i]) == Running(threads[t].stack[i])
    ensures BagOf(threads, ThreadRuns)[x] <= BagOf(threads, ThreadBag)[x]
  {
    if threads != [] {
      RunsAreCarried(threads[0].stack, x);
      RunsAreHeld(threads[1..], x);
    }
  }

  /** The step by which thread `a.t` returns from a wait, nested or blocking, for `target`. */
  ghost predicate ReturnsFromWait(c: Config, s: State, a: Action, target: Task)
    requires Enabled(c, s, a)
  {
    && !a.Cancel?
    && |Move(c, s, a).stack| < |s.threads[a.t].stack|
    && (Top(s.threads[a.t]).kind.WaitFor? || Top(s.threads[a.t]).kind.Block?)
    && target == Top(s.threads[a.t]).kind.target
  }

  lemma WaitStep(c: Config, s: State, a: Action, target: Task)
    requires Inv(c, s) && Enabled(c, s, a) && ReturnsFromWait(c, s, a, target)
    ensures target in s.finished || CanBeWokenEarly(c, s, a.t, target)
  {
    var th := s.threads[a.t];
    assert ThreadOk(c, th, IsWorker(s, a.t));
    assert ActivationOk(c, th.stack, |th.stack| - 1, IsWorker(s, a.t));
  }

  /** Thread `t` is blocked on an event whose earlier notifier still owes its wake. */
  ghost predicate CanBeWokenEarly(c: Config, s: State, t: nat, target: Task)
    requires t < |s.threads| && s.threads[t].stack != []
  {
    Top(s.threads[t]).kind.Block? && c.waitable(target.id) && WakeOwed(c, s, target)
  }

  /**
   A wait returns only after its task has run once and been notified once.  A nested wait always does; a blocked one
   does unless the notifier of an earlier use of the same task object still owes its wake.
   */
  lemma WaitReturnsAfterCompletion(c: Config, s: State, acts: seq<Action>, a: Action, target: Task)
    requires Init(c, s) && Possible(c, s, acts) && Enabled(c, After(c, s, acts), a)
    requires ReturnsFromWait(c, After(c, s, acts), a, target)
    ensures var r := After(c, s, acts);
            || (target in r.finished && r.started[target] == 1 && r.notified[target] == 1)
            || CanBeWokenEarly(c, r, a.t, target)
  {
    InitInv(c, s);
    InvAlways(c, s, acts);
    WaitStep(c, After(c, s, acts), a, target);
    InvConserves(c, After(c, s, acts), target);
  }

  // ---------------------------------------------------------------- how completion events are used

  ghost predicate TargetsOk(s: State, th: Thread) {
    forall i :: 0 <= i < |th.stack| && Awaited(th.stack[i]).Some? ==> Awaited(th.stack[i]).value in s.spawned
  }

  /** Only spawned tasks are waited for. */
  ghost predicate AwaitedAreSpawned(s: State) {
    forall t :: 0 <= t < |s.threads| ==> TargetsOk(s, s.threads[t])
  }

  lemma OwnTargets(c: Config, s: State, a: Action)
    requires Enabled(c, s, a) && TargetsOk(s, s.threads[a.t])
    ensures TargetsOk(s, Move(c, s, a))
  {
    StackShape(c, s, a);
    var th, th' := s.threads[a.t], Move(c, s, a);
    if !a.Cancel? {
      assert Awaited(Top(th)).Some? ==> Awaited(Top(th)).value in s.spawned;
    }
  }

  lemma AwaitedStep(c: Config, s: State, a: Action)
    requires Enabled(c, s, a) && AwaitedAreSpawned(s)
    ensures AwaitedAreSpawned(Do(c, s, a))
  {
    var s' := Do(c, s, a);
    OwnTargets(c, s, a);
    assert s.spawned <= s'.spawned;
    forall t | 0 <= t < |s'.threads|
      ensures TargetsOk(s', s'.threads[t])
    {
      assert TargetsOk(s, s'.threads[t]);
    }
  }

  lemma {:induction false} AwaitedAlways(c: Config, s: State, acts: seq<Action>)
    requires Possible(c, s, acts) && AwaitedAreSpawned(s)
    ensures AwaitedAreSpawned(After(c, s, acts))
    decreases |acts|
  {
    if acts != [] {
      AwaitedStep(c, s, acts[0]);
      AwaitedAlways(c, Do(c, s, acts[0]), acts[1..]);
    }
  }

  lemma InitAwaited(c: Config, s: State)
    requires Init(c, s)
    ensures AwaitedAreSpawned(s)
  {
    forall t | 0 <= t < |s.threads|
      ensures TargetsOk(s, s.threads[t])
    {
      assert s.threads[t].stack == [InitialActivation(IsWorker(s, t))];
    }
  }

  /** Two spawns that have not finished and use the same task object. */
  ghost predicate LiveUse(c: Config, s: State, x: Task, y: Task) {
    && x in s.spawned && y in s.spawned && x !in s.finished && y !in s.finished
    && c.handle(x.id) == c.handle(y.id)
  }

  ghost predicate OneLiveUse(c: Config, s: State) {
    forall x, y :: LiveUse(c, s, x, y) ==> x == y
  }

  /** No task object is ever live twice. */
  lemma {:induction false} OneLiveUseAlways(c: Config, s: State, acts: seq<Action>)
    requires Possible(c, s, acts) && OneLiveUse(c, s)
    ensures OneLiveUse(c, After(c, s, acts))
    decreases |acts|
  {
    if acts != [] {
      OneLiveUseStep(c, s, acts[0]);
      OneLiveUseAlways(c, Do(c, s, acts[0]), acts[1..]);
    }
  }

  lemma OneLiveUseStep(c: Config, s: State, a: Action)
    requires Enabled(c, s, a) && OneLiveUse(c, s)
    ensures OneLiveUse(c, Do(c, s, a))
  {
    var s' := Do(c, s, a);
    forall x, y | LiveUse(c, s', x, y)
      ensures x == y
    {
      assert a.CallSpawn? ==> ObjectIsFree(c, s, a.task);
      assert x in s.spawned && y in s.spawned ==> LiveUse(c, s, x, y);
    }
  }

  ghost predicate Notifies(c: Config, s: State, a: Action, x: Task)
    requires Enabled(c, s, a)
  {
    a.PublishCompletion? && Top(s.threads[a.t]).phase.task == x
  }

  ghost predicate NobodyUses(s: State, x: Task) {
    && x !in s.finished
    && forall t, i :: 0 <= t < |s.threads| && 0 <= i < |s.threads[t].stack| ==>
        Awaited(s.threads[t].stack[i]) != Some(x)
  }

  lemma SpawnResetsUnused(c: Config, s: State, a: Action)
    requires Inv(c, s) && AwaitedAreSpawned(s) && Enabled(c, s, a) && a.CallSpawn?
    ensures NobodyUses(s, a.task)
  {
    assert a.task !in s.spawned;
    NobodyAwaits(s, a.task);
    InvConserves(c, s, a.task);
  }

  lemma OnlyNotificationCompletes(c: Config, s: State, a: Action, x: Task)
    requires Enabled(c, s, a)
    ensures x in Do(c, s, a).finished <==> x in s.finished || Notifies(c, s, a, x)
  {
  }

  ghost predicate ProperUse(c: Config, s: State, a: Action, x: Task)
    requires Enabled(c, s, a)
  {
    && (a.CallSpawn? && a.task == x ==> NobodyUses(s, x))
    && (Notifies(c, s, a, x) ==> x !in s.finished)
    && (x in Do(c, s, a).finished <==> x in s.finished || Notifies(c, s, a, x))
    && OneLiveUse(c, s)
  }

  lemma InvMeansProperUse(c: Config, s: State, a: Action, x: Task)
    requires Inv(c, s) && AwaitedAreSpawned(s) && OneLiveUse(c, s) && Enabled(c, s, a)
    ensures ProperUse(c, s, a, x)
  {
    OnlyNotificationCompletes(c, s, a, x);
    if a.CallSpawn? {
      SpawnResetsUnused(c, s, a);
    } else if a.PublishCompletion? {
      PublishesOnce(c, s, a);
    }
  }

  /**
   How the scheduler uses completion events, in every run whose callers respawn a task object only after its last use
   and its waits are over: an event is reset, by a spawn, while nobody waits on it; it is notified once, while it is
   incomplete; only that notification completes it; and no object is live twice.  These are the rules of
   `CompletionEvent`.  They do not include that the last notifier has issued its wake, and the code does not see to it.
   */
  lemma EventsAreUsedProperly(c: Config, s: State, acts: seq<Action>, a: Action, x: Task)
    requires Init(c, s) && Possible(c, s, acts) && Enabled(c, After(c, s, acts), a)
    ensures ProperUse(c, After(c, s, acts), a, x)
  {
    InitInv(c, s);
    InvAlways(c, s, acts);
    InitAwaited(c, s);
    AwaitedAlways(c, s, acts);
    OneLiveUseAlways(c, s, acts);
    InvMeansProperUse(c, After(c, s, acts), a, x);
  }

  lemma NobodyAwaits(s: State, x: Task)
    requires AwaitedAreSpawned(s) && x !in s.spawned
    ensures forall t, i :: 0 <= t < |s.threads| && 0 <= i < |s.threads[t].stack| ==>
              Awaited(s.threads[t].stack[i]) != Some(x)
  {
    forall t, i | 0 <= t < |s.threads| && 0 <= i < |s.threads[t].stack|
      ensures Awaited(s.threads[t].stack[i]) != Some(x)
    {
      assert TargetsOk(s, s.threads[t]);
    }
  }

  /** The cache of a worker describes the innermost task whenever user code runs on it, at any nesting depth. */
  lemma CacheDescribesInnermostTask(c: Config, s: State, acts: seq<Action>, t: nat)
    requires Init(c, s) && Possible(c, s, acts)
    requires var r := After(c, s, acts);
             t < |r.threads| && r.threads[t].stack != [] && Top(r.threads[t]).phase.Run?
    ensures var th := After(c, s, acts).threads[t];
            th.cache == Top(th).phase.task.desc
  {
    InitInv(c, s);
    InvAlways(c, s, acts);
    assert ThreadOk(c, After(c, s, acts).threads[t], IsWorker(After(c, s, acts), t));
  }

  // ---------------------------------------------------------------- nesting order

  /** The activation at `i` runs its task directly on top of the task at `i - 1`. */
  lemma AdjacentTasks(c: Config, th: Thread, worker: bool, i: nat)
    requires ThreadOk(c, th, worker) && 0 < i < |th.stack| && th.stack[i].phase.Run?
    ensures th.stack[i - 1].phase.Run?
    ensures var below, above := th.stack[i - 1].phase.task.desc, th.stack[i].phase.task.desc;
            && (th.stack[i].kind.WaitFor? || th.stack[i].kind.Steal?)
            && Accepts(c.policy, c.lt, if th.stack[i].kind.WaitFor? then Waiting(below) else Grouped(below), above)
  {
    assert ActivationOk(c, th.stack, i, worker);
  }

  /** Under prioS priorities strictly increase from the bottom of a stack to its top. */
  lemma {:induction false} PrioritiesIncrease(c: Config, th: Thread, worker: bool, i: nat, j: nat)
    requires c.policy.Prio? && StrictWeakOrder(c.lt) && ThreadOk(c, th, worker)
    requires i < j < |th.stack| && th.stack[i].phase.Run? && th.stack[j].phase.Run?
    ensures c.lt(th.stack[i].phase.task.desc.priority, th.stack[j].phase.task.desc.priority)
    decreases j - i
  {
    AdjacentTasks(c, th, worker, j);
    if i < j - 1 {
      PrioritiesIncrease(c, th, worker, i, j - 1);
    }
  }

  /** Under cilkS levels never decrease from the bottom of a stack to its top. */
  lemma {:induction false} LevelsDoNotDecrease(c: Config, th: Thread, worker: bool, i: nat, j: nat)
    requires c.policy.Cilk? && ThreadOk(c, th, worker)
    requires i < j < |th.stack| && th.stack[i].phase.Run? && th.stack[j].phase.Run?
    ensures th.stack[i].phase.task.desc.level <= th.stack[j].phase.task.desc.level
    decreases j - i
  {
    AdjacentTasks(c, th, worker, j);
    if i < j - 1 {
      LevelsDoNotDecrease(c, th, worker, i, j - 1);
    }
  }

  /** The priorities of the tasks at and below `n` on a stack. */
  ghost function PrioritiesUpTo(th: Thread, n: nat): set<int>
    requires n <= |th.stack| && forall i :: 0 <= i < n ==> th.stack[i].phase.Run?
  {
    set i | 0 <= i < n :: th.stack[i].phase.task.desc.priority
  }

  /** All of them are different, so there are as many as there are tasks. */
  lemma {:induction false} DistinctPriorities(c: Config, th: Thread, worker: bool, n: nat)
    requires c.policy.Prio? && StrictWeakOrder(c.lt) && ThreadOk(c, th, worker)
    requires n <= |th.stack| && forall i :: 0 <= i < n ==> th.stack[i].phase.Run?
    ensures |PrioritiesUpTo(th, n)| == n
  {
    if n > 0 {
      DistinctPriorities(c, th, worker, n - 1);
      PriorityIsNew(c, th, worker, n - 1);
      OneMorePriority(th, n - 1);
    }
  }

  lemma OneMorePriority(th: Thread, n: nat)
    requires n < |th.stack| && forall i :: 0 <= i <= n ==> th.stack[i].phase.Run?
    ensures PrioritiesUpTo(th, n + 1) == PrioritiesUpTo(th, n) + {th.stack[n].phase.task.desc.priority}
  {
  }

  lemma PriorityIsNew(c: Config, th: Thread, worker: bool, n: nat)
    requires c.policy.Prio? && StrictWeakOrder(c.lt) && ThreadOk(c, th, worker)
    requires n < |th.stack| && forall i :: 0 <= i <= n ==> th.stack[i].phase.Run?
    ensures th.stack[n].phase.task.desc.priority !in PrioritiesUpTo(th, n)
  {
    forall i | 0 <= i < n
      ensures th.stack[i].phase.task.desc.priority != th.stack[n].phase.task.desc.priority
    {
      PrioritiesIncrease(c, th, worker, i, n);
    }
  }

  /** Every task on a stack is a spawned task. */
  lemma {:induction false} StackTasksAreSpawned(threads: seq<Thread>, t: nat, i: nat)
    requires t < |threads| && i < |threads[t].stack| && Carried(threads[t].stack[i]).Some?
    ensures Carried(threads[t].stack[i]).value in BagOf(threads, ThreadBag)
  {
    if t > 0 {
      StackTasksAreSpawned(threads[1..], t - 1, i);
    } else {
      InStackBag(threads[0].stack, i);
    }
  }

  lemma {:induction false} InStackBag(stack: seq<Activation>, i: nat)
    requires i < |stack| && Carried(stack[i]).Some?
    ensures Carried(stack[i]).value in BagOf(stack, ActivationBag)
  {
    if i > 0 {
      InStackBag(stack[1..], i - 1);
    }
  }

  /**
   Nesting in every run.  Under prioS priorities strictly increase up a stack and the depth of nested tasks is at most
   the number of priorities in use; under cilkS levels never decrease; and a task run from a barrier is not of the
   group of the task directly below it.
   */
  lemma NestingIsOrdered(c: Config, s: State, acts: seq<Action>, t: nat)
    requires Init(c, s) && Possible(c, s, acts) && t < |After(c, s, acts).threads|
    requires c.policy.Prio? ==> StrictWeakOrder(c.lt)
    ensures var r := After(c, s, acts);
            var stack := r.threads[t].stack;
            && (c.policy.Prio? ==>
                  forall i, j :: 0 <= i < j < |stack| && stack[i].phase.Run? && stack[j].phase.Run? ==>
                    c.lt(stack[i].phase.task.desc.priority, stack[j].phase.task.desc.priority))
            && (c.policy.Cilk? ==>
                  forall i, j :: 0 <= i < j < |stack| && stack[i].phase.Run? && stack[j].phase.Run? ==>
                    stack[i].phase.task.desc.level <= stack[j].phase.task.desc.level)
            && (forall i :: 0 < i < |stack| && stack[i].kind.Steal? && stack[i].phase.Run? ==>
                  stack[i - 1].phase.Run? && stack[i].phase.task.desc.group != stack[i - 1].phase.task.desc.group)
  {
    InitInv(c, s);
    InvAlways(c, s, acts);
    var r := After(c, s, acts);
    var th, worker := r.threads[t], IsWorker(r, t);
    forall i, j | 0 <= i < j < |th.stack| && th.stack[i].phase.Run? && th.stack[j].phase.Run?
      ensures c.policy.Prio? ==> c.lt(th.stack[i].phase.task.desc.priority, th.stack[j].phase.task.desc.priority)
      ensures c.policy.Cilk? ==> th.stack[i].phase.task.desc.level <= th.stack[j].phase.task.desc.level
    {
      if c.policy.Prio? {
        PrioritiesIncrease(c, th, worker, i, j);
      } else if c.policy.Cilk? {
        LevelsDoNotDecrease(c, th, worker, i, j);
      }
    }
    forall i | 0 < i < |th.stack| && th.stack[i].kind.Steal? && th.stack[i].phase.Run?
      ensures th.stack[i - 1].phase.Run? && th.stack[i].phase.task.desc.group != th.stack[i - 1].phase.task.desc.group
    {
      AdjacentTasks(c, th, worker, i);
    }
  }

  /** Under prioS a worker never nests more tasks than there are priorities among the tasks spawned so far. */
  lemma DepthIsBoundedByPriorities(c: Config, s: State, acts: seq<Action>, t: nat, n: nat)
    requires Init(c, s) && Possible(c, s, acts) && c.policy.Prio? && StrictWeakOrder(c.lt)
    requires t < |After(c, s, acts).threads| && n <= |After(c, s, acts).threads[t].stack|
    requires forall i :: 0 <= i < n ==> After(c, s, acts).threads[t].stack[i].phase.Run?
    ensures n <= |set x | x in After(c, s, acts).spawned :: x.desc.priority|
  {
    InitInv(c, s);
    InvAlways(c, s, acts);
    var r := After(c, s, acts);
    var th, worker := r.threads[t], IsWorker(r, t);
    DistinctPriorities(c, th, worker, n);
    var inUse := set x | x in r.spawned :: x.desc.priority;
    forall i | 0 <= i < n
      ensures th.stack[i].phase.task.desc.priority in inUse
    {
      RunningTaskIsSpawned(c, r, t, i);
    }
    SubsetSize(PrioritiesUpTo(th, n), inUse);
  }

  lemma RunningTaskIsSpawned(c: Config, s: State, t: nat, i: nat)
    requires Inv(c, s) && t < |s.threads| && i < |s.threads[t].stack| && s.threads[t].stack[i].phase.Run?
    ensures s.threads[t].stack[i].phase.task in s.spawned
  {
    assert ThreadOk(c, s.threads[t], IsWorker(s, t));
    assert ActivationOk(c, s.threads[t].stack, i, IsWorker(s, t));
    StackTasksAreSpawned(s.threads, t, i);
    OnStackNotFinished(c, s, s.threads[t].stack[i].phase.task);
  }
}
