/**
 The task manager (pfunc/taskmgr.hpp, task.hpp) as a step machine: spawning, the regulated search for a task, running,
 notifying, and the nested execution of other tasks from waits and group barriers.

 Every worker thread has a stack of activations of scheduler code.  All activations but the top one are at the point
 where they run the user code of a task; the top one is where the thread is.  The last thread is the main program,
 which spawns and waits but never runs tasks.  Queue visits are atomic because they happen under the queue's lock.
 A `Task` stands for one spawn; `handle` says which task object it uses and `waitable` which of the object's two events.
 The event is complete once the task is in `finished`; the notifier of a waitable event wakes the sleepers in a further
 step, and until it has done so a blocked wait on a later use of the same object can return early.
 The machine allows any number of attempts between two completion tests.
 */
module Scheduler {
  import opened Common
  import opened Policies
  import opened TaskQueues

  datatype Kind =
    | Worker                                      // the endless loop of a worker thread
    | WaitFor(target: Task, saved: Descriptor)    // progress_wait
    | Steal(saved: Descriptor)                    // progress_barrier
    | Block(target: Task)                         // a wait that runs nothing
    | Spawn(task: Task, queue: nat)               // spawn_task, before the task is in a queue
    | MainProgram

  datatype Phase =
    | Test                       // get_task: about to test for completion
    | Visit(k: nat)              // get: about to visit the k-th queue of the scan
    | Retest(got: Option<Task>)  // get_task: about to test for completion a second time
    | Hold(task: Task)           // get_task has returned a task, the cache is not set yet
    | Run(task: Task)            // the task's function is running
    | Notify(task: Task)         // the function has returned, completion is not published yet
    | Wake(task: Task)           // completion is published, the sleepers are not woken yet
    | Restore                    // about to restore the cache
    | Pending                    // of a blocked wait or a spawn
    | User                       // of the main program

  datatype Activation = Activation(kind: Kind, phase: Phase)

  datatype Thread = Thread(stack: seq<Activation>, cache: Descriptor, cancelled: bool)

  /** `homes[t]` is the queue of thread `t`; `started` and `notified` count how often a task ran and was notified. */
  datatype State = State(
    queues: seq<Queue>, threads: seq<Thread>, spawned: set<Task>, finished: set<Task>,
    started: multiset<Task>, notified: multiset<Task>)

  datatype Config = Config(
    policy: Policy, lt: (int, int) -> bool, homes: seq<nat>, handle: nat -> nat, waitable: nat -> bool)

  datatype Action =
    | CallSpawn(t: nat, task: Task, queue: nat)
    | Put(t: nat)
    | CallWait(t: nat, target: Task)
    | CallBlock(t: nat, target: Task)
    | Unblock(t: nat)
    | CallBarrier(t: nat)
    | TestCompletion(t: nat, more: bool)
    | Take(t: nat, index: nat)
    | Refuse(t: nat)
    | RetestCompletion(t: nat)
    | SetCache(t: nat)
    | FinishRun(t: nat)
    | PublishCompletion(t: nat)
    | IssueWake(t: nat)
    | RestoreCache(t: nat)
    | Cancel(t: nat)

  predicate UserCode(a: Activation) {
    a.phase.Run? || a.phase.User?
  }

  predicate IsWorker(s: State, t: nat) {
    t < |s.threads| - 1
  }

  function Top(th: Thread): Activation
    requires th.stack != []
  {
    th.stack[|th.stack| - 1]
  }

  function Below(th: Thread): seq<Activation>
    requires th.stack != []
  {
    th.stack[..|th.stack| - 1]
  }

  /** The predicate pair an activation hands to the queues. */
  function PointOf(kind: Kind): Point {
    match kind
    case WaitFor(_, saved) => Waiting(saved)
    case Steal(saved) => Grouped(saved)
    case _ => Regular
  }

  /** The completion predicate: cancellation for a worker, the target's event for a wait. */
  predicate Complete(s: State, t: nat, kind: Kind)
    requires t < |s.threads|
  {
    match kind
    case WaitFor(target, _) => target in s.finished
    case _ => s.threads[t].cancelled
  }

  /** Whose completion an activation waits for. */
  function Awaited(a: Activation): Option<Task> {
    if a.kind.WaitFor? || a.kind.Block? then Some(a.kind.target) else None
  }

  /** What a caller has to see to before it spawns into a task object again: its last use is over, and nobody waits. */
  ghost predicate ObjectIsFree(c: Config, s: State, x: Task) {
    && (forall y :: y in s.spawned && c.handle(y.id) == c.handle(x.id) ==> y in s.finished)
    && (forall t, i :: 0 <= t < |s.threads| && 0 <= i < |s.threads[t].stack| ==>
          match Awaited(s.threads[t].stack[i])
          case Some(y) => c.handle(y.id) != c.handle(x.id)
          case None => true)
  }

  /** Some notifier has yet to wake the sleepers of an earlier use of the object of `x`. */
  ghost predicate WakeOwed(c: Config, s: State, x: Task) {
    exists t :: 0 <= t < |s.threads| && OwesWake(c, s.threads[t], x)
  }

  predicate OwesWake(c: Config, th: Thread, x: Task) {
    && th.stack != [] && Top(th).phase.Wake?
    && c.waitable(Top(th).phase.task.id) && c.handle(Top(th).phase.task.id) == c.handle(x.id)
  }

  ghost predicate WellFormed(c: Config, s: State) {
    && |s.queues| > 0
    && |c.homes| == |s.threads| > 0
    && forall t :: 0 <= t < |c.homes| ==> c.homes[t] < |s.queues|
  }

  function VisitedQueue(c: Config, s: State, t: nat): (i: nat)
    requires t < |s.threads| == |c.homes| && |s.queues| > 0 && s.threads[t].stack != [] &&
              Top(s.threads[t]).phase.Visit?
    ensures i < |s.queues|
  {
    Visited(c.homes[t], Top(s.threads[t]).phase.k, |s.queues|)
  }

  ghost predicate Enabled(c: Config, s: State, a: Action) {
    && WellFormed(c, s)
    && a.t < |s.threads|
    && (a.Cancel? || s.threads[a.t].stack != [])
    && (a.Cancel? ||
        var th, top := s.threads[a.t], Top(s.threads[a.t]);
        match a
        case CallSpawn(_, x, q) =>
          && UserCode(top) && q < |s.queues| && ObjectIsFree(c, s, x)
          && forall y :: y in s.spawned ==> y.id != x.id
        case Put(_) => top.kind.Spawn? && top.kind.queue < |s.queues|
        case CallWait(t, x) => IsWorker(s, t) && UserCode(top) && x in s.spawned && !c.waitable(x.id)
        case CallBlock(_, x) => UserCode(top) && x in s.spawned
        case Unblock(_) =>
          && top.kind.Block?
          && (top.kind.target in s.finished || (c.waitable(top.kind.target.id) && WakeOwed(c, s, top.kind.target)))
        case CallBarrier(t) => IsWorker(s, t) && UserCode(top)
        case TestCompletion(_, _) => top.phase.Test?
        case Take(t, index) =>
          && top.phase.Visit?
          && var i := VisitedQueue(c, s, t);
             && IsEnd(c.policy, c.lt, s.queues[i], i == c.homes[t], index)
             && Accepts(c.policy, c.lt, PointOf(top.kind), s.queues[i][index].desc)
        case Refuse(t) =>
          && top.phase.Visit?
          && var i := VisitedQueue(c, s, t);
             Refuses(c.policy, c.lt, PointOf(top.kind), s.queues[i], i == c.homes[t])
        case RetestCompletion(_) => top.phase.Retest?
        case SetCache(_) => top.phase.Hold?
        case FinishRun(_) => top.phase.Run?
        case PublishCompletion(_) => top.phase.Notify?
        case IssueWake(_) => top.phase.Wake?
        case RestoreCache(_) => top.phase.Restore? && (top.kind.WaitFor? || top.kind.Steal?))
  }

  function SetThread(s: State, t: nat, th: Thread): State
    requires t < |s.threads|
  {
    s.(threads := s.threads[t := th])
  }

  function Push(th: Thread, a: Activation): Thread {
    th.(stack := th.stack + [a])
  }

  function Pop(th: Thread): Thread
    requires th.stack != []
  {
    th.(stack := Below(th))
  }

  function Goto(th: Thread, phase: Phase): Thread
    requires th.stack != []
  {
    th.(stack := Below(th) + [Activation(Top(th).kind, phase)])
  }

  /** Where an activation goes on when the task it ran has been notified. */
  function AfterNotify(kind: Kind): Phase {
    if kind.Worker? then Test else Restore
  }

  /** The new state of the thread that acts. */
  ghost function Move(c: Config, s: State, a: Action): Thread
    requires Enabled(c, s, a)
  {
    var th := s.threads[a.t];
    match a
    case CallSpawn(_, x, q) => Push(th, Activation(Spawn(x, q), Pending))
    case Put(_) => Pop(th)
    case CallWait(_, x) => Push(th, Activation(WaitFor(x, th.cache), Test))
    case CallBlock(_, x) => Push(th, Activation(Block(x), Pending))
    case Unblock(_) => Pop(th)
    case CallBarrier(_) => Push(th, Activation(Steal(th.cache), Visit(0)))
    case TestCompletion(t, more) =>
      Goto(th, if Complete(s, t, Top(th).kind) || !more then Retest(None) else Visit(0))
    case Take(t, index) =>
      var x := s.queues[VisitedQueue(c, s, t)][index];
      Goto(th, if Top(th).kind.Steal? then Hold(x) else Retest(Some(x)))
    case Refuse(_) =>
      var k := Top(th).phase.k;
      if k + 1 < |s.queues| then Goto(th, Visit(k + 1))
      else if Top(th).kind.Steal? then Pop(th)
      else Goto(th, Test)
    case RetestCompletion(t) =>
      var got := Top(th).phase.got;
      if Complete(s, t, Top(th).kind) || got.Some? then
        match got case Some(x) => Goto(th, Hold(x)) case None => Pop(th)
      else Goto(th, Test)
    case SetCache(_) => var x := Top(th).phase.task; Goto(th, Run(x)).(cache := x.desc)
    case FinishRun(_) => Goto(th, Notify(Top(th).phase.task))
    case PublishCompletion(_) =>
      var x := Top(th).phase.task;
      Goto(th, if c.waitable(x.id) then Wake(x) else AfterNotify(Top(th).kind))
    case IssueWake(_) => Goto(th, AfterNotify(Top(th).kind))
    case RestoreCache(_) =>
      (if Top(th).kind.Steal? then Pop(th) else Goto(th, Test)).(cache := Top(th).kind.saved)
    case Cancel(_) => th.(cancelled := true)
  }

  ghost function Do(c: Config, s: State, a: Action): State
    requires Enabled(c, s, a)
  {
    var s1 := SetThread(s, a.t, Move(c, s, a));
    match a
    case CallSpawn(_, x, _) => s1.(spawned := s.spawned + {x})
    case Put(t) =>
      var k := Top(s.threads[t]).kind;
      s1.(queues := s.queues[k.queue := Insert(c.policy, s.queues[k.queue], k.task)])
    case Take(t, index) =>
      var i := VisitedQueue(c, s, t);
      s1.(queues := s.queues[i := RemoveAt(s.queues[i], index)])
    case SetCache(t) => s1.(started := s.started + multiset{Top(s.threads[t]).phase.task})
    case PublishCompletion(t) =>
      var x := Top(s.threads[t]).phase.task;
      s1.(finished := s.finished + {x}, notified := s.notified + multiset{x})
    case _ => s1
  }

  function InitialActivation(worker: bool): Activation {
    if worker then Activation(Worker, Test) else Activation(MainProgram, User)
  }

  ghost predicate Init(c: Config, s: State) {
    && WellFormed(c, s)
    && (forall i :: 0 <= i < |s.queues| ==> s.queues[i] == [])
    && s.spawned == {} && s.finished == {} && s.started == multiset{} && s.notified == multiset{}
    && (forall t :: 0 <= t < |s.threads| ==> s.threads[t].stack == [InitialActivation(IsWorker(s, t))])
  }

  ghost predicate Possible(c: Config, s: State, acts: seq<Action>)
    decreases |acts|
  {
    acts == [] || (Enabled(c, s, acts[0]) && Possible(c, Do(c, s, acts[0]), acts[1..]))
  }

  ghost function After(c: Config, s: State, acts: seq<Action>): State
    requires Possible(c, s, acts)
    decreases |acts|
  {
    if acts == [] then s else After(c, Do(c, s, acts[0]), acts[1..])
  }

  // ---------------------------------------------------------------- the call stacks

  /** The task an activation is responsible for. */
  function Carried(a: Activation): Option<Task> {
    if a.kind.Spawn? then Some(a.kind.task)
    else
      match a.phase
      case Retest(got) => got
      case Hold(x) => Some(x)
      case Run(x) => Some(x)
      case Notify(x) => Some(x)
      case _ => None
  }

  /** An activation that runs tasks on top of the task below it: the copy it saved, and whom it may run. */
  predicate NestedOk(c: Config, stack: seq<Activation>, i: nat, saved: Descriptor)
    requires i < |stack|
  {
    && i > 0 && stack[i - 1].phase.Run?
    && saved == stack[i - 1].phase.task.desc
    && !stack[i].phase.Pending? && !stack[i].phase.User?
    && (Carried(stack[i]).Some? ==> Accepts(c.policy, c.lt, PointOf(stack[i].kind), Carried(stack[i]).value.desc))
  }

  predicate ActivationOk(c: Config, stack: seq<Activation>, i: nat, worker: bool)
    requires i < |stack|
  {
    match stack[i].kind
    case Worker => worker && i == 0 && !stack[i].phase.Pending? && !stack[i].phase.User? && !stack[i].phase.Restore?
    case MainProgram => !worker && i == 0 && stack[i].phase.User?
    case WaitFor(_, saved) => worker && NestedOk(c, stack, i, saved)
    case Steal(saved) => worker && NestedOk(c, stack, i, saved) && !stack[i].phase.Test? && !stack[i].phase.Retest?
    case Block(_) => i > 0 && stack[i].phase.Pending?
    case Spawn(_, _) => i > 0 && stack[i].phase.Pending?
  }

  /** What the cache holds, depending on where the thread is. */
  predicate CacheOk(stack: seq<Activation>, cache: Descriptor)
    requires stack != []
  {
    var n := |stack|;
    var top := stack[n - 1];
    match top.phase
    case Run(x) => cache == x.desc
    case Notify(x) => cache == x.desc
    case Pending => n > 1 && (stack[n - 2].phase.Run? ==> cache == stack[n - 2].phase.task.desc)
    case Wake(_) => true
    case Restore => true
    case User => true
    case _ => top.kind.WaitFor? || top.kind.Steal? ==> cache == top.kind.saved
  }

  ghost predicate ThreadOk(c: Config, th: Thread, worker: bool) {
    && (forall i :: 0 <= i < |th.stack| - 1 ==> UserCode(th.stack[i]))
    && (forall i :: 0 <= i < |th.stack| ==> ActivationOk(c, th.stack, i, worker))
    && (th.stack != [] ==> CacheOk(th.stack, th.cache))
  }

  /** An activation is judged by itself and the one below it. */
  lemma ActivationFrame(c: Config, stack: seq<Activation>, stack': seq<Activation>, i: nat, worker: bool)
    requires i < |stack| && i < |stack'| && stack'[i] == stack[i] && (i > 0 ==> stack'[i - 1] == stack[i - 1])
    requires ActivationOk(c, stack, i, worker)
    ensures ActivationOk(c, stack', i, worker)
  {
  }

  lemma PushOk(c: Config, th: Thread, a: Activation, worker: bool)
    requires ThreadOk(c, th, worker) && th.stack != [] && UserCode(Top(th))
    requires ActivationOk(c, th.stack + [a], |th.stack|, worker) && CacheOk(th.stack + [a], th.cache)
    ensures ThreadOk(c, Push(th, a), worker)
  {
    var stack := th.stack + [a];
    forall i | 0 <= i < |th.stack|
      ensures ActivationOk(c, stack, i, worker) && UserCode(stack[i])
    {
      ActivationFrame(c, th.stack, stack, i, worker);
    }
  }

  lemma PopOk(c: Config, th: Thread, cache: Descriptor, worker: bool)
    requires ThreadOk(c, th, worker) && th.stack != []
    requires |th.stack| > 1 && th.stack[|th.stack| - 2].phase.Run? ==> cache == th.stack[|th.stack| - 2].phase.task.desc
    ensures ThreadOk(c, Pop(th).(cache := cache), worker)
  {
    var stack := Below(th);
    forall i | 0 <= i < |stack|
      ensures ActivationOk(c, stack, i, worker) && UserCode(stack[i])
    {
      ActivationFrame(c, th.stack, stack, i, worker);
    }
  }

  lemma GotoOk(c: Config, th: Thread, phase: Phase, cache: Descriptor, worker: bool)
    requires ThreadOk(c, th, worker) && th.stack != []
    requires var stack := Goto(th, phase).stack;
             ActivationOk(c, stack, |stack| - 1, worker) && CacheOk(stack, cache)
    ensures ThreadOk(c, Goto(th, phase).(cache := cache), worker)
  {
    var stack := Goto(th, phase).stack;
    assert |stack| == |th.stack| && forall i :: 0 <= i < |stack| - 1 ==> stack[i] == th.stack[i];
    forall i | 0 <= i < |stack|
      ensures ActivationOk(c, stack, i, worker)
    {
      if i < |stack| - 1 {
        ActivationFrame(c, th.stack, stack, i, worker);
      }
    }
  }

  /** User code calls the scheduler: the cache still describes the caller. */
  lemma ThreadStepCall(c: Config, s: State, a: Action)
    requires Enabled(c, s, a) && ThreadOk(c, s.threads[a.t], IsWorker(s, a.t))
    requires a.CallSpawn? || a.CallWait? || a.CallBlock? || a.CallBarrier?
    ensures ThreadOk(c, Move(c, s, a), IsWorker(s, a.t))
  {
    var th, worker := s.threads[a.t], IsWorker(s, a.t);
    assert ActivationOk(c, th.stack, |th.stack| - 1, worker);
    var callee := Top(Move(c, s, a));
    assert Move(c, s, a) == Push(th, callee);
    PushOk(c, th, callee, worker);
  }

  /** The search for a task: a task that is taken has passed the predicate against the saved copy. */
  lemma ThreadStepSearch(c: Config, s: State, a: Action)
    requires Enabled(c, s, a) && ThreadOk(c, s.threads[a.t], IsWorker(s, a.t))
    requires a.TestCompletion? || a.Take? || a.Refuse? || a.RetestCompletion?
    ensures ThreadOk(c, Move(c, s, a), IsWorker(s, a.t))
  {
    if a.Take? {
      ThreadStepTake(c, s, a);
    } else {
      ThreadStepLook(c, s, a);
    }
  }

  lemma ThreadStepTake(c: Config, s: State, a: Action)
    requires Enabled(c, s, a) && ThreadOk(c, s.threads[a.t], IsWorker(s, a.t)) && a.Take?
    ensures ThreadOk(c, Move(c, s, a), IsWorker(s, a.t))
  {
    var th, worker := s.threads[a.t], IsWorker(s, a.t);
    assert ActivationOk(c, th.stack, |th.stack| - 1, worker);
    GotoOk(c, th, Top(Move(c, s, a)).phase, th.cache, worker);
  }

  lemma ThreadStepLook(c: Config, s: State, a: Action)
    requires Enabled(c, s, a) && ThreadOk(c, s.threads[a.t], IsWorker(s, a.t))
    requires a.TestCompletion? || a.Refuse? || a.RetestCompletion?
    ensures ThreadOk(c, Move(c, s, a), IsWorker(s, a.t))
  {
    var th, worker := s.threads[a.t], IsWorker(s, a.t);
    assert ActivationOk(c, th.stack, |th.stack| - 1, worker);
    if |Move(c, s, a).stack| < |th.stack| {
      PopOk(c, th, th.cache, worker);
    } else {
      ThreadStepStay(c, s, a);
    }
  }

  lemma ThreadStepStay(c: Config, s: State, a: Action)
    requires Enabled(c, s, a) && ThreadOk(c, s.threads[a.t], IsWorker(s, a.t))
    requires a.TestCompletion? || a.Refuse? || a.RetestCompletion?
    requires |Move(c, s, a).stack| >= |s.threads[a.t].stack|
    ensures ThreadOk(c, Move(c, s, a), IsWorker(s, a.t))
  {
    var th, worker := s.threads[a.t], IsWorker(s, a.t);
    assert ActivationOk(c, th.stack, |th.stack| - 1, worker);
    GotoOk(c, th, Top(Move(c, s, a)).phase, th.cache, worker);
  }

  /** Running a task: the cache follows it in, and is restored on the way out. */
  lemma ThreadStepRun(c: Config, s: State, a: Action)
    requires Enabled(c, s, a) && ThreadOk(c, s.threads[a.t], IsWorker(s, a.t))
    requires a.SetCache? || a.FinishRun? || a.PublishCompletion? || a.IssueWake? || a.RestoreCache?
    ensures ThreadOk(c, Move(c, s, a), IsWorker(s, a.t))
  {
    match a {
      case RestoreCache(_) => ThreadStepRestore(c, s, a);
      case SetCache(_) => ThreadStepSet(c, s, a);
      case FinishRun(_) => ThreadStepFinish(c, s, a);
      case PublishCompletion(_) => ThreadStepPublish(c, s, a);
      case IssueWake(_) => ThreadStepPublish(c, s, a);
    }
  }

  lemma ThreadStepSet(c: Config, s: State, a: Action)
    requires Enabled(c, s, a) && ThreadOk(c, s.threads[a.t], IsWorker(s, a.t)) && a.SetCache?
    ensures ThreadOk(c, Move(c, s, a), IsWorker(s, a.t))
  {
    var th, worker := s.threads[a.t], IsWorker(s, a.t);
    assert ActivationOk(c, th.stack, |th.stack| - 1, worker);
    GotoOk(c, th, Run(Top(th).phase.task), Top(th).phase.task.desc, worker);
  }

  lemma ThreadStepFinish(c: Config, s: State, a: Action)
    requires Enabled(c, s, a) && ThreadOk(c, s.threads[a.t], IsWorker(s, a.t)) && a.FinishRun?
    ensures ThreadOk(c, Move(c, s, a), IsWorker(s, a.t))
  {
    var th, worker := s.threads[a.t], IsWorker(s, a.t);
    assert ActivationOk(c, th.stack, |th.stack| - 1, worker);
    GotoOk(c, th, Notify(Top(th).phase.task), th.cache, worker);
  }

  lemma ThreadStepPublish(c: Config, s: State, a: Action)
    requires Enabled(c, s, a) && ThreadOk(c, s.threads[a.t], IsWorker(s, a.t))
    requires a.PublishCompletion? || a.IssueWake?
    ensures ThreadOk(c, Move(c, s, a), IsWorker(s, a.t))
  {
    var th, worker := s.threads[a.t], IsWorker(s, a.t);
    assert ActivationOk(c, th.stack, |th.stack| - 1, worker);
    GotoOk(c, th, Top(Move(c, s, a)).phase, th.cache, worker);
  }

  lemma ThreadStepRestore(c: Config, s: State, a: Action)
    requires Enabled(c, s, a) && ThreadOk(c, s.threads[a.t], IsWorker(s, a.t)) && a.RestoreCache?
    ensures ThreadOk(c, Move(c, s, a), IsWorker(s, a.t))
  {
    var th, worker := s.threads[a.t], IsWorker(s, a.t);
    assert ActivationOk(c, th.stack, |th.stack| - 1, worker);
    var saved := Top(th).kind.saved;
    if Top(th).kind.Steal? {
      PopOk(c, th, saved, worker);
    } else {
      GotoOk(c, th, Test, saved, worker);
    }
  }

  lemma ThreadStep(c: Config, s: State, a: Action)
    requires Enabled(c, s, a) && ThreadOk(c, s.threads[a.t], IsWorker(s, a.t))
    ensures ThreadOk(c, Move(c, s, a), IsWorker(s, a.t))
  {
    if a.Cancel? {
    } else if a.Put? || a.Unblock? {
      assert ActivationOk(c, s.threads[a.t].stack, |s.threads[a.t].stack| - 1, IsWorker(s, a.t));
      PopOk(c, s.threads[a.t], s.threads[a.t].cache, IsWorker(s, a.t));
    } else if a.CallSpawn? || a.CallWait? || a.CallBlock? || a.CallBarrier? {
      ThreadStepCall(c, s, a);
    } else if a.TestCompletion? || a.Take? || a.Refuse? || a.RetestCompletion? {
      ThreadStepSearch(c, s, a);
    } else {
      ThreadStepRun(c, s, a);
    }
  }
}
