/**
 The join tree of the parallel graph traversal (examples/cxx/while.cpp, pfunc/parallel_while.hpp).

 Every spawned task is a node below the task that spawned it and waits for it.  A task returns when it has nothing
 left to do and, if it spawned anything, when all of that has returned.  The program itself waits for the root, the walk
 over the edges of the start vertex.  The traversal proper is the machine of `GraphTraversal`, to which each step here
 projects.
 */
module TraversalJoin {
  import opened Common
  import T = GraphTraversal

  datatype Status =
    | Queued(job: T.Job)
    | Held(w: nat)          // run by a worker, and not yet at its wait
    | Waiting               // waiting for the tasks it spawned
    | Returned

  datatype Node = Node(parent: nat, status: Status)

  /** `owner[w]` is the task that worker `w` runs, if it is not free. */
  datatype State = State(base: T.State, owner: seq<nat>, nodes: seq<Node>)

  datatype Action =
    | Start(w: nat, i: nat)
    | Step(w: nat)
    | Return(i: nat)

  ghost predicate Init(g: T.Graph, start: nat, s: State) {
    && T.Init(g, start, s.base)
    && |s.owner| == |s.base.workers|
    && s.nodes == [Node(0, Queued(T.Walk(g[start])))]
  }

  /** All tasks spawned by task `i` have returned. */
  predicate ChildrenReturned(nodes: seq<Node>, i: nat) {
    forall j :: 0 < j < |nodes| && nodes[j].parent == i ==> nodes[j].status.Returned?
  }

  /** What worker `w` does next in the traversal. */
  function NextOf(s: T.State, w: nat): T.Action
    requires w < |s.workers|
  {
    match s.workers[w]
    case Counting(_) => T.Count(w)
    case Expanding(_) => T.SpawnWalk(w)
    case _ => T.SpawnVisit(w)
  }

  predicate Enabled(g: T.Graph, s: State, a: Action) {
    && |s.owner| == |s.base.workers|
    && match a
       case Start(w, i) =>
         i < |s.nodes| && s.nodes[i].status.Queued? && T.Enabled(g, s.base, T.Start(w, s.nodes[i].status.job))
       case Step(w) =>
         w < |s.owner| && s.owner[w] < |s.nodes| && !s.base.workers[w].Free? && T.Enabled(g, s.base, NextOf(s.base, w))
       case Return(i) => i < |s.nodes| && s.nodes[i].status.Waiting? && ChildrenReturned(s.nodes, i)
  }

  function SetStatus(nodes: seq<Node>, i: nat, status: Status): seq<Node>
    requires i < |nodes|
  {
    nodes[i := nodes[i].(status := status)]
  }

  function Do(g: T.Graph, s: State, a: Action): State
    requires Enabled(g, s, a)
  {
    match a
    case Start(w, i) =>
      var base' := T.Do(g, s.base, T.Start(w, s.nodes[i].status.job));
      State(base', s.owner[w := i], SetStatus(s.nodes, i, if base'.workers[w].Free? then Returned else Held(w)))
    case Step(w) =>
      var base' := T.Do(g, s.base, NextOf(s.base, w));
      var me := s.owner[w];
      (match s.base.workers[w]
       case Counting(_) =>
         State(base', s.owner, if base'.workers[w].Free? then SetStatus(s.nodes, me, Returned) else s.nodes)
       case Expanding(v) => State(base', s.owner, SetStatus(s.nodes, me, Waiting) + [Node(me, Queued(T.Walk(g[v])))])
       case Walking(rest) =>
         State(base', s.owner,
               if rest == [] then SetStatus(s.nodes, me, Waiting) else s.nodes + [Node(me, Queued(T.Visit(rest[0])))])
       case Free => s)
    case Return(i) => s.(nodes := SetStatus(s.nodes, i, Returned))
  }

  predicate Possible(g: T.Graph, s: State, acts: seq<Action>)
    decreases |acts|
  {
    acts == [] || (Enabled(g, s, acts[0]) && Possible(g, Do(g, s, acts[0]), acts[1..]))
  }

  function After(g: T.Graph, s: State, acts: seq<Action>): State
    requires Possible(g, s, acts)
    decreases |acts|
  {
    if acts == [] then s else After(g, Do(g, s, acts[0]), acts[1..])
  }

  /** Forgetting the tree gives a run of the traversal; returning is invisible to it. */
  lemma {:induction false} RunProjects(g: T.Graph, s: State, acts: seq<Action>) returns (run: seq<T.Action>)
    requires Possible(g, s, acts)
    ensures T.Possible(g, s.base, run) && T.After(g, s.base, run) == After(g, s, acts).base
    decreases |acts|
  {
    if acts == [] {
      run := [];
    } else {
      var rest := RunProjects(g, Do(g, s, acts[0]), acts[1..]);
      match acts[0] {
        case Return(_) => run := rest;
        case Start(w, i) => run := [T.Start(w, s.nodes[i].status.job)] + rest;
        case Step(w) => run := [NextOf(s.base, w)] + rest;
      }
      assert !acts[0].Return? ==> run[1..] == rest;
    }
  }

  // ---------------------------------------------------------------- invariant

  function QueuedJob(n: Node): multiset<T.Job> {
    match n.status case Queued(job) => multiset{job} case _ => multiset{}
  }

  /** The parent of task `j` walks its list, waits, or has returned after `j` did. */
  ghost predicate ChildOk(s: State, j: nat)
    requires j < |s.nodes|
  {
    var p := s.nodes[j].parent;
    && p < j
    && match s.nodes[p].status
       case Queued(_) => false
       case Held(w) => w < |s.owner| == |s.base.workers| && s.owner[w] == p && s.base.workers[w].Walking?
       case Waiting => true
       case Returned => s.nodes[j].status.Returned?
  }

  ghost predicate WorkerOk(s: State, w: nat)
    requires w < |s.owner| == |s.base.workers|
  {
    !s.base.workers[w].Free? ==> s.owner[w] < |s.nodes| && s.nodes[s.owner[w]].status == Held(w)
  }

  /** A task that is held is what its worker runs. */
  ghost predicate HeldOk(s: State, i: nat)
    requires i < |s.nodes|
  {
    match s.nodes[i].status
    case Held(w) => w < |s.owner| == |s.base.workers| && s.owner[w] == i && !s.base.workers[w].Free?
    case _ => true
  }

  ghost predicate Inv(s: State) {
    && |s.owner| == |s.base.workers| && |s.nodes| > 0
    && (forall i :: 0 <= i < |s.nodes| ==> HeldOk(s, i))
    && (forall w :: 0 <= w < |s.owner| ==> WorkerOk(s, w))
    && (forall j :: 0 < j < |s.nodes| ==> ChildOk(s, j))
    && s.base.pool == BagOf(s.nodes, QueuedJob)
  }

  lemma WorkersStep(g: T.Graph, s: State, a: Action, u: nat)
    requires Inv(s) && Enabled(g, s, a) && u < |s.owner|
    ensures var s' := Do(g, s, a); |s'.owner| == |s'.base.workers| == |s.owner| && WorkerOk(s', u)
  {
    assert WorkerOk(s, u);
    if a.Step? {
      assert WorkerOk(s, a.w);
      WorkerAtStep(g, s, a.w, u);
    }
  }

  lemma WorkerAtStep(g: T.Graph, s: State, w: nat, u: nat)
    requires Enabled(g, s, Step(w)) && u < |s.owner| && WorkerOk(s, u) && WorkerOk(s, w)
    ensures var s' := Do(g, s, Step(w)); |s'.owner| == |s'.base.workers| == |s.owner| && WorkerOk(s', u)
  {
    if u != w && !s.base.workers[u].Free? {
      StepShape(g, s, w, s.owner[u]);
    }
  }

  lemma HeldStep(g: T.Graph, s: State, a: Action, i: nat)
    requires Inv(s) && Enabled(g, s, a) && i < |Do(g, s, a).nodes|
    ensures HeldOk(Do(g, s, a), i)
  {
    match a {
      case Start(_, _) =>
        assert HeldOk(s, i);
      case Return(_) =>
        assert HeldOk(s, i);
      case Step(w) =>
        assert WorkerOk(s, w);
        if i < |s.nodes| {
          assert HeldOk(s, i);
          HeldAtStep(g, s, w, i);
        }
    }
  }

  lemma HeldAtStep(g: T.Graph, s: State, w: nat, i: nat)
    requires Enabled(g, s, Step(w)) && i < |s.nodes| && HeldOk(s, i) && WorkerOk(s, w)
    ensures HeldOk(Do(g, s, Step(w)), i)
  {
    if i == s.owner[w] {
      assert s.nodes[i].status == Held(w);
    } else {
      assert Do(g, s, Step(w)).nodes[i] == s.nodes[i];
    }
  }

  /** The tasks that were there keep their place under a parent that allows for them. */
  lemma ChildrenStep(g: T.Graph, s: State, a: Action, j: nat)
    requires Inv(s) && Enabled(g, s, a) && 0 < j < |s.nodes|
    ensures |Do(g, s, a).nodes| >= |s.nodes| && ChildOk(Do(g, s, a), j)
  {
    assert ChildOk(s, j);
    match a {
      case Start(_, _) => ChildAtStart(g, s, a, j);
      case Return(_) => ChildAtReturn(g, s, a, j);
      case Step(w) =>
        assert WorkerOk(s, w);
        ChildAtStep(g, s, w, j);
    }
  }

  lemma ChildAtStart(g: T.Graph, s: State, a: Action, j: nat)
    requires Enabled(g, s, a) && a.Start? && 0 < j < |s.nodes| && ChildOk(s, j)
    ensures ChildOk(Do(g, s, a), j)
  {
  }

  lemma ChildAtReturn(g: T.Graph, s: State, a: Action, j: nat)
    requires Enabled(g, s, a) && a.Return? && 0 < j < |s.nodes| && ChildOk(s, j)
    ensures ChildOk(Do(g, s, a), j)
  {
  }

  /** The nodes a step of worker `w` changes: its own, and perhaps a new one at the end. */
  lemma StepShape(g: T.Graph, s: State, w: nat, i: nat)
    requires Enabled(g, s, Step(w)) && i < |s.nodes| && WorkerOk(s, w)
    ensures var s' := Do(g, s, Step(w));
            && |s'.nodes| >= |s.nodes| && s'.nodes[i].parent == s.nodes[i].parent
            && (i != s.owner[w] ==> s'.nodes[i] == s.nodes[i])
            && (i == s.owner[w] && s.base.workers[w].Walking? ==>
                  s'.nodes[i].status.Waiting? || (s'.nodes[i] == s.nodes[i] && s'.base.workers[w].Walking?))
            && s'.owner == s.owner && |s'.base.workers| == |s.base.workers|
            && forall u :: 0 <= u < |s.owner| && u != w ==> s'.base.workers[u] == s.base.workers[u]
  {
  }

  lemma ChildAtStep(g: T.Graph, s: State, w: nat, j: nat)
    requires Enabled(g, s, Step(w)) && 0 < j < |s.nodes| && ChildOk(s, j) && WorkerOk(s, w)
    ensures |Do(g, s, Step(w)).nodes| >= |s.nodes| && ChildOk(Do(g, s, Step(w)), j)
  {
    StepShape(g, s, w, j);
    StepShape(g, s, w, s.nodes[j].parent);
  }

  lemma NewChild(g: T.Graph, s: State, a: Action, j: nat)
    requires Inv(s) && Enabled(g, s, a) && |s.nodes| <= j < |Do(g, s, a).nodes|
    ensures ChildOk(Do(g, s, a), j)
  {
    assert WorkerOk(s, a.w);
  }

  /** Starting a task takes its job out of the pool. */
  lemma PoolAtStart(g: T.Graph, s: State, a: Action)
    requires Inv(s) && Enabled(g, s, a) && a.Start?
    ensures Do(g, s, a).base.pool == BagOf(Do(g, s, a).nodes, QueuedJob)
  {
    var s' := Do(g, s, a);
    var job := s.nodes[a.i].status.job;
    BagUpdate(s.nodes, a.i, s'.nodes[a.i], QueuedJob);
    assert BagOf(s'.nodes, QueuedJob) + multiset{job} == s.base.pool;
    assert s'.base.pool == s.base.pool - multiset{job};
  }

  /** A task that is not queued can change its status without touching the pool. */
  lemma PoolUntouched(nodes: seq<Node>, i: nat, status: Status)
    requires i < |nodes| && !nodes[i].status.Queued? && !status.Queued?
    ensures BagOf(SetStatus(nodes, i, status), QueuedJob) == BagOf(nodes, QueuedJob)
  {
    BagUpdate(nodes, i, nodes[i].(status := status), QueuedJob);
    var after := SetStatus(nodes, i, status);
    assert BagOf(after, QueuedJob) + multiset{} == BagOf(after, QueuedJob);
    assert BagOf(nodes, QueuedJob) + multiset{} == BagOf(nodes, QueuedJob);
  }

  lemma PoolAtStep(g: T.Graph, s: State, a: Action)
    requires Inv(s) && Enabled(g, s, a) && a.Step?
    ensures Do(g, s, a).base.pool == BagOf(Do(g, s, a).nodes, QueuedJob)
  {
    var me := s.owner[a.w];
    assert WorkerOk(s, a.w);
    PoolUntouched(s.nodes, me, Waiting);
    PoolUntouched(s.nodes, me, Returned);
    match s.base.workers[a.w] {
      case Counting(_) => assert Do(g, s, a).base.pool == s.base.pool;
      case Expanding(v) => BagSnoc(SetStatus(s.nodes, me, Waiting), Node(me, Queued(T.Walk(g[v]))), QueuedJob);
      case Walking(rest) =>
        if rest != [] {
          BagSnoc(s.nodes, Node(me, Queued(T.Visit(rest[0]))), QueuedJob);
        }
    }
  }

  lemma PoolStep(g: T.Graph, s: State, a: Action)
    requires Inv(s) && Enabled(g, s, a)
    ensures Do(g, s, a).base.pool == BagOf(Do(g, s, a).nodes, QueuedJob)
  {
    match a {
      case Start(_, _) => PoolAtStart(g, s, a);
      case Step(_) => PoolAtStep(g, s, a);
      case Return(i) => PoolUntouched(s.nodes, i, Returned);
    }
  }

  lemma InvStep(g: T.Graph, s: State, a: Action)
    requires Inv(s) && Enabled(g, s, a)
    ensures Inv(Do(g, s, a))
  {
    var s' := Do(g, s, a);
    PoolStep(g, s, a);
    forall u | 0 <= u < |s'.owner| ensures WorkerOk(s', u) { WorkersStep(g, s, a, u); }
    forall i | 0 <= i < |s'.nodes| ensures HeldOk(s', i) { HeldStep(g, s, a, i); }
    forall j | 0 < j < |s'.nodes|
      ensures ChildOk(s', j)
    {
      if j < |s.nodes| { ChildrenStep(g, s, a, j); } else { NewChild(g, s, a, j); }
    }
  }

  lemma {:induction false} InvAlways(g: T.Graph, s: State, acts: seq<Action>)
    requires Inv(s) && Possible(g, s, acts)
    ensures Inv(After(g, s, acts))
    decreases |acts|
  {
    if acts != [] {
      InvStep(g, s, acts[0]);
      InvAlways(g, Do(g, s, acts[0]), acts[1..]);
    }
  }

  // ---------------------------------------------------------------- the root's return

  /** If the root has returned, so has everything below it. */
  lemma {:induction false} AllReturned(s: State, j: nat)
    requires Inv(s) && s.nodes[0].status.Returned? && j < |s.nodes|
    ensures s.nodes[j].status.Returned?
  {
    if j > 0 {
      assert ChildOk(s, j);
      AllReturned(s, s.nodes[j].parent);
    }
  }

  lemma {:induction false} NothingQueued(nodes: seq<Node>)
    requires forall j :: 0 <= j < |nodes| ==> nodes[j].status.Returned?
    ensures BagOf(nodes, QueuedJob) == multiset{}
  {
    if nodes != [] {
      NothingQueued(nodes[1..]);
    }
  }

  lemma RootReturnedMeansFinished(s: State)
    requires Inv(s) && s.nodes[0].status.Returned?
    ensures T.Finished(s.base)
  {
    forall j | 0 <= j < |s.nodes|
      ensures s.nodes[j].status.Returned?
    {
      AllReturned(s, j);
    }
    NothingQueued(s.nodes);
    forall w | 0 <= w < |s.owner|
      ensures s.base.workers[w].Free?
    {
      assert WorkerOk(s, w);
    }
  }

  /**
   The program's own signal: with at most 255 workers, whatever the schedule, when the wait for the root returns every
   vertex reachable from the start by a nonempty path has been expanded exactly once, and no other vertex has.
   */
  lemma RootWaitReturnsAfterTraversal(g: T.Graph, start: nat, s: State, acts: seq<Action>)
    requires Init(g, start, s) && |s.base.workers| < T.BYTE && Possible(g, s, acts)
    requires var r := After(g, s, acts); r.nodes != [] && r.nodes[0].status.Returned?
    ensures var expanded := After(g, s, acts).base.expanded;
            forall v :: 0 <= v < |g| ==> multiset(expanded)[v] == if T.Reachable(g, start, v) then 1 else 0
  {
    InvAlways(g, s, acts);
    var r := After(g, s, acts);
    RootReturnedMeansFinished(r);
    var run := RunProjects(g, s, acts);
    T.TraversalIsExact(g, start, s.base, run);
    forall v | 0 <= v < |g|
      ensures multiset(r.base.expanded)[v] == if T.Reachable(g, start, v) then 1 else 0
    {
      assert v in r.base.expanded <==> v in multiset(r.base.expanded);
    }
  }

  // ---------------------------------------------------------------- every run is finite

  ghost predicate Good(g: T.Graph, start: nat, s: State) {
    Inv(s) && T.Inv(g, start, s.base) && |s.base.workers| < T.BYTE
  }

  lemma GoodStep(g: T.Graph, start: nat, s: State, a: Action)
    requires Good(g, start, s) && Enabled(g, s, a)
    ensures Good(g, start, Do(g, s, a))
  {
    InvStep(g, s, a);
    match a {
      case Start(w, i) => T.InvStep(g, start, s.base, T.Start(w, s.nodes[i].status.job));
      case Step(w) => T.InvStep(g, start, s.base, NextOf(s.base, w));
      case Return(_) =>
    }
  }

  /** What an unexpanded vertex can still cost. */
  function Cost(edges: nat): nat {
    3 * edges + 5
  }

  function NodeWeight(n: Node): nat {
    match n.status
    case Queued(Visit(_)) => 2
    case Queued(Walk(edges)) => 3 * |edges| + 3
    case Held(_) => 0
    case Waiting => 1
    case Returned => 0
  }

  function WorkerWeight(g: T.Graph): T.Worker -> nat {
    (w: T.Worker) =>
      match w
      case Free => 0
      case Counting(_) => 1
      case Expanding(v) => if v < |g| then Cost(|g[v]|) else 0
      case Walking(rest) => 3 * |rest| + 2
  }

  function VertexWeights(g: T.Graph, expanded: seq<nat>): seq<nat> {
    seq(|g|, v requires 0 <= v < |g| => if v in expanded then 0 else Cost(|g[v]|))
  }

  /** What is left to do: for the vertices not yet expanded, the tasks, and the workers. */
  function Left(g: T.Graph, s: State): nat {
    Sum(VertexWeights(g, s.base.expanded)) + Total(s.nodes, NodeWeight) + Total(s.base.workers, WorkerWeight(g))
  }

  lemma LeftAtStart(g: T.Graph, s: State, a: Action)
    requires Inv(s) && Enabled(g, s, a) && a.Start?
    ensures Left(g, Do(g, s, a)) < Left(g, s)
  {
    var s' := Do(g, s, a);
    TotalUpdate(s.nodes, a.i, s'.nodes[a.i], NodeWeight);
    TotalUpdate(s.base.workers, a.w, s'.base.workers[a.w], WorkerWeight(g));
  }

  /** Winning a vertex trades the vertex for the walk over its edges. */
  lemma LeftAtWin(g: T.Graph, start: nat, s: State, a: Action)
    requires Good(g, start, s) && Enabled(g, s, a) && a.Step? && s.base.workers[a.w].Counting?
    requires s.base.color[s.base.workers[a.w].v] == T.WHITE
    ensures Left(g, Do(g, s, a)) < Left(g, s)
  {
    var s', v := Do(g, s, a), s.base.workers[a.w].v;
    assert T.ColorOk(s.base, v);
    var was, now := VertexWeights(g, s.base.expanded), VertexWeights(g, s'.base.expanded);
    assert now == was[v := 0];
    SumUpdate(was, v, 0);
    TotalUpdate(s.base.workers, a.w, s'.base.workers[a.w], WorkerWeight(g));
  }

  lemma LeftAtLoss(g: T.Graph, s: State, a: Action)
    requires Inv(s) && Enabled(g, s, a) && a.Step? && s.base.workers[a.w].Counting?
    requires s.base.color[s.base.workers[a.w].v] != T.WHITE
    ensures Left(g, Do(g, s, a)) < Left(g, s)
  {
    var s', me := Do(g, s, a), s.owner[a.w];
    assert WorkerOk(s, a.w);
    TotalUpdate(s.nodes, me, s'.nodes[me], NodeWeight);
    TotalUpdate(s.base.workers, a.w, s'.base.workers[a.w], WorkerWeight(g));
  }

  lemma LeftAtSpawn(g: T.Graph, s: State, a: Action)
    requires Inv(s) && Enabled(g, s, a) && a.Step? && !s.base.workers[a.w].Counting?
    ensures Left(g, Do(g, s, a)) < Left(g, s)
  {
    var s', me := Do(g, s, a), s.owner[a.w];
    assert WorkerOk(s, a.w);
    var waiting := SetStatus(s.nodes, me, Waiting);
    TotalUpdate(s.nodes, me, waiting[me], NodeWeight);
    TotalUpdate(s.base.workers, a.w, s'.base.workers[a.w], WorkerWeight(g));
    match s.base.workers[a.w] {
      case Expanding(v) => TotalSnoc(waiting, s'.nodes[|waiting|], NodeWeight);
      case Walking(rest) =>
        if rest != [] {
          TotalSnoc(s.nodes, s'.nodes[|s.nodes|], NodeWeight);
        }
    }
  }

  /** Every step leaves less to do. */
  lemma LeftDrops(g: T.Graph, start: nat, s: State, a: Action)
    requires Good(g, start, s) && Enabled(g, s, a)
    ensures Left(g, Do(g, s, a)) < Left(g, s)
  {
    match a {
      case Start(_, _) => LeftAtStart(g, s, a);
      case Return(i) => TotalUpdate(s.nodes, i, Do(g, s, a).nodes[i], NodeWeight);
      case Step(w) =>
        if !s.base.workers[w].Counting? {
          LeftAtSpawn(g, s, a);
        } else if s.base.color[s.base.workers[w].v] == T.WHITE {
          LeftAtWin(g, start, s, a);
        } else {
          LeftAtLoss(g, s, a);
        }
    }
  }

  lemma {:induction false} RunUsesUp(g: T.Graph, start: nat, s: State, acts: seq<Action>)
    requires Good(g, start, s) && Possible(g, s, acts)
    ensures |acts| + Left(g, After(g, s, acts)) <= Left(g, s)
    ensures Good(g, start, After(g, s, acts)) && |After(g, s, acts).base.workers| == |s.base.workers|
    decreases |acts|
  {
    if acts != [] {
      LeftDrops(g, start, s, acts[0]);
      GoodStep(g, start, s, acts[0]);
      RunUsesUp(g, start, Do(g, s, acts[0]), acts[1..]);
    }
  }

  lemma {:induction false} QueuedIsPooled(nodes: seq<Node>, i: nat)
    requires i < |nodes| && nodes[i].status.Queued?
    ensures nodes[i].status.job in BagOf(nodes, QueuedJob)
  {
    if i > 0 {
      QueuedIsPooled(nodes[1..], i - 1);
    }
  }

  lemma BusyWorkerMoves(g: T.Graph, start: nat, s: State, w: nat)
    requires Good(g, start, s) && w < |s.owner| && !s.base.workers[w].Free?
    ensures Enabled(g, s, Step(w))
  {
    assert WorkerOk(s, w) && T.WorkerOk(g, start, s.base.workers[w]);
  }

  lemma FreeWorkerStarts(g: T.Graph, start: nat, s: State, w: nat, i: nat)
    requires Good(g, start, s) && w < |s.owner| && s.base.workers[w].Free? && i < |s.nodes| && s.nodes[i].status.Queued?
    ensures Enabled(g, s, Start(w, i))
  {
    QueuedIsPooled(s.nodes, i);
    assert T.JobOk(g, start, s.nodes[i].status.job);
  }

  /** Every run is finite: from the start it takes at most as many steps as the graph allows. */
  lemma RunIsBounded(g: T.Graph, start: nat, s: State, acts: seq<Action>)
    requires Init(g, start, s) && |s.base.workers| < T.BYTE && Possible(g, s, acts)
    ensures |acts| <= Sum(VertexWeights(g, [])) + 3 * |g[start]| + 3
    ensures Good(g, start, After(g, s, acts)) && |After(g, s, acts).base.workers| == |s.base.workers|
  {
    T.InitInv(g, start, s.base);
    RunUsesUp(g, start, s, acts);
    FreeWorkersWeighNothing(g, s.base.workers);
    assert Total(s.nodes, NodeWeight) == NodeWeight(s.nodes[0]) + Total(s.nodes[1..], NodeWeight);
  }

  lemma {:induction false} FreeWorkersWeighNothing(g: T.Graph, workers: seq<T.Worker>)
    requires forall w :: 0 <= w < |workers| ==> workers[w].Free?
    ensures Total(workers, WorkerWeight(g)) == 0
  {
    if workers != [] {
      FreeWorkersWeighNothing(g, workers[1..]);
    }
  }
}
