/**
 The parallel graph traversal on call stacks (examples/cxx/while.cpp, pfunc/parallel_while.hpp, pfunc/taskmgr.hpp).

 A worker that waits runs other tasks on top of the waiting one, so of all tasks waiting on one worker only the
 topmost can return, and only while nothing runs above it.  Every run here is a run of `TraversalJoin`, which knows no
 stacks; what has to be proved anew is that the stacks never block the way.
 */
module TraversalStacks {
  import opened Common
  import T = GraphTraversal
  import J = TraversalJoin

  /** When and where a task was started. */
  datatype Run = Run(time: nat, worker: nat)

  /** `stacks[w]` are the tasks waiting on worker `w`, the topmost last. */
  datatype State = State(join: J.State, stacks: seq<seq<nat>>, runs: seq<Run>, clock: nat)

  datatype Action =
    | Start(w: nat, i: nat)
    | Step(w: nat)
    | Return(w: nat)

  ghost predicate Init(g: T.Graph, start: nat, s: State) {
    && J.Init(g, start, s.join)
    && |s.stacks| == |s.join.owner| && (forall w :: 0 <= w < |s.stacks| ==> s.stacks[w] == [])
    && s.runs == [Run(0, 0)] && s.clock == 0
  }

  predicate Shape(s: State) {
    |s.stacks| == |s.join.owner| == |s.join.base.workers| && |s.runs| == |s.join.nodes|
  }

  function Top(stack: seq<nat>): nat
    requires stack != []
  {
    stack[|stack| - 1]
  }

  function Pop(stack: seq<nat>): seq<nat>
    requires stack != []
  {
    stack[..|stack| - 1]
  }

  function Unstacked(s: State, a: Action): J.Action
    requires a.Return? ==> a.w < |s.stacks| && s.stacks[a.w] != []
  {
    match a
    case Start(w, i) => J.Start(w, i)
    case Step(w) => J.Step(w)
    case Return(w) => J.Return(Top(s.stacks[w]))
  }

  predicate Enabled(g: T.Graph, s: State, a: Action) {
    && Shape(s)
    && a.w < |s.stacks|
    && (a.Return? ==> s.stacks[a.w] != [] && s.join.base.workers[a.w].Free?)
    && J.Enabled(g, s.join, Unstacked(s, a))
  }

  /** The task that worker `w` runs begins to wait. */
  predicate BeginsToWait(s: State, join': J.State, w: nat)
    requires w < |s.join.owner|
  {
    s.join.owner[w] < |join'.nodes| && join'.nodes[s.join.owner[w]].status.Waiting?
  }

  function Do(g: T.Graph, s: State, a: Action): State
    requires Enabled(g, s, a)
  {
    var join' := J.Do(g, s.join, Unstacked(s, a));
    match a
    case Start(w, i) => State(join', s.stacks, s.runs[i := Run(s.clock, w)], s.clock + 1)
    case Step(w) =>
      State(join',
            if BeginsToWait(s, join', w) then s.stacks[w := s.stacks[w] + [s.join.owner[w]]] else s.stacks,
            if |join'.nodes| > |s.runs| then s.runs + [Run(0, 0)] else s.runs,
            s.clock)
    case Return(w) => s.(join := join', stacks := s.stacks[w := Pop(s.stacks[w])])
  }

  predicate Possible(g: T.Graph, s: State, acts: seq<Action>)
    decreases |acts|
  {
    acts == [] || (Enabled(g, s, acts[0]) && Possible(g, Do(g, s, acts[0]), acts[1..]))
  }

  function After(g: T.Graph, s: State, acts: seq<Action>): State
    requires Possible(g, s, acts)
    decreases |acts|
  {
    if acts == [] then s else After(g, Do(g, s, acts[0]), acts[1..])
  }

  /** Forgetting the stacks gives a run of the join tree, step by step. */
  lemma {:induction false} RunProjects(g: T.Graph, s: State, acts: seq<Action>) returns (run: seq<J.Action>)
    requires Possible(g, s, acts)
    ensures |run| == |acts| && J.Possible(g, s.join, run) && J.After(g, s.join, run) == After(g, s, acts).join
    decreases |acts|
  {
    if acts == [] {
      run := [];
    } else {
      var rest := RunProjects(g, Do(g, s, acts[0]), acts[1..]);
      run := [Unstacked(s, acts[0])] + rest;
      assert run[1..] == rest;
    }
  }

  // ---------------------------------------------------------------- invariant

  /** Tasks on a stack wait, run on its worker, and lie in the order in which they were started. */
  ghost predicate StackOk(s: State, w: nat)
    requires Shape(s) && w < |s.stacks|
  {
    && (forall k :: 0 <= k < |s.stacks[w]| ==> EntryOk(s, w, s.stacks[w][k]))
    && (forall k, l :: 0 <= k < l < |s.stacks[w]| ==> s.runs[s.stacks[w][k]].time < s.runs[s.stacks[w][l]].time)
  }

  ghost predicate EntryOk(s: State, w: nat, i: nat)
    requires Shape(s) && w < |s.stacks|
  {
    && i < |s.runs| && s.join.nodes[i].status.Waiting? && s.runs[i].worker == w
    && (!s.join.base.workers[w].Free? ==> s.join.owner[w] < |s.runs| && s.runs[i].time < s.runs[s.join.owner[w]].time)
  }

  /** A started task was started in the past, after its parent, and if it waits it is on the stack of its worker. */
  ghost predicate TaskOk(s: State, i: nat)
    requires Shape(s) && i < |s.runs|
  {
    var n := s.join.nodes[i];
    && (n.status.Queued? || s.runs[i].time < s.clock)
    && (n.status.Held? ==> s.runs[i].worker == n.status.w)
    && (n.status.Waiting? ==> s.runs[i].worker < |s.stacks| && i in s.stacks[s.runs[i].worker])
    && (i > 0 && !n.status.Queued? ==> n.parent < i && s.runs[n.parent].time < s.runs[i].time)
  }

  ghost predicate Inv(s: State) {
    && Shape(s) && J.Inv(s.join)
    && (forall w :: 0 <= w < |s.stacks| ==> StackOk(s, w))
    && (forall i :: 0 <= i < |s.runs| ==> TaskOk(s, i))
  }

  /** Any graph can be traversed from any vertex by any number of workers. */
  lemma InitialState(g: T.Graph, start: nat, n: nat) returns (s: State)
    requires T.ValidGraph(g) && start < |g|
    ensures Init(g, start, s) && |s.stacks| == n
  {
    var base := T.InitialState(g, start, n);
    var join := J.State(base, seq(n, _ => 0), [J.Node(0, J.Queued(T.Walk(g[start])))]);
    s := State(join, seq(n, _ => []), [Run(0, 0)], 0);
  }

  lemma InitInv(g: T.Graph, start: nat, s: State)
    requires Init(g, start, s)
    ensures Inv(s)
  {
  }

  lemma ShapeStep(g: T.Graph, s: State, a: Action)
    requires Inv(s) && Enabled(g, s, a)
    ensures Shape(Do(g, s, a)) && |Do(g, s, a).stacks| == |s.stacks|
  {
    J.InvStep(g, s.join, Unstacked(s, a));
    if a.Step? {
      assert J.WorkerOk(s.join, a.w);
    }
  }

  // starting a task

  lemma TaskAtStart(g: T.Graph, s: State, w: nat, i: nat, j: nat)
    requires Inv(s) && Enabled(g, s, Start(w, i)) && Shape(Do(g, s, Start(w, i))) && j < |s.runs|
    ensures TaskOk(Do(g, s, Start(w, i)), j)
  {
    assert TaskOk(s, j);
    if j > 0 {
      assert J.ChildOk(s.join, j);
      assert TaskOk(s, s.join.nodes[j].parent);
    }
  }

  lemma EntryAtStart(g: T.Graph, s: State, w: nat, i: nat, u: nat, e: nat)
    requires Inv(s) && Enabled(g, s, Start(w, i)) && Shape(Do(g, s, Start(w, i)))
    requires u < |s.stacks| && EntryOk(s, u, e)
    ensures EntryOk(Do(g, s, Start(w, i)), u, e)
  {
    assert TaskOk(s, e) && J.WorkerOk(s.join, u);
  }

  lemma StackAtStart(g: T.Graph, s: State, w: nat, i: nat, u: nat)
    requires Inv(s) && Enabled(g, s, Start(w, i)) && Shape(Do(g, s, Start(w, i))) && u < |s.stacks|
    ensures StackOk(Do(g, s, Start(w, i)), u)
  {
    var s' := Do(g, s, Start(w, i));
    assert StackOk(s, u);
    forall k | 0 <= k < |s.stacks[u]|
      ensures EntryOk(s', u, s'.stacks[u][k]) && s'.runs[s.stacks[u][k]] == s.runs[s.stacks[u][k]]
    {
      EntryAtStart(g, s, w, i, u, s.stacks[u][k]);
    }
  }

  // a step of a running task

  /** What a step leaves alone, and what it does to the task that takes it. */
  lemma StepShape(g: T.Graph, s: State, w: nat)
    requires Inv(s) && Enabled(g, s, Step(w))
    ensures var s', me := Do(g, s, Step(w)), s.join.owner[w];
            && me < |s.runs| && s.join.nodes[me].status == J.Held(w) && s.runs[me].worker == w
            && (s'.join.nodes[me].status.Waiting? ==> s'.join.base.workers[w].Free?)
            && (!s'.join.base.workers[w].Free? ==> s'.join.nodes[me] == s.join.nodes[me])
            && (s'.join.nodes[me].status.Held? ==> s'.join.nodes[me] == s.join.nodes[me])
            && s'.join.owner == s.join.owner && !s'.join.nodes[me].status.Queued?
            && s'.join.nodes[me].parent == s.join.nodes[me].parent
  {
    assert J.WorkerOk(s.join, w);
    assert TaskOk(s, s.join.owner[w]);
  }

  lemma RunsAtStep(g: T.Graph, s: State, w: nat, i: nat)
    requires Inv(s) && Enabled(g, s, Step(w)) && i < |s.runs|
    ensures var s' := Do(g, s, Step(w));
            && i < |s'.runs| && i < |s'.join.nodes| && s'.runs[i] == s.runs[i] && s'.clock == s.clock
            && (i != s.join.owner[w] ==> s'.join.nodes[i] == s.join.nodes[i])
  {
    assert J.WorkerOk(s.join, w);
  }

  lemma TaskAtStep(g: T.Graph, s: State, w: nat, j: nat)
    requires Inv(s) && Enabled(g, s, Step(w)) && Shape(Do(g, s, Step(w))) && j < |s.runs|
    ensures TaskOk(Do(g, s, Step(w)), j)
  {
    assert TaskOk(s, j);
    StepShape(g, s, w);
    RunsAtStep(g, s, w, j);
    if j > 0 {
      assert J.ChildOk(s.join, j);
      RunsAtStep(g, s, w, s.join.nodes[j].parent);
    }
    StacksGrow(g, s, w, j);
  }

  lemma StacksGrow(g: T.Graph, s: State, w: nat, i: nat)
    requires Inv(s) && Enabled(g, s, Step(w))
    ensures var s' := Do(g, s, Step(w));
            && |s'.stacks| == |s.stacks|
            && (forall u :: 0 <= u < |s.stacks| && i in s.stacks[u] ==> i in s'.stacks[u])
            && (i == s.join.owner[w] && BeginsToWait(s, s'.join, w) ==> i in s'.stacks[w])
  {
  }

  lemma NewTask(g: T.Graph, s: State, w: nat, j: nat)
    requires Inv(s) && Enabled(g, s, Step(w)) && Shape(Do(g, s, Step(w))) && |s.runs| <= j < |Do(g, s, Step(w)).runs|
    ensures TaskOk(Do(g, s, Step(w)), j)
  {
    assert J.WorkerOk(s.join, w);
  }

  lemma EntryAtStep(g: T.Graph, s: State, w: nat, u: nat, e: nat)
    requires Inv(s) && Enabled(g, s, Step(w)) && Shape(Do(g, s, Step(w))) && u < |s.stacks| && EntryOk(s, u, e)
    ensures EntryOk(Do(g, s, Step(w)), u, e)
  {
    StepShape(g, s, w);
    RunsAtStep(g, s, w, e);
    assert J.WorkerOk(s.join, u);
    if u != w && !s.join.base.workers[u].Free? {
      RunsAtStep(g, s, w, s.join.owner[u]);
    } else if u == w {
      RunsAtStep(g, s, w, s.join.owner[w]);
    }
  }

  lemma StackAtStep(g: T.Graph, s: State, w: nat, u: nat)
    requires Inv(s) && Enabled(g, s, Step(w)) && Shape(Do(g, s, Step(w))) && u < |s.stacks|
    ensures StackOk(Do(g, s, Step(w)), u)
  {
    var s', me := Do(g, s, Step(w)), s.join.owner[w];
    assert StackOk(s, u) && J.WorkerOk(s.join, w);
    StepShape(g, s, w);
    RunsAtStep(g, s, w, me);
    forall k | 0 <= k < |s.stacks[u]|
      ensures EntryOk(s', u, s.stacks[u][k]) && s'.runs[s.stacks[u][k]] == s.runs[s.stacks[u][k]]
    {
      EntryAtStep(g, s, w, u, s.stacks[u][k]);
      RunsAtStep(g, s, w, s.stacks[u][k]);
    }
    if u == w && BeginsToWait(s, s'.join, w) {
      assert EntryOk(s', w, me);
      assert s'.stacks[w] == s.stacks[w] + [me];
    }
  }

  // returning

  lemma TaskAtReturn(g: T.Graph, s: State, w: nat, j: nat)
    requires Inv(s) && Enabled(g, s, Return(w)) && Shape(Do(g, s, Return(w))) && j < |s.runs|
    ensures TaskOk(Do(g, s, Return(w)), j)
  {
    assert TaskOk(s, j);
    var stack := s.stacks[w];
    if j in stack && j != Top(stack) {
      var k :| 0 <= k < |stack| && stack[k] == j;
      assert Pop(stack)[k] == j;
    }
  }

  lemma StackAtReturn(g: T.Graph, s: State, w: nat, u: nat)
    requires Inv(s) && Enabled(g, s, Return(w)) && Shape(Do(g, s, Return(w))) && u < |s.stacks|
    ensures StackOk(Do(g, s, Return(w)), u)
  {
    var s', i := Do(g, s, Return(w)), Top(s.stacks[w]);
    assert StackOk(s, u) && StackOk(s, w) && EntryOk(s, w, s.stacks[w][|s.stacks[w]| - 1]);
    forall k | 0 <= k < |s'.stacks[u]|
      ensures EntryOk(s', u, s'.stacks[u][k]) && s'.stacks[u][k] == s.stacks[u][k]
    {
      assert EntryOk(s, u, s.stacks[u][k]);
      assert s.stacks[u][k] != i;
    }
  }

  lemma InvStep(g: T.Graph, s: State, a: Action)
    requires Inv(s) && Enabled(g, s, a)
    ensures Inv(Do(g, s, a))
  {
    var s' := Do(g, s, a);
    J.InvStep(g, s.join, Unstacked(s, a));
    ShapeStep(g, s, a);
    forall u | 0 <= u < |s'.stacks|
      ensures StackOk(s', u)
    {
      match a {
        case Start(w, i) => StackAtStart(g, s, w, i, u);
        case Step(w) => StackAtStep(g, s, w, u);
        case Return(w) => StackAtReturn(g, s, w, u);
      }
    }
    forall j | 0 <= j < |s'.runs|
      ensures TaskOk(s', j)
    {
      match a {
        case Start(w, i) => TaskAtStart(g, s, w, i, j);
        case Step(w) => if j < |s.runs| { TaskAtStep(g, s, w, j); } else { NewTask(g, s, w, j); }
        case Return(w) => TaskAtReturn(g, s, w, j);
      }
    }
  }

  lemma {:induction false} InvAlways(g: T.Graph, s: State, acts: seq<Action>)
    requires Inv(s) && Possible(g, s, acts)
    ensures Inv(After(g, s, acts))
    decreases |acts|
  {
    if acts != [] {
      InvStep(g, s, acts[0]);
      InvAlways(g, Do(g, s, acts[0]), acts[1..]);
    }
  }

  // ---------------------------------------------------------------- the stacks never block the way

  /** Of the tasks that have not returned, one was started last. */
  lemma LastStarted(s: State) returns (i: nat)
    requires Inv(s) && !s.join.nodes[0].status.Returned?
    ensures i < |s.runs| && !s.join.nodes[i].status.Returned?
    ensures forall j :: 0 <= j < |s.runs| && !s.join.nodes[j].status.Returned? ==> s.runs[j].time <= s.runs[i].time
  {
    i := 0;
    for n := 1 to |s.runs|
      invariant i < |s.runs| && !s.join.nodes[i].status.Returned?
      invariant forall j :: 0 <= j < n && !s.join.nodes[j].status.Returned? ==> s.runs[j].time <= s.runs[i].time
    {
      if !s.join.nodes[n].status.Returned? && s.runs[i].time < s.runs[n].time {
        i := n;
      }
    }
  }

  /** With nothing running or queued, the task started last is on top of its stack and can return. */
  lemma LastStartedReturns(g: T.Graph, s: State) returns (a: Action)
    requires Inv(s) && !s.join.nodes[0].status.Returned?
    requires forall w :: 0 <= w < |s.stacks| ==> s.join.base.workers[w].Free?
    requires forall i :: 0 <= i < |s.runs| ==> s.join.nodes[i].status.Waiting? || s.join.nodes[i].status.Returned?
    ensures Enabled(g, s, a)
  {
    var i := LastStarted(s);
    assert TaskOk(s, i);
    var w := s.runs[i].worker;
    assert StackOk(s, w);
    var k :| 0 <= k < |s.stacks[w]| && s.stacks[w][k] == i;
    assert EntryOk(s, w, s.stacks[w][|s.stacks[w]| - 1]);
    assert k == |s.stacks[w]| - 1;
    forall j | 0 < j < |s.join.nodes| && s.join.nodes[j].parent == i
      ensures s.join.nodes[j].status.Returned?
    {
      assert TaskOk(s, j);
    }
    a := Return(w);
  }

  lemma NeverStuck(g: T.Graph, start: nat, s: State) returns (a: Action)
    requires Inv(s) && J.Good(g, start, s.join) && |s.stacks| > 0 && !s.join.nodes[0].status.Returned?
    ensures Enabled(g, s, a)
  {
    if w :| 0 <= w < |s.stacks| && !s.join.base.workers[w].Free? {
      J.BusyWorkerMoves(g, start, s.join, w);
      a := Step(w);
    } else if i :| 0 <= i < |s.runs| && s.join.nodes[i].status.Queued? {
      J.FreeWorkerStarts(g, start, s.join, 0, i);
      a := Start(0, i);
    } else {
      forall i | 0 <= i < |s.runs|
        ensures s.join.nodes[i].status.Waiting? || s.join.nodes[i].status.Returned?
      {
        assert J.HeldOk(s.join, i);
      }
      a := LastStartedReturns(g, s);
    }
  }

  /**
   The traversal ends on call stacks, under every schedule: a run takes at most as many steps as the graph allows, and
   one that cannot go on has come to the return of the root, with exactly the vertices reachable by a nonempty path
   expanded, each once.
   */
  lemma EveryRunEnds(g: T.Graph, start: nat, s: State, acts: seq<Action>)
    requires Init(g, start, s) && 0 < |s.stacks| < T.BYTE && Possible(g, s, acts)
    ensures |acts| <= Sum(J.VertexWeights(g, [])) + 3 * |g[start]| + 3
    ensures var r := After(g, s, acts);
            (forall a :: !Enabled(g, r, a)) ==>
              && r.join.nodes != [] && r.join.nodes[0].status.Returned?
              && forall v :: 0 <= v < |g| ==>
                   multiset(r.join.base.expanded)[v] == if T.Reachable(g, start, v) then 1 else 0
  {
    var run := RunProjects(g, s, acts);
    J.RunIsBounded(g, start, s.join, run);
    InitInv(g, start, s);
    InvAlways(g, s, acts);
    var r := After(g, s, acts);
    if !r.join.nodes[0].status.Returned? {
      var a := NeverStuck(g, start, r);
      assert Enabled(g, r, a);
    } else {
      J.RootWaitReturnsAfterTraversal(g, start, s.join, run);
    }
  }
}
