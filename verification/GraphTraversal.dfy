/**
 The parallel graph traversal (examples/cxx/while.cpp) on top of the parallel while loop (pfunc/parallel_while.hpp).

 Jobs are spawned tasks: visiting a vertex, or walking an edge list and spawning a visit for each element.  A worker
 that waits is free to take another job, so only what a worker does between two waits is part of its state.  Elements
 are handed to tasks by value.  Colours are 8-bit words incremented by fetch-and-add.
 */
module GraphTraversal {
  import opened Common

  const WHITE := 0
  const BYTE := 256

  /** The edge list of every vertex. */
  type Graph = seq<seq<nat>>

  datatype Job = Visit(v: nat) | Walk(edges: seq<nat>)

  datatype Worker =
    | Free
    | Counting(v: nat)           // has read WHITE, about to fetch-and-add the colour
    | Expanding(v: nat)          // won the vertex, about to spawn the walk over its edges
    | Walking(rest: seq<nat>)    // in the while loop

  datatype State = State(color: seq<nat>, pool: multiset<Job>, workers: seq<Worker>, expanded: seq<nat>)

  datatype Action =
    | Start(w: nat, job: Job)
    | Count(w: nat)
    | SpawnWalk(w: nat)
    | SpawnVisit(w: nat)

  predicate ValidGraph(g: Graph) {
    forall u, k :: 0 <= u < |g| && 0 <= k < |g[u]| ==> g[u][k] < |g|
  }

  ghost predicate Init(g: Graph, start: nat, s: State) {
    && ValidGraph(g) && start < |g|
    && |s.color| == |g| && (forall v :: 0 <= v < |g| ==> s.color[v] == WHITE)
    && s.pool == multiset{Walk(g[start])} && s.expanded == []
    && forall w :: 0 <= w < |s.workers| ==> s.workers[w] == Free
  }

  predicate Enabled(g: Graph, s: State, a: Action) {
    && a.w < |s.workers| && |s.color| == |g|
    && match a
       case Start(w, job) => s.workers[w].Free? && job in s.pool && (job.Visit? ==> job.v < |g|)
       case Count(w) => s.workers[w].Counting? && s.workers[w].v < |g|
       case SpawnWalk(w) => s.workers[w].Expanding? && s.workers[w].v < |g|
       case SpawnVisit(w) => s.workers[w].Walking?
  }

  function Goto(s: State, w: nat, x: Worker): State
    requires w < |s.workers|
  {
    s.(workers := s.workers[w := x])
  }

  function Do(g: Graph, s: State, a: Action): State
    requires Enabled(g, s, a)
  {
    match a
    case Start(w, job) =>
      var s1 := s.(pool := s.pool - multiset{job});
      (match job
       case Visit(v) => Goto(s1, w, if s.color[v] == WHITE then Counting(v) else Free)
       case Walk(edges) => Goto(s1, w, Walking(edges)))
    case Count(w) =>
      var v := s.workers[w].v;
      var s1 := s.(color := s.color[v := (s.color[v] + 1) % BYTE]);
      if s.color[v] == WHITE then Goto(s1, w, Expanding(v)).(expanded := s.expanded + [v]) else Goto(s1, w, Free)
    case SpawnWalk(w) => Goto(s, w, Free).(pool := s.pool + multiset{Walk(g[s.workers[w].v])})
    case SpawnVisit(w) =>
      var rest := s.workers[w].rest;
      if rest == [] then Goto(s, w, Free)
      else Goto(s, w, Walking(rest[1..])).(pool := s.pool + multiset{Visit(rest[0])})
  }

  predicate Possible(g: Graph, s: State, acts: seq<Action>)
    decreases |acts|
  {
    acts == [] || (Enabled(g, s, acts[0]) && Possible(g, Do(g, s, acts[0]), acts[1..]))
  }

  function After(g: Graph, s: State, acts: seq<Action>): State
    requires Possible(g, s, acts)
    decreases |acts|
  {
    if acts == [] then s else After(g, Do(g, s, acts[0]), acts[1..])
  }

  function VisitsOf(edges: seq<nat>): multiset<Job> {
    if edges == [] then multiset{} else multiset{Visit(edges[0])} + VisitsOf(edges[1..])
  }

  /** The while loop: left alone, a walk spawns one visit for each element of its list, and nothing else. */
  lemma {:induction false} WalkSpawnsEveryElement(g: Graph, s: State, w: nat, n: nat) returns (acts: seq<Action>)
    requires w < |s.workers| && |s.color| == |g| && s.workers[w].Walking? && n == |s.workers[w].rest|
    ensures Possible(g, s, acts) && |acts| == n + 1
    ensures forall i :: 0 <= i < |acts| ==> acts[i] == SpawnVisit(w)
    ensures After(g, s, acts) ==
            s.(workers := s.workers[w := Free], pool := s.pool + VisitsOf(s.workers[w].rest))
    decreases n
  {
    var s1 := Do(g, s, SpawnVisit(w));
    var more := [];
    if n == 0 {
      assert Possible(g, s1, []) && s.pool + multiset{} == s.pool;
    } else {
      more := WalkSpawnsEveryElement(g, s1, w, n - 1);
      var x := Visit(s.workers[w].rest[0]);
      assert s.pool + multiset{x} + VisitsOf(s.workers[w].rest[1..]) ==
             s.pool + (multiset{x} + VisitsOf(s.workers[w].rest[1..]));
      assert s1.workers[w := Free] == s.workers[w := Free];
    }
    acts := [SpawnVisit(w)] + more;
    assert acts[1..] == more;
  }

  /** Nothing left to do. */
  ghost predicate Finished(s: State) {
    s.pool == multiset{} && forall w :: 0 <= w < |s.workers| ==> s.workers[w].Free?
  }

  // ---------------------------------------------------------------- reachability

  /** A path from `start` through the vertices of `p`. */
  ghost predicate Path(g: Graph, start: nat, p: seq<nat>) {
    && start < |g| && p != [] && p[0] in g[start]
    && (forall i :: 0 <= i < |p| ==> p[i] < |g|)
    && (forall i :: 0 <= i < |p| - 1 ==> p[i + 1] in g[p[i]])
  }

  ghost predicate Reachable(g: Graph, start: nat, v: nat) {
    exists p :: Path(g, start, p) && p[|p| - 1] == v
  }

  lemma ReachableStep(g: Graph, start: nat, u: nat, v: nat)
    requires ValidGraph(g) && start < |g| && u < |g| && v in g[u] && (u == start || Reachable(g, start, u))
    ensures Reachable(g, start, v)
  {
    assert v < |g|;
    if u == start {
      assert Path(g, start, [v]);
    } else {
      var p :| Path(g, start, p) && p[|p| - 1] == u;
      assert Path(g, start, p + [v]);
    }
  }

  // ---------------------------------------------------------------- every vertex at most once

  function CountsAt(v: nat): Worker -> nat {
    (w: Worker) => if w == Counting(v) then 1 else 0
  }

  lemma {:induction false} AtMostAllCount(workers: seq<Worker>, v: nat)
    ensures Total(workers, CountsAt(v)) <= |workers|
  {
    if workers != [] {
      AtMostAllCount(workers[1..], v);
    }
  }

  /** The colour of `v` and the workers still about to increment it fit into the number of workers. */
  ghost predicate ColorOk(s: State, v: nat)
    requires v < |s.color|
  {
    && multiset(s.expanded)[v] <= 1
    && (s.color[v] == WHITE <==> v !in s.expanded)
    && (s.color[v] != WHITE ==> s.color[v] + Total(s.workers, CountsAt(v)) <= |s.workers|)
  }

  /** The fetch-and-add: it cannot wrap, and only the first one finds WHITE. */
  lemma ColorAtCount(g: Graph, s: State, a: Action, v: nat)
    requires Enabled(g, s, a) && |s.workers| < BYTE && v < |g| && ColorOk(s, v) && a.Count?
    ensures ColorOk(Do(g, s, a), v)
  {
    var s' := Do(g, s, a);
    TotalUpdate(s.workers, a.w, s'.workers[a.w], CountsAt(v));
    AtMostAllCount(s.workers, v);
    TotalAtLeast(s.workers, a.w, CountsAt(v));
    if s.workers[a.w].v == v {
      assert s.color[v] + 1 < BYTE;
      assert s'.color[v] == s.color[v] + 1;
      if s.color[v] == WHITE {
        assert multiset(s'.expanded) == multiset(s.expanded) + multiset{v};
        assert v in s'.expanded;
      }
    } else if s.color[s.workers[a.w].v] == WHITE {
      assert multiset(s'.expanded) == multiset(s.expanded) + multiset{s.workers[a.w].v};
    }
  }

  lemma ColorStep(g: Graph, s: State, a: Action, v: nat)
    requires Enabled(g, s, a) && |s.workers| < BYTE && v < |g| && ColorOk(s, v)
    ensures ColorOk(Do(g, s, a), v)
  {
    if a.Count? {
      ColorAtCount(g, s, a, v);
    } else {
      TotalUpdate(s.workers, a.w, Do(g, s, a).workers[a.w], CountsAt(v));
    }
  }

  // ---------------------------------------------------------------- nothing unreachable, nothing forgotten

  ghost predicate JobOk(g: Graph, start: nat, job: Job) {
    match job
    case Visit(v) => Reachable(g, start, v)
    case Walk(edges) => forall v :: v in edges ==> Reachable(g, start, v)
  }

  ghost predicate WorkerOk(g: Graph, start: nat, w: Worker) {
    match w
    case Free => true
    case Counting(v) => Reachable(g, start, v)
    case Expanding(v) => Reachable(g, start, v)
    case Walking(rest) => forall v :: v in rest ==> Reachable(g, start, v)
  }

  ghost predicate OnlyReachable(g: Graph, start: nat, s: State) {
    && (forall job :: job in s.pool ==> JobOk(g, start, job))
    && (forall w :: 0 <= w < |s.workers| ==> WorkerOk(g, start, s.workers[w]))
    && (forall v :: v in s.expanded ==> Reachable(g, start, v))
  }

  lemma OnlyReachableStep(g: Graph, start: nat, s: State, a: Action)
    requires ValidGraph(g) && start < |g| && Enabled(g, s, a) && OnlyReachable(g, start, s)
    ensures OnlyReachable(g, start, Do(g, s, a))
  {
    PoolReachable(g, start, s, a);
    WorkerReachable(g, start, s, a);
    var s' := Do(g, s, a);
    assert forall w :: 0 <= w < |s.workers| && w != a.w ==> s'.workers[w] == s.workers[w];
    assert WorkerOk(g, start, s.workers[a.w]);
  }

  lemma PoolReachable(g: Graph, start: nat, s: State, a: Action)
    requires ValidGraph(g) && start < |g| && Enabled(g, s, a) && OnlyReachable(g, start, s)
    ensures forall job :: job in Do(g, s, a).pool ==> JobOk(g, start, job)
  {
    assert WorkerOk(g, start, s.workers[a.w]);
    if a.SpawnWalk? {
      SuccessorsReachable(g, start, s.workers[a.w].v);
    }
  }

  lemma WorkerReachable(g: Graph, start: nat, s: State, a: Action)
    requires Enabled(g, s, a) && OnlyReachable(g, start, s)
    ensures WorkerOk(g, start, Do(g, s, a).workers[a.w])
  {
    assert WorkerOk(g, start, s.workers[a.w]);
    if a.Start? {
      assert JobOk(g, start, a.job);
    }
  }

  lemma SuccessorsReachable(g: Graph, start: nat, u: nat)
    requires ValidGraph(g) && start < |g| && u < |g| && Reachable(g, start, u)
    ensures forall v :: v in g[u] ==> Reachable(g, start, v)
  {
    forall v | v in g[u]
      ensures Reachable(g, start, v)
    {
      ReachableStep(g, start, u, v);
    }
  }

  /** Some job or worker will still take care of visiting `v`. */
  ghost predicate PoolHas(s: State, v: nat) {
    Visit(v) in s.pool || exists edges :: Walk(edges) in s.pool && v in edges
  }

  ghost predicate WorkerHas(g: Graph, w: Worker, v: nat) {
    match w
    case Free => false
    case Counting(u) => u == v
    case Expanding(u) => u < |g| && v in g[u]
    case Walking(rest) => v in rest
  }

  ghost predicate Pending(g: Graph, s: State, v: nat) {
    || v in s.expanded
    || PoolHas(s, v)
    || exists w :: 0 <= w < |s.workers| && WorkerHas(g, s.workers[w], v)
  }

  /** Every successor of the start and of an expanded vertex is expanded or still pending. */
  ghost predicate NothingForgotten(g: Graph, start: nat, s: State) {
    forall u, v :: u < |g| && 0 <= u && v in g[u] && (u == start || u in s.expanded) ==> Pending(g, s, v)
  }

  lemma PendingStep(g: Graph, s: State, a: Action, v: nat)
    requires Enabled(g, s, a) && v < |s.color| && (s.color[v] == WHITE <==> v !in s.expanded) && Pending(g, s, v)
    ensures Pending(g, Do(g, s, a), v)
  {
    var s' := Do(g, s, a);
    if v in s.expanded {
      assert v in s'.expanded;
    } else if PoolHas(s, v) {
      PoolStep(g, s, a, v);
    } else {
      var w :| 0 <= w < |s.workers| && WorkerHas(g, s.workers[w], v);
      if w != a.w {
        assert WorkerHas(g, s'.workers[w], v);
      } else {
        OwnStep(g, s, a, v);
      }
    }
  }

  lemma PoolStep(g: Graph, s: State, a: Action, v: nat)
    requires Enabled(g, s, a) && v < |s.color| && (s.color[v] == WHITE <==> v !in s.expanded) && PoolHas(s, v)
    ensures Pending(g, Do(g, s, a), v)
  {
    var s' := Do(g, s, a);
    if Visit(v) in s.pool {
      if a == Start(a.w, Visit(v)) {
        assert s.color[v] == WHITE ==> WorkerHas(g, s'.workers[a.w], v);
      } else {
        assert Visit(v) in s'.pool;
      }
    } else {
      var edges :| Walk(edges) in s.pool && v in edges;
      if a == Start(a.w, Walk(edges)) {
        assert WorkerHas(g, s'.workers[a.w], v);
      } else {
        assert Walk(edges) in s'.pool;
      }
    }
  }

  lemma OwnStep(g: Graph, s: State, a: Action, v: nat)
    requires Enabled(g, s, a) && v < |s.color| && (s.color[v] == WHITE <==> v !in s.expanded)
    requires WorkerHas(g, s.workers[a.w], v)
    ensures Pending(g, Do(g, s, a), v)
  {
    var s' := Do(g, s, a);
    match a {
      case Start(_, _) =>
      case Count(_) => assert s.color[v] == WHITE ==> v in s'.expanded;
      case SpawnWalk(w) => assert Walk(g[s.workers[w].v]) in s'.pool;
      case SpawnVisit(w) =>
        var rest := s.workers[w].rest;
        if rest[0] == v {
          assert Visit(v) in s'.pool;
        } else {
          assert WorkerHas(g, s'.workers[w], v);
        }
    }
  }

  ghost predicate Inv(g: Graph, start: nat, s: State) {
    && ValidGraph(g) && start < |g| && |s.color| == |g|
    && (forall v :: 0 <= v < |g| ==> ColorOk(s, v))
    && OnlyReachable(g, start, s)
    && NothingForgotten(g, start, s)
  }

  lemma NothingForgottenStep(g: Graph, start: nat, s: State, a: Action)
    requires Inv(g, start, s) && Enabled(g, s, a)
    ensures NothingForgotten(g, start, Do(g, s, a))
  {
    var s' := Do(g, s, a);
    forall u, v | 0 <= u < |g| && v in g[u] && (u == start || u in s'.expanded)
      ensures Pending(g, s', v)
    {
      if u == start || u in s.expanded {
        assert ColorOk(s, v);
        PendingStep(g, s, a, v);
      } else {
        assert s'.workers[a.w] == Expanding(u);
        assert WorkerHas(g, s'.workers[a.w], v);
      }
    }
  }

  lemma InvStep(g: Graph, start: nat, s: State, a: Action)
    requires Inv(g, start, s) && |s.workers| < BYTE && Enabled(g, s, a)
    ensures Inv(g, start, Do(g, s, a))
  {
    var s' := Do(g, s, a);
    forall v | 0 <= v < |g| ensures ColorOk(s', v) { ColorStep(g, s, a, v); }
    OnlyReachableStep(g, start, s, a);
    NothingForgottenStep(g, start, s, a);
  }

  lemma {:induction false} InvAlways(g: Graph, start: nat, s: State, acts: seq<Action>)
    requires Inv(g, start, s) && |s.workers| < BYTE && Possible(g, s, acts)
    ensures Inv(g, start, After(g, s, acts))
    decreases |acts|
  {
    if acts != [] {
      InvStep(g, start, s, acts[0]);
      InvAlways(g, start, Do(g, s, acts[0]), acts[1..]);
    }
  }

  /** Any graph can be traversed from any vertex by any number of workers. */
  lemma InitialState(g: Graph, start: nat, n: nat) returns (s: State)
    requires ValidGraph(g) && start < |g|
    ensures Init(g, start, s) && |s.workers| == n
  {
    s := State(seq(|g|, _ => WHITE), multiset{Walk(g[start])}, seq(n, _ => Free), []);
  }

  lemma InitInv(g: Graph, start: nat, s: State)
    requires Init(g, start, s)
    ensures Inv(g, start, s)
  {
    forall v | v in g[start]
      ensures Reachable(g, start, v) && Pending(g, s, v)
    {
      ReachableStep(g, start, start, v);
      assert Walk(g[start]) in s.pool;
    }
  }

  lemma {:induction false} PathIsExpanded(g: Graph, start: nat, s: State, p: seq<nat>, i: nat)
    requires Inv(g, start, s) && Finished(s) && Path(g, start, p) && i < |p|
    ensures p[i] in s.expanded
  {
    if i == 0 {
      assert Pending(g, s, p[0]);
    } else {
      PathIsExpanded(g, start, s, p, i - 1);
      assert p[i - 1 + 1] in g[p[i - 1]];
      assert Pending(g, s, p[i]);
    }
  }

  /**
   With at most 255 workers, in every run no vertex is expanded twice and only vertices reachable by a nonempty path
   are; when the run is complete, all of them have been.
   */
  lemma TraversalIsExact(g: Graph, start: nat, s: State, acts: seq<Action>)
    requires Init(g, start, s) && |s.workers| < BYTE && Possible(g, s, acts)
    ensures var r := After(g, s, acts);
            && (forall v :: 0 <= v < |g| ==> multiset(r.expanded)[v] <= 1)
            && (forall v :: v in r.expanded ==> Reachable(g, start, v))
            && (Finished(r) ==> forall v :: 0 <= v < |g| ==> (v in r.expanded <==> Reachable(g, start, v)))
  {
    InitInv(g, start, s);
    InvAlways(g, start, s, acts);
    var r := After(g, s, acts);
    forall v | 0 <= v < |g|
      ensures multiset(r.expanded)[v] <= 1
    {
      assert ColorOk(r, v);
    }
    if Finished(r) {
      forall v | 0 <= v < |g| && Reachable(g, start, v)
        ensures v in r.expanded
      {
        var p :| Path(g, start, p) && p[|p| - 1] == v;
        PathIsExpanded(g, start, r, p, |p| - 1);
      }
    }
  }

  // ---------------------------------------------------------------- 256 workers are too many

  ghost predicate Reaches(g: Graph, s: State, r: State) {
    exists acts :: Possible(g, s, acts) && After(g, s, acts) == r
  }

  lemma {:induction false} AppendAction(g: Graph, s: State, acts: seq<Action>, a: Action)
    requires Possible(g, s, acts) && Enabled(g, After(g, s, acts), a)
    ensures Possible(g, s, acts + [a]) && After(g, s, acts + [a]) == Do(g, After(g, s, acts), a)
    decreases |acts|
  {
    var all := acts + [a];
    if acts == [] {
      assert all[1..] == [];
    } else {
      AppendAction(g, Do(g, s, acts[0]), acts[1..], a);
      assert all[1..] == acts[1..] + [a];
    }
  }

  lemma ReachesStep(g: Graph, s: State, r: State, a: Action)
    requires Reaches(g, s, r) && Enabled(g, r, a)
    ensures Reaches(g, s, Do(g, r, a))
  {
    var acts :| Possible(g, s, acts) && After(g, s, acts) == r;
    AppendAction(g, s, acts, a);
  }

  /** Vertex 0 has an edge to vertex 1 for every byte value and one more. */
  function Fan(): Graph {
    [seq(BYTE + 1, _ => 1), []]
  }

  function FanStart(n: nat): State {
    State([WHITE, WHITE], multiset{Walk(Fan()[0])}, seq(n, _ => Free), [])
  }

  /** All visits can be spawned before any of them starts. */
  lemma FanSpawns(n: nat) returns (r: State)
    requires n >= BYTE
    ensures Init(Fan(), 0, FanStart(n)) && Reaches(Fan(), FanStart(n), r)
    ensures r.color == [WHITE, WHITE] && r.workers == seq(n, _ => Free) && r.expanded == []
    ensures r.pool[Visit(1)] == BYTE + 1
  {
    var g, s := Fan(), FanStart(n);
    var edges := g[0];
    var s1 := Do(g, s, Start(0, Walk(edges)));
    var walk := WalkSpawnsEveryElement(g, s1, 0, |edges|);
    var acts := [Start(0, Walk(edges))] + walk;
    assert acts[0] == Start(0, Walk(edges)) && acts[1..] == walk;
    r := After(g, s, acts);
    SameVisits(edges, 1);
    assert r.workers == seq(n, _ => Free);
  }

  lemma {:induction false} SameVisits(edges: seq<nat>, v: nat)
    requires forall i :: 0 <= i < |edges| ==> edges[i] == v
    ensures VisitsOf(edges)[Visit(v)] == |edges|
  {
    if edges != [] {
      SameVisits(edges[1..], v);
    }
  }

  /** 256 workers can all read WHITE before any of them counts. */
  lemma AllRead(g: Graph, s: State, r0: State) returns (r: State)
    requires |g| == 2 && |r0.workers| >= BYTE && Reaches(g, s, r0)
    requires r0.color == [WHITE, WHITE] && r0.expanded == [] && r0.pool[Visit(1)] == BYTE + 1
    requires forall w :: 0 <= w < |r0.workers| ==> r0.workers[w] == Free
    ensures Reaches(g, s, r) && r.color == [WHITE, WHITE] && r.expanded == [] && |r.workers| == |r0.workers|
    ensures r.pool[Visit(1)] == 1 && forall w :: 0 <= w < BYTE ==> r.workers[w] == Counting(1)
  {
    r := r0;
    for i := 0 to BYTE
      invariant Reaches(g, s, r) && r.color == [WHITE, WHITE] && r.expanded == [] && |r.workers| == |r0.workers|
      invariant r.pool[Visit(1)] == BYTE + 1 - i
      invariant forall w :: 0 <= w < |r.workers| ==> r.workers[w] == if w < i then Counting(1) else Free
    {
      ReachesStep(g, s, r, Start(i, Visit(1)));
      r := Do(g, r, Start(i, Visit(1)));
    }
  }

  lemma CountOnce(g: Graph, r: State, i: nat) returns (r': State)
    requires |g| == |r.color| == 2 && r.color[1] < BYTE && i < |r.workers| && r.workers[i] == Counting(1)
    ensures Enabled(g, r, Count(i)) && r' == Do(g, r, Count(i))
    ensures r'.color == [r.color[0], (r.color[1] + 1) % BYTE] && r'.pool == r.pool
    ensures r'.expanded == if r.color[1] == WHITE then r.expanded + [1] else r.expanded
    ensures r'.workers == r.workers[i := if r.color[1] == WHITE then Expanding(1) else Free]
  {
    r' := Do(g, r, Count(i));
  }

  /** The increments of workers `i` to 255 bring the colour from `i` back to WHITE. */
  lemma {:induction false} ColorWraps(g: Graph, s: State, r0: State, i: nat) returns (r: State)
    requires |g| == 2 && |r0.workers| >= BYTE && Reaches(g, s, r0) && 1 <= i < BYTE && r0.color == [WHITE, i]
    requires forall w :: i <= w < BYTE ==> r0.workers[w] == Counting(1)
    ensures Reaches(g, s, r) && r.color == [WHITE, WHITE] && r.expanded == r0.expanded && r.pool == r0.pool
    ensures |r.workers| == |r0.workers| && (i == 1 || r0.workers[1] == Free ==> r.workers[1] == Free)
    decreases BYTE - i
  {
    ReachesStep(g, s, r0, Count(i));
    var r1 := CountOnce(g, r0, i);
    if i == BYTE - 1 {
      r := r1;
    } else {
      r := ColorWraps(g, s, r1, i + 1);
    }
  }

  /** With 256 or more workers a run can expand a vertex twice, so 255 is the exact limit. */
  lemma TooManyWorkersExpandTwice(n: nat)
    requires n >= BYTE
    ensures Init(Fan(), 0, FanStart(n)) && |FanStart(n).workers| == n
    ensures exists acts :: Possible(Fan(), FanStart(n), acts) && After(Fan(), FanStart(n), acts).expanded == [1, 1]
  {
    var g, s := Fan(), FanStart(n);
    var r := FanSpawns(n);
    r := AllRead(g, s, r);
    ReachesStep(g, s, r, Count(0));
    r := CountOnce(g, r, 0);
    r := ColorWraps(g, s, r, 1);
    ReachesStep(g, s, r, Start(1, Visit(1)));
    r := Do(g, r, Start(1, Visit(1)));
    ReachesStep(g, s, r, Count(1));
    r := Do(g, r, Count(1));
    assert r.expanded == [1, 1];
    var acts :| Possible(g, s, acts) && After(g, s, acts) == r;
  }
}
