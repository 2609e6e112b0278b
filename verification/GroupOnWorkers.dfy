/**
 A group of tasks at its work-stealing barrier, on a limited number of worker threads (pfunc/group.hpp,
 pfunc/taskmgr.hpp, pfunc/predicate.hpp).

 A worker keeps the member it runs until that member ends: while the member polls, `progress_barrier` accepts no task of
 the same group.  The group is alone, so there is nothing else to run.  Every member makes `rounds` barrier calls.
 */
module GroupOnWorkers {
  import opened Common
  import B = GroupBarrier

  datatype Place = Queued | On(w: nat) | Ended

  datatype Config = Config(workers: nat, rounds: nat)

  datatype State = State(base: B.State, places: seq<Place>)

  datatype Action =
    | Begin(w: nat, t: nat)
    | Step(a: B.Action)
    | End(t: nat)

  ghost predicate Init(s: State, n: nat) {
    B.Init(s.base, n) && |s.places| == n && forall t :: 0 <= t < n ==> s.places[t].Queued?
  }

  /** The workers that run a member. */
  function Busy(places: seq<Place>): set<nat> {
    if places == [] then {} else (if places[0].On? then {places[0].w} else {}) + Busy(places[1..])
  }

  predicate Enabled(c: Config, s: State, a: Action) {
    && |s.places| == |s.base.pcs| == |s.base.left|
    && match a
       case Begin(w, t) => w < c.workers && t < |s.places| && s.places[t].Queued? && w !in Busy(s.places)
       case Step(b) => B.Enabled(s.base, b) && s.places[b.t].On? && (b.Lock? ==> s.base.left[b.t] < c.rounds)
       case End(t) =>
         t < |s.places| && s.places[t].On? && s.base.pcs[t].Outside? && s.base.left[t] == c.rounds
  }

  function Do(c: Config, s: State, a: Action): State
    requires Enabled(c, s, a)
  {
    match a
    case Begin(w, t) => s.(places := s.places[t := On(w)])
    case Step(b) => s.(base := B.Do(s.base, b))
    case End(t) => s.(places := s.places[t := Ended])
  }

  predicate Possible(c: Config, s: State, acts: seq<Action>)
    decreases |acts|
  {
    acts == [] || (Enabled(c, s, acts[0]) && Possible(c, Do(c, s, acts[0]), acts[1..]))
  }

  function After(c: Config, s: State, acts: seq<Action>): State
    requires Possible(c, s, acts)
    decreases |acts|
  {
    if acts == [] then s else After(c, Do(c, s, acts[0]), acts[1..])
  }

  lemma RunPrepend(c: Config, s: State, a: Action, rest: seq<Action>)
    requires Enabled(c, s, a) && Possible(c, Do(c, s, a), rest)
    ensures Possible(c, s, [a] + rest) && After(c, s, [a] + rest) == After(c, Do(c, s, a), rest)
  {
    var acts := [a] + rest;
    assert acts[0] == a && acts[1..] == rest;
  }

  lemma {:induction false} RunConcat(c: Config, s: State, acts: seq<Action>, more: seq<Action>)
    requires Possible(c, s, acts) && Possible(c, After(c, s, acts), more)
    ensures Possible(c, s, acts + more) && After(c, s, acts + more) == After(c, After(c, s, acts), more)
    decreases |acts|
  {
    if acts == [] {
      assert acts + more == more;
    } else {
      RunConcat(c, Do(c, s, acts[0]), acts[1..], more);
      RunPrepend(c, s, acts[0], acts[1..] + more);
      assert acts + more == [acts[0]] + (acts[1..] + more);
    }
  }

  // ---------------------------------------------------------------- counting workers

  function QueuedOne(p: Place): nat {
    if p.Queued? then 1 else 0
  }

  /** Each worker runs one member at most. */
  predicate OneEach(places: seq<Place>) {
    forall t, u :: 0 <= t < u < |places| && places[t].On? && places[u].On? ==> places[t].w != places[u].w
  }

  lemma {:induction false} BusyMember(places: seq<Place>, w: nat)
    ensures w in Busy(places) <==> exists t :: 0 <= t < |places| && places[t] == On(w)
  {
    if places != [] {
      BusyMember(places[1..], w);
      if t :| 0 <= t < |places| && places[t] == On(w) {
        assert t > 0 ==> places[1..][t - 1] == On(w);
      }
      if t :| 0 <= t < |places[1..]| && places[1..][t] == On(w) {
        assert places[t + 1] == On(w);
      }
    }
  }

  /** Members that are still queued keep no worker busy. */
  lemma {:induction false} BusyAtMost(places: seq<Place>)
    ensures |Busy(places)| + Total(places, QueuedOne) <= |places|
  {
    if places != [] {
      BusyAtMost(places[1..]);
    }
  }

  lemma {:induction false} AllBusy(places: seq<Place>)
    requires OneEach(places) && forall t :: 0 <= t < |places| ==> places[t].On?
    ensures |Busy(places)| == |places|
  {
    if places != [] {
      AllBusy(places[1..]);
      BusyMember(places[1..], places[0].w);
      assert forall t :: 0 < t < |places| ==> places[1..][t - 1] == places[t];
    }
  }

  function Below(n: nat): set<nat> {
    if n == 0 then {} else Below(n - 1) + {n - 1}
  }

  lemma {:induction false} BelowSize(n: nat)
    ensures |Below(n)| == n && forall w: nat :: w in Below(n) <==> w < n
  {
    if n > 0 {
      BelowSize(n - 1);
    }
  }

  /** As many members as run at once there are workers. */
  lemma AllRunning(places: seq<Place>, workers: nat)
    requires OneEach(places) && forall t :: 0 <= t < |places| ==> places[t].On? && places[t].w < workers
    ensures |places| <= workers
  {
    AllBusy(places);
    BelowSize(workers);
    forall w | w in Busy(places)
      ensures w in Below(workers)
    {
      BusyMember(places, w);
    }
    SubsetSize(Busy(places), Below(workers));
  }

  /** While a member is queued and there are as many workers as members, one of them is free. */
  lemma FreeWorker(places: seq<Place>, workers: nat, t: nat) returns (w: nat)
    requires |places| <= workers && t < |places| && places[t].Queued?
    ensures w < workers && w !in Busy(places)
  {
    BusyAtMost(places);
    TotalAtLeast(places, t, QueuedOne);
    BelowSize(workers);
    if Below(workers) <= Busy(places) {
      SubsetSize(Below(workers), Busy(places));
    }
    w :| w in Below(workers) && w !in Busy(places);
  }

  // ---------------------------------------------------------------- invariant

  ghost predicate MemberOk(c: Config, s: State, t: nat)
    requires t < |s.places| == |s.base.pcs| == |s.base.left| == |s.base.entered|
  {
    match s.places[t]
    case Queued => s.base.pcs[t].Outside? && s.base.entered[t] == 0
    case On(w) => w < c.workers
    case Ended => s.base.pcs[t].Outside? && s.base.left[t] == c.rounds
  }

  ghost predicate Inv(c: Config, s: State) {
    && B.Inv(s.base) && |s.places| == |s.base.pcs| && c.rounds > 0
    && OneEach(s.places)
    && (forall t :: 0 <= t < |s.places| ==> MemberOk(c, s, t))
    && (s.base.gen > 0 ==> |s.places| <= c.workers)
  }

  lemma MembersStep(c: Config, s: State, a: Action, t: nat)
    requires Inv(c, s) && Enabled(c, s, a) && t < |s.places| && B.Inv(Do(c, s, a).base)
    ensures |Do(c, s, a).base.pcs| == |s.places| && MemberOk(c, Do(c, s, a), t)
  {
    assert MemberOk(c, s, t);
    match a {
      case Step(b) =>
        if t == b.t {
          assert s.places[t].On?;
        } else {
          OthersStay(c, s, b, t);
        }
      case _ =>
    }
  }

  lemma OthersStay(c: Config, s: State, b: B.Action, t: nat)
    requires Enabled(c, s, Step(b)) && t < |s.places| && t != b.t
    ensures var base' := B.Do(s.base, b);
            && |base'.pcs| == |base'.left| == |base'.entered| == |s.places|
            && (s.base.pcs[t].Outside? ==> base'.pcs[t].Outside?)
            && base'.entered[t] == s.base.entered[t] && base'.left[t] == s.base.left[t]
  {
  }

  lemma OneEachStep(c: Config, s: State, a: Action)
    requires Inv(c, s) && Enabled(c, s, a)
    ensures OneEach(Do(c, s, a).places)
  {
    if a.Begin? {
      BusyMember(s.places, a.w);
    }
  }

  /** The first flip needs every member on a worker of its own. */
  lemma FlipNeedsAll(c: Config, s: State, a: Action)
    requires Inv(c, s) && Enabled(c, s, a) && s.base.gen == 0 && Do(c, s, a).base.gen > 0
    ensures |s.places| <= c.workers
  {
    var t := a.a.t;
    assert s.base.pcs[t].StorePhase?;
    assert B.HoldsLock(s.base.pcs[t]);
    B.BarrierSpec.ArrivedBounds(s.base.entered, s.base.gen);
    forall u | 0 <= u < |s.places|
      ensures s.places[u].On? && s.places[u].w < c.workers
    {
      assert MemberOk(c, s, u) && B.Local(s.base.pcs[u], s.base.entered[u], s.base.left[u], s.base.gen);
    }
    AllRunning(s.places, c.workers);
  }

  lemma BaseStep(c: Config, s: State, a: Action)
    requires Inv(c, s) && Enabled(c, s, a)
    ensures B.Inv(Do(c, s, a).base)
  {
    if a.Step? {
      B.InvStep(s.base, a.a);
    }
  }

  lemma InvStep(c: Config, s: State, a: Action)
    requires Inv(c, s) && Enabled(c, s, a)
    ensures Inv(c, Do(c, s, a))
  {
    BaseStep(c, s, a);
    OneEachStep(c, s, a);
    AllMembersStep(c, s, a);
    if s.base.gen == 0 && Do(c, s, a).base.gen > 0 {
      FlipNeedsAll(c, s, a);
    }
  }

  lemma AllMembersStep(c: Config, s: State, a: Action)
    requires Inv(c, s) && Enabled(c, s, a) && B.Inv(Do(c, s, a).base)
    ensures var s' := Do(c, s, a);
            && |s'.base.pcs| == |s'.places| == |s.places|
            && forall t :: 0 <= t < |s'.places| ==> MemberOk(c, s', t)
  {
    var s' := Do(c, s, a);
    forall t | 0 <= t < |s'.places|
      ensures |s'.base.pcs| == |s.places| && MemberOk(c, s', t)
    {
      MembersStep(c, s, a, t);
    }
    if s.places != [] {
      MembersStep(c, s, a, 0);
    }
  }

  lemma {:induction false} InvAlways(c: Config, s: State, acts: seq<Action>)
    requires Inv(c, s) && Possible(c, s, acts)
    ensures Inv(c, After(c, s, acts)) && |After(c, s, acts).places| == |s.places|
    decreases |acts|
  {
    if acts != [] {
      InvStep(c, s, acts[0]);
      InvAlways(c, Do(c, s, acts[0]), acts[1..]);
    }
  }

  lemma InitInv(c: Config, s: State, n: nat)
    requires Init(s, n) && c.rounds > 0
    ensures Inv(c, s)
  {
    B.BarrierSpec.ArrivedBounds(s.base.entered, s.base.gen);
  }

  /** A group of any size can be set up, on any number of workers. */
  lemma InitialState(n: nat) returns (s: State)
    requires 0 < n < WORD
    ensures Init(s, n)
  {
    var base := B.InitialState(n);
    s := State(base, seq(n, _ => Queued));
  }

  // ---------------------------------------------------------------- enough workers

  ghost predicate AllOn(s: State) {
    forall t :: 0 <= t < |s.places| ==> s.places[t].On?
  }

  /** Every queued member can begin. */
  lemma {:induction false} BeginAll(c: Config, s: State) returns (acts: seq<Action>)
    requires Inv(c, s) && |s.places| <= c.workers
    ensures Possible(c, s, acts) && After(c, s, acts).base == s.base
    ensures Inv(c, After(c, s, acts)) && |After(c, s, acts).places| == |s.places|
    ensures forall t :: 0 <= t < |s.places| ==> !After(c, s, acts).places[t].Queued?
    decreases Total(s.places, QueuedOne)
  {
    if t :| 0 <= t < |s.places| && s.places[t].Queued? {
      var w := FreeWorker(s.places, c.workers, t);
      var s' := Do(c, s, Begin(w, t));
      TotalUpdate(s.places, t, On(w), QueuedOne);
      InvStep(c, s, Begin(w, t));
      var rest := BeginAll(c, s');
      acts := [Begin(w, t)] + rest;
      RunPrepend(c, s, Begin(w, t), rest);
    } else {
      acts := [];
    }
  }

  /** With everybody running, the barrier's own way out of the round is open. */
  lemma {:induction false} ReachGoal(c: Config, s: State, goal: nat) returns (acts: seq<Action>)
    requires B.Heading(s.base, goal) && goal <= c.rounds && AllOn(s) && |s.places| == |s.base.pcs|
    ensures Possible(c, s, acts) && B.AllLeft(After(c, s, acts).base, goal)
    decreases Sum(B.Ranks(s.base, goal))
  {
    if B.AllLeft(s.base, goal) {
      acts := [];
    } else {
      var a := B.FindUsefulStep(s.base, goal);
      B.RankDrops(s.base, a, goal);
      B.HeadingStep(s.base, a, goal);
      var rest := ReachGoal(c, Do(c, s, Step(a)), goal);
      acts := [Step(a)] + rest;
      RunPrepend(c, s, Step(a), rest);
    }
  }

  /** A continuation exists in which everybody enters and leaves the open round. */
  ghost predicate CanLeave(c: Config, s: State) {
    exists acts :: Possible(c, s, acts) && B.AllLeft(After(c, s, acts).base, s.base.gen + 1)
  }

  lemma EnoughWorkersCanLeave(c: Config, s: State)
    requires Inv(c, s) && |s.places| <= c.workers && s.base.gen < c.rounds
    ensures CanLeave(c, s)
  {
    var begin := BeginAll(c, s);
    var r := After(c, s, begin);
    forall t | 0 <= t < |r.places|
      ensures r.places[t].On?
    {
      assert MemberOk(c, r, t) && B.Local(r.base.pcs[t], r.base.entered[t], r.base.left[t], r.base.gen);
    }
    var rest := ReachGoal(c, r, s.base.gen + 1);
    RunConcat(c, s, begin, rest);
  }

  // ---------------------------------------------------------------- the exact condition

  /** Wherever a run has got to, the open round can be left by all. */
  ghost predicate NeverStuck(c: Config, s: State) {
    forall acts :: Possible(c, s, acts) && After(c, s, acts).base.gen < c.rounds ==> CanLeave(c, After(c, s, acts))
  }

  /**
   Exactly when the stealing barrier cannot get stuck: a group alone gets through its rounds, from wherever it is, if
   and only if it has no more members than there are worker threads.
   */
  lemma NeverStuckExactly(c: Config, s: State, n: nat)
    requires Init(s, n) && c.rounds > 0
    ensures NeverStuck(c, s) <==> n <= c.workers
  {
    InitInv(c, s, n);
    if n <= c.workers {
      forall acts | Possible(c, s, acts) && After(c, s, acts).base.gen < c.rounds
        ensures CanLeave(c, After(c, s, acts))
      {
        InvAlways(c, s, acts);
        EnoughWorkersCanLeave(c, After(c, s, acts));
      }
    } else if NeverStuck(c, s) {
      assert Possible(c, s, []) && After(c, s, []) == s;
      var acts :| Possible(c, s, acts) && B.AllLeft(After(c, s, acts).base, 1);
      InvAlways(c, s, acts);
      assert false;
    }
  }

  /** A larger group never completes a round, whatever happens, and none of its members returns from the barrier. */
  lemma LargerGroupIsStuck(c: Config, s: State, n: nat, acts: seq<Action>)
    requires Init(s, n) && c.rounds > 0 && n > c.workers && Possible(c, s, acts)
    ensures var r := After(c, s, acts);
            r.base.gen == 0 && forall t :: 0 <= t < |r.base.left| ==> r.base.left[t] == 0
  {
    InitInv(c, s, n);
    InvAlways(c, s, acts);
    var r := After(c, s, acts);
    forall t | 0 <= t < |r.base.left|
      ensures r.base.left[t] == 0
    {
      assert B.Local(r.base.pcs[t], r.base.entered[t], r.base.left[t], r.base.gen);
    }
  }

  // ---------------------------------------------------------------- the end of the group

  ghost predicate AllEnded(c: Config, s: State) {
    forall t :: 0 <= t < |s.places| ==> s.places[t].Ended? && t < |s.base.left| && s.base.left[t] == c.rounds
  }

  function NotEndedOne(p: Place): nat {
    if p.Ended? then 0 else 1
  }

  /** Members that have made all their rounds can end. */
  lemma {:induction false} EndAll(c: Config, s: State) returns (acts: seq<Action>)
    requires Inv(c, s) && B.AllLeft(s.base, c.rounds) && forall t :: 0 <= t < |s.places| ==> !s.places[t].Queued?
    ensures Possible(c, s, acts) && AllEnded(c, After(c, s, acts))
    decreases Total(s.places, NotEndedOne)
  {
    if t :| 0 <= t < |s.places| && !s.places[t].Ended? {
      TotalUpdate(s.places, t, Ended, NotEndedOne);
      InvStep(c, s, End(t));
      var rest := EndAll(c, Do(c, s, End(t)));
      acts := [End(t)] + rest;
      RunPrepend(c, s, End(t), rest);
    } else {
      acts := [];
    }
  }

  /** All rounds, one after the other. */
  lemma {:induction false} FinishRounds(c: Config, s: State) returns (acts: seq<Action>)
    requires Inv(c, s) && |s.places| <= c.workers && s.base.gen <= c.rounds && B.AllLeft(s.base, s.base.gen)
    ensures Possible(c, s, acts) && Inv(c, After(c, s, acts)) && B.AllLeft(After(c, s, acts).base, c.rounds)
    decreases c.rounds - s.base.gen
  {
    if s.base.gen == c.rounds {
      acts := [];
    } else {
      EnoughWorkersCanLeave(c, s);
      var round :| Possible(c, s, round) && B.AllLeft(After(c, s, round).base, s.base.gen + 1);
      InvAlways(c, s, round);
      var rest := FinishRounds(c, After(c, s, round));
      RunConcat(c, s, round, rest);
      acts := round + rest;
    }
  }

  /** With enough workers the whole group can make all its rounds and end. */
  lemma EverybodyCanEnd(c: Config, s: State, n: nat) returns (acts: seq<Action>)
    requires Init(s, n) && c.rounds > 0 && n <= c.workers
    ensures Possible(c, s, acts) && AllEnded(c, After(c, s, acts))
  {
    InitInv(c, s, n);
    var rounds := FinishRounds(c, s);
    var r := After(c, s, rounds);
    InvAlways(c, s, rounds);
    forall t | 0 <= t < |r.places|
      ensures !r.places[t].Queued?
    {
      assert MemberOk(c, r, t);
    }
    var ends := EndAll(c, r);
    RunConcat(c, s, rounds, ends);
    acts := rounds + ends;
  }

  /** A member makes no more calls than its rounds: a call in progress is one of them. */
  ghost predicate WithinRounds(c: Config, s: State, t: nat)
    requires t < |s.base.pcs| == |s.base.left| == |s.base.entered|
  {
    s.base.entered[t] <= c.rounds && (B.Entering(s.base.pcs[t]) ==> s.base.left[t] < c.rounds)
  }

  lemma WithinRoundsStep(c: Config, s: State, a: Action, t: nat)
    requires Inv(c, s) && Enabled(c, s, a) && t < |s.places| && WithinRounds(c, s, t)
    ensures |Do(c, s, a).base.pcs| == |Do(c, s, a).base.left| == |Do(c, s, a).base.entered| == |s.places|
    ensures WithinRounds(c, Do(c, s, a), t)
  {
    if a.Step? && t == a.a.t {
      assert B.Local(s.base.pcs[t], s.base.entered[t], s.base.left[t], s.base.gen);
    } else if a.Step? {
      OthersStay(c, s, a.a, t);
      OthersDoNotEnter(s.base, a.a, t);
    }
  }

  lemma OthersDoNotEnter(s: B.State, b: B.Action, t: nat)
    requires B.Enabled(s, b) && t < |s.pcs| && t != b.t
    ensures |B.Do(s, b).pcs| == |s.pcs| && B.Do(s, b).pcs[t] == s.pcs[t]
  {
  }

  lemma {:induction false} WithinRoundsAlways(c: Config, s: State, acts: seq<Action>, t: nat)
    requires Inv(c, s) && Possible(c, s, acts) && t < |s.places| && WithinRounds(c, s, t)
    ensures Inv(c, After(c, s, acts)) && |After(c, s, acts).places| == |s.places|
    ensures WithinRounds(c, After(c, s, acts), t)
    decreases |acts|
  {
    if acts != [] {
      InvStep(c, s, acts[0]);
      WithinRoundsStep(c, s, acts[0], t);
      WithinRoundsAlways(c, Do(c, s, acts[0]), acts[1..], t);
    }
  }

  /** In every run each member arrives at the barrier at most `rounds` times. */
  lemma CallsAreBounded(c: Config, s: State, n: nat, acts: seq<Action>, t: nat)
    requires Init(s, n) && c.rounds > 0 && Possible(c, s, acts) && t < n
    ensures t < |After(c, s, acts).base.entered| && After(c, s, acts).base.entered[t] <= c.rounds
  {
    InitInv(c, s, n);
    WithinRoundsAlways(c, s, acts, t);
  }
}
