/**
 The work-stealing group barrier (pfunc/group.hpp, `barrier_steal`).

 Arrivals are counted under the group's lock; waiters poll the one-bit phase without the lock, and
 run other tasks between two polls.  The lock itself is taken as the abstract lock that the futex
 mutex refines.  Members are the tasks of the group, and each may step at any time, as if it had a
 thread of its own; `entered`, `left` and `gen` are history.
 */
module GroupBarrier {
  import opened Common
  import BarrierSpec

  datatype Pc =
    | Outside
    | LoadMine                          // has the lock, about to read the phase
    | LoadCount(mine: bool)             // about to read the count to increment it
    | StoreCount(mine: bool, read: nat)
    | Compare(mine: bool)               // about to compare the count with the group size
    | ResetCount
    | LoadPhase
    | StorePhase(seen: bool)
    | UnlockLast
    | UnlockWait(mine: bool)
    | Poll(mine: bool)

  datatype State = State(
    size: nat, phase: bool, count: nat, lock: Option<nat>, pcs: seq<Pc>,
    entered: seq<nat>, left: seq<nat>, gen: nat)

  /** The next operation of member `t`; its program counter says which one it is. */
  datatype Action = Lock(t: nat) | Locked(t: nat) | PollPhase(t: nat)

  predicate Init(s: State, n: nat) {
    && 0 < n < WORD
    && s.size == n == |s.pcs| == |s.entered| == |s.left|
    && !s.phase && s.count == 0 && s.lock == None && s.gen == 0
    && (forall t :: 0 <= t < n ==> s.pcs[t] == Outside && s.entered[t] == 0 && s.left[t] == 0)
  }

  predicate HoldsLock(pc: Pc) {
    !pc.Outside? && !pc.Poll?
  }

  predicate Enabled(s: State, a: Action) {
    && a.t < |s.pcs| == |s.entered| == |s.left|
    && match a
       case Lock(t) => s.pcs[t].Outside? && s.lock == None
       case Locked(t) => HoldsLock(s.pcs[t])
       case PollPhase(t) => s.pcs[t].Poll?
  }

  function Goto(s: State, t: nat, pc: Pc): State
    requires t < |s.pcs|
  {
    s.(pcs := s.pcs[t := pc])
  }

  function Leave(s: State, t: nat): State
    requires t < |s.pcs| == |s.left|
  {
    Goto(s, t, Outside).(left := s.left[t := s.left[t] + 1])
  }

  function Do(s: State, a: Action): State
    requires Enabled(s, a)
  {
    var t := a.t;
    match s.pcs[t]
    case Outside => Goto(s, t, LoadMine).(lock := Some(t))
    case LoadMine => Goto(s, t, LoadCount(s.phase))
    case LoadCount(p) => Goto(s, t, StoreCount(p, s.count))
    case StoreCount(p, c) =>
      Goto(s, t, Compare(p)).(count := Wrap32(c + 1), entered := s.entered[t := s.entered[t] + 1])
    case Compare(p) => Goto(s, t, if s.count == s.size then ResetCount else UnlockWait(p))
    case ResetCount => Goto(s, t, LoadPhase).(count := 0)
    case LoadPhase => Goto(s, t, StorePhase(s.phase))
    case StorePhase(p) => Goto(s, t, UnlockLast).(phase := !p, gen := s.gen + 1)
    case UnlockLast => Leave(s.(lock := None), t)
    case UnlockWait(p) => Goto(s, t, Poll(p)).(lock := None)
    case Poll(p) => if p == s.phase then s else Leave(s, t)
  }

  predicate Possible(s: State, acts: seq<Action>)
    decreases |acts|
  {
    acts == [] || (Enabled(s, acts[0]) && Possible(Do(s, acts[0]), acts[1..]))
  }

  function After(s: State, acts: seq<Action>): State
    requires Possible(s, acts)
    decreases |acts|
  {
    if acts == [] then s else After(Do(s, acts[0]), acts[1..])
  }

  lemma RunPrepend(s: State, a: Action, rest: seq<Action>)
    requires Enabled(s, a) && Possible(Do(s, a), rest)
    ensures Possible(s, [a] + rest) && After(s, [a] + rest) == After(Do(s, a), rest)
  {
    var acts := [a] + rest;
    assert acts[0] == a && acts[1..] == rest;
  }

  // ---------------------------------------------------------------- invariant

  /** The one-bit phase as a function of the unbounded generation. */
  function PhaseOf(gen: nat): bool {
    gen % 2 == 1
  }

  predicate Local(pc: Pc, entered: nat, left: nat, gen: nat) {
    match pc
    case Outside => entered == left == gen
    case LoadMine => entered == left == gen
    case LoadCount(p) => entered == left == gen && p == PhaseOf(gen)
    case StoreCount(p, _) => entered == left == gen && p == PhaseOf(gen)
    case Compare(p) => entered == gen + 1 && left == gen && p == PhaseOf(gen)
    case ResetCount => entered == gen + 1 && left == gen
    case LoadPhase => entered == gen + 1 && left == gen
    case StorePhase(p) => entered == gen + 1 && left == gen && p == PhaseOf(gen)
    case UnlockLast => entered == gen == left + 1
    case UnlockWait(p) => entered == gen + 1 && left == gen && p == PhaseOf(gen)
    case Poll(p) =>
      && entered == left + 1
      && ((entered == gen + 1 && p == PhaseOf(gen)) || (entered == gen && p != PhaseOf(gen)))
  }

  ghost predicate Shape(s: State) {
    && 0 < |s.pcs| == |s.entered| == |s.left| == s.size < WORD
    && s.phase == PhaseOf(s.gen)
    && (forall t :: 0 <= t < |s.pcs| ==> Local(s.pcs[t], s.entered[t], s.left[t], s.gen))
    && (forall t :: 0 <= t < |s.pcs| ==> (HoldsLock(s.pcs[t]) <==> s.lock == Some(t)))
    && (s.lock.Some? ==> s.lock.value < |s.pcs|)
  }

  /** Program counter of the member that holds the lock, `Outside` if nobody does. */
  function LockHolder(s: State): Pc
    requires s.lock.Some? ==> s.lock.value < |s.pcs|
  {
    match s.lock case Some(t) => s.pcs[t] case None => Outside
  }

  ghost predicate CountOk(s: State)
    requires Shape(s)
  {
    var arrived, pc := BarrierSpec.Arrived(s.entered, s.gen), LockHolder(s);
    match pc
    case StoreCount(_, c) => s.count == arrived == c && arrived < s.size
    case Compare(_) => s.count == arrived
    case ResetCount => s.count == arrived == s.size
    case LoadPhase => s.count == 0 && arrived == s.size
    case StorePhase(_) => s.count == 0 && arrived == s.size
    case _ => s.count == arrived && arrived < s.size
  }

  ghost predicate Inv(s: State) {
    Shape(s) && CountOk(s)
  }

  /** When the phase flips every other member is polling, with the old phase. */
  lemma LocalAtFlip(s: State, a: Action, u: nat)
    requires Inv(s) && Enabled(s, a) && s.pcs[a.t].StorePhase? && u < |s.pcs|
    ensures var s' := Do(s, a); Local(s'.pcs[u], s'.entered[u], s'.left[u], s'.gen)
  {
    assert Local(s.pcs[u], s.entered[u], s.left[u], s.gen);
    BarrierSpec.ArrivedBounds(s.entered, s.gen);
    assert HoldsLock(s.pcs[a.t]);
    assert s.entered[u] > s.gen;
    assert u != a.t ==> s.pcs[u].Poll?;
  }

  lemma LocalOtherwise(s: State, a: Action)
    requires Inv(s) && Enabled(s, a) && !s.pcs[a.t].StorePhase?
    ensures var s', u := Do(s, a), a.t; Local(s'.pcs[u], s'.entered[u], s'.left[u], s'.gen)
  {
    assert Local(s.pcs[a.t], s.entered[a.t], s.left[a.t], s.gen);
  }

  /** Except for the flip a step touches only what its own member sees. */
  lemma OthersUntouched(s: State, a: Action, u: nat)
    requires Enabled(s, a) && !s.pcs[a.t].StorePhase? && u < |s.pcs| && u != a.t
    ensures var s' := Do(s, a);
            && s'.pcs[u] == s.pcs[u] && s'.entered[u] == s.entered[u] && s'.left[u] == s.left[u] && s'.gen == s.gen
  {
  }

  lemma LocalStep(s: State, a: Action, u: nat)
    requires Inv(s) && Enabled(s, a) && u < |s.pcs|
    ensures var s' := Do(s, a); Local(s'.pcs[u], s'.entered[u], s'.left[u], s'.gen)
  {
    if s.pcs[a.t].StorePhase? {
      LocalAtFlip(s, a, u);
    } else if u == a.t {
      LocalOtherwise(s, a);
    } else {
      OthersUntouched(s, a, u);
    }
  }

  /** Only the lock's holder touches the lock, and only a free lock is taken. */
  lemma LockStep(s: State, a: Action)
    requires Inv(s) && Enabled(s, a)
    ensures var s' := Do(s, a);
            && (s'.lock.Some? ==> s'.lock.value < |s'.pcs|)
            && forall u :: 0 <= u < |s'.pcs| ==> (HoldsLock(s'.pcs[u]) <==> s'.lock == Some(u))
  {
    var s' := Do(s, a);
    forall u | 0 <= u < |s'.pcs|
      ensures HoldsLock(s'.pcs[u]) <==> s'.lock == Some(u)
    {
      LockStepOf(s, a, u);
    }
    assert HoldsLock(s.pcs[a.t]) <==> s.lock == Some(a.t);
  }

  lemma LockStepOf(s: State, a: Action, u: nat)
    requires Enabled(s, a) && u < |s.pcs|
    requires HoldsLock(s.pcs[a.t]) <==> s.lock == Some(a.t)
    requires HoldsLock(s.pcs[u]) <==> s.lock == Some(u)
    ensures |Do(s, a).pcs| == |s.pcs| && (HoldsLock(Do(s, a).pcs[u]) <==> Do(s, a).lock == Some(u))
  {
  }

  lemma ShapeStep(s: State, a: Action)
    requires Inv(s) && Enabled(s, a)
    ensures Shape(Do(s, a))
  {
    var s' := Do(s, a);
    forall u | 0 <= u < |s'.pcs|
      ensures Local(s'.pcs[u], s'.entered[u], s'.left[u], s'.gen)
    {
      LocalStep(s, a, u);
    }
    LockStep(s, a);
    assert Local(s.pcs[a.t], s.entered[a.t], s.left[a.t], s.gen);
  }

  lemma CountAtArrival(s: State, a: Action)
    requires Inv(s) && Enabled(s, a) && Shape(Do(s, a)) && s.pcs[a.t].StoreCount?
    ensures CountOk(Do(s, a))
  {
    var s' := Do(s, a);
    assert HoldsLock(s.pcs[a.t]) <==> s.lock == Some(a.t);
    assert Local(s.pcs[a.t], s.entered[a.t], s.left[a.t], s.gen);
    BarrierSpec.ArrivedOneMore(s.entered, s.gen, a.t);
    BarrierSpec.ArrivedBounds(s'.entered, s'.gen);
  }

  lemma CountAtFlip(s: State, a: Action)
    requires Inv(s) && Enabled(s, a) && Shape(Do(s, a)) && s.pcs[a.t].StorePhase?
    ensures CountOk(Do(s, a))
  {
    var s' := Do(s, a);
    assert HoldsLock(s.pcs[a.t]) <==> s.lock == Some(a.t);
    BarrierSpec.ArrivedBounds(s'.entered, s'.gen);
    assert Local(s'.pcs[a.t], s'.entered[a.t], s'.left[a.t], s'.gen);
  }

  lemma CountStep(s: State, a: Action)
    requires Inv(s) && Enabled(s, a) && Shape(Do(s, a))
    ensures CountOk(Do(s, a))
  {
    assert HoldsLock(s.pcs[a.t]) <==> s.lock == Some(a.t);
    if s.pcs[a.t].StoreCount? {
      CountAtArrival(s, a);
    } else if s.pcs[a.t].StorePhase? {
      CountAtFlip(s, a);
    } else if HoldsLock(s.pcs[a.t]) {
      CountUnderLock(s, a);
    } else {
      CountOutsideLock(s, a);
    }
  }

  lemma CountUnderLock(s: State, a: Action)
    requires Inv(s) && Enabled(s, a) && Shape(Do(s, a)) && HoldsLock(s.pcs[a.t])
    requires !s.pcs[a.t].StoreCount? && !s.pcs[a.t].StorePhase?
    ensures CountOk(Do(s, a))
  {
    assert s.lock == Some(a.t);
    BarrierSpec.ArrivedBounds(s.entered, s.gen);
  }

  lemma CountOutsideLock(s: State, a: Action)
    requires Inv(s) && Enabled(s, a) && Shape(Do(s, a)) && !HoldsLock(s.pcs[a.t])
    ensures CountOk(Do(s, a))
  {
    assert s.lock != Some(a.t);
  }

  lemma InvStep(s: State, a: Action)
    requires Inv(s) && Enabled(s, a)
    ensures Inv(Do(s, a)) && |Do(s, a).pcs| == |s.pcs|
  {
    ShapeStep(s, a);
    CountStep(s, a);
    SizeStays(s, a);
  }

  lemma SizeStays(s: State, a: Action)
    requires Enabled(s, a)
    ensures |Do(s, a).pcs| == |s.pcs|
  {
  }

  lemma {:induction false} InvAlways(s: State, acts: seq<Action>)
    requires Inv(s) && Possible(s, acts)
    ensures Inv(After(s, acts)) && |After(s, acts).pcs| == |s.pcs|
    decreases |acts|
  {
    if acts != [] {
      InvStep(s, acts[0]);
      InvAlways(Do(s, acts[0]), acts[1..]);
    }
  }

  /** A group of any size can be set up. */
  lemma InitialState(n: nat) returns (s: State)
    requires 0 < n < WORD
    ensures Init(s, n)
  {
    s := State(n, false, 0, None, seq(n, _ => Outside), seq(n, _ => 0), seq(n, _ => 0), 0);
  }

  /**
   For every group size, number of rounds and interleaving: nobody returns from its k-th barrier before
   everybody has made its k-th call, and no member is ever more than one flip behind the generation.
   */
  lemma GroupBarrierCorrect(s: State, n: nat, acts: seq<Action>)
    requires Init(s, n) && Possible(s, acts)
    ensures var r := After(s, acts);
            && |r.entered| == |r.left| == |r.pcs| == n
            && (forall t, u :: 0 <= t < n && 0 <= u < n ==> r.left[t] <= r.entered[u])
            && (forall t :: 0 <= t < n ==> r.gen <= r.entered[t] <= r.gen + 1 && r.gen <= r.left[t] + 1)
            && r.phase == PhaseOf(r.gen)
  {
    BarrierSpec.ArrivedBounds(s.entered, s.gen);
    InvAlways(s, acts);
    var r := After(s, acts);
    assert forall t :: 0 <= t < n ==> Local(r.pcs[t], r.entered[t], r.left[t], r.gen);
  }

  function Abstract(s: State): BarrierSpec.State {
    BarrierSpec.State(s.entered, s.left)
  }

  /** Every operation is a step of the reference barrier, or invisible to it. */
  lemma StepRefinesBarrier(s: State, a: Action)
    requires Inv(s) && Enabled(s, a)
    ensures BarrierSpec.Next(Abstract(s), Abstract(Do(s, a)))
  {
    var s' := Do(s, a);
    assert Local(s.pcs[a.t], s.entered[a.t], s.left[a.t], s.gen);
    if s.pcs[a.t].StoreCount? {
      assert BarrierSpec.Enter(Abstract(s), a.t, Abstract(s'));
    } else if s.pcs[a.t].UnlockLast? || (s.pcs[a.t].Poll? && s.pcs[a.t].mine != s.phase) {
      assert forall u :: 0 <= u < |s.pcs| ==> Local(s.pcs[u], s.entered[u], s.left[u], s.gen);
      assert BarrierSpec.Leave(Abstract(s), a.t, Abstract(s'));
    } else {
      assert Abstract(s') == Abstract(s);
    }
  }

  lemma {:induction false} StepsRefine(s: State, acts: seq<Action>) returns (run: seq<BarrierSpec.State>)
    requires Inv(s) && Possible(s, acts)
    ensures |run| == |acts| + 1 && run[0] == Abstract(s) && run[|acts|] == Abstract(After(s, acts))
    ensures BarrierSpec.Connected(run)
    decreases |acts|
  {
    if acts == [] {
      run := [Abstract(s)];
    } else {
      StepRefinesBarrier(s, acts[0]);
      InvStep(s, acts[0]);
      var rest := StepsRefine(Do(s, acts[0]), acts[1..]);
      run := [Abstract(s)] + rest;
      BarrierSpec.Prepend(Abstract(s), rest);
    }
  }

  /** Every run, seen through arrivals and returns, is a behaviour of the reference barrier. */
  lemma RunRefinesBarrier(s: State, n: nat, acts: seq<Action>) returns (run: seq<BarrierSpec.State>)
    requires Init(s, n) && Possible(s, acts)
    ensures BarrierSpec.Behavior(run) && run[|run| - 1] == Abstract(After(s, acts))
    ensures BarrierSpec.Safe(Abstract(After(s, acts)))
  {
    BarrierSpec.ArrivedBounds(s.entered, s.gen);
    run := StepsRefine(s, acts);
    BarrierSpec.BarrierSafe(run, |acts|);
  }

  /** The one bit refines the unbounded counter: a poll fails exactly while the member's round is open. */
  lemma PhaseTellsTheGeneration(s: State, t: nat)
    requires Inv(s) && t < |s.pcs| && s.pcs[t].Poll?
    ensures s.pcs[t].mine == s.phase <==> s.gen < s.entered[t]
    ensures s.pcs[t].mine != s.phase <==> s.gen == s.entered[t]
  {
    assert Local(s.pcs[t], s.entered[t], s.left[t], s.gen);
  }

  // ---------------------------------------------------------------- deadlock freedom

  const ONE_ROUND := 13

  predicate Entering(pc: Pc) {
    pc.LoadMine? || pc.LoadCount? || pc.StoreCount?
  }

  /** Operations until a member has left the round it enters next or is in, once nothing holds it up. */
  function ToLeave(pc: Pc): nat {
    match pc
    case Outside => 12
    case LoadMine => 11
    case LoadCount(_) => 10
    case StoreCount(_, _) => 9
    case Compare(_) => 8
    case ResetCount => 7
    case LoadPhase => 6
    case StorePhase(_) => 5
    case UnlockLast => 4
    case UnlockWait(_) => 3
    case Poll(_) => 1
  }

  /** How far a member is from having left round `goal`, the open one or the one just completed. */
  function Rank(pc: Pc, left: nat, goal: nat): nat {
    if left >= goal then 0 else ToLeave(pc) + if left + 1 < goal then ONE_ROUND else 0
  }

  function Ranks(s: State, goal: nat): seq<nat>
    requires |s.pcs| == |s.left|
  {
    seq(|s.pcs|, u requires 0 <= u < |s.pcs| == |s.left| => Rank(s.pcs[u], s.left[u], goal))
  }

  /** On the way to everybody having left round `goal`, and nobody on the way into a later one. */
  ghost predicate Heading(s: State, goal: nat) {
    && Inv(s) && s.gen <= goal <= s.gen + 1
    && (s.gen == goal ==> forall t :: 0 <= t < |s.pcs| ==> s.entered[t] == goal && !Entering(s.pcs[t]))
  }

  ghost predicate AllLeft(s: State, goal: nat) {
    && |s.pcs| == |s.entered| == |s.left| && s.gen == goal
    && forall t :: 0 <= t < |s.pcs| ==> s.pcs[t].Outside? && s.entered[t] == s.left[t] == goal
  }

  /** A step that brings its member closer: not a poll that finds the phase unchanged. */
  ghost predicate Useful(s: State, a: Action, goal: nat)
    requires Enabled(s, a)
  {
    s.left[a.t] < goal && (a.PollPhase? ==> s.pcs[a.t].mine != s.phase)
  }

  lemma RankDrops(s: State, a: Action, goal: nat)
    requires Heading(s, goal) && Enabled(s, a) && Useful(s, a, goal)
    ensures |Do(s, a).pcs| == |Do(s, a).left| && Sum(Ranks(Do(s, a), goal)) < Sum(Ranks(s, goal))
  {
    var was, now := Ranks(s, goal), Ranks(Do(s, a), goal);
    assert Local(s.pcs[a.t], s.entered[a.t], s.left[a.t], s.gen);
    OwnRankDrops(s, a, goal);
    forall u | 0 <= u < |was|
      ensures now[u] <= was[u]
    {
      if u != a.t {
        OtherRankStays(s, a, goal, u);
      }
    }
    SumDrops(now, was, a.t);
  }

  lemma OtherRankStays(s: State, a: Action, goal: nat, u: nat)
    requires Enabled(s, a) && u < |s.pcs| && u != a.t
    ensures var s' := Do(s, a);
            && |s'.pcs| == |s'.left| == |s.pcs|
            && Rank(s'.pcs[u], s'.left[u], goal) <= Rank(s.pcs[u], s.left[u], goal)
  {
  }

  lemma OwnRankDrops(s: State, a: Action, goal: nat)
    requires Enabled(s, a) && Useful(s, a, goal) && Local(s.pcs[a.t], s.entered[a.t], s.left[a.t], s.gen)
    requires s.gen <= goal <= s.gen + 1
    ensures var s', t := Do(s, a), a.t; Rank(s'.pcs[t], s'.left[t], goal) < Rank(s.pcs[t], s.left[t], goal)
  {
  }

  /** Everybody has arrived when the phase flips, so nobody is on the way into the next round. */
  lemma HeadingAtFlip(s: State, a: Action, goal: nat)
    requires Heading(s, goal) && Enabled(s, a) && s.pcs[a.t].StorePhase? && Inv(Do(s, a))
    ensures Heading(Do(s, a), goal)
  {
    assert Local(s.pcs[a.t], s.entered[a.t], s.left[a.t], s.gen);
    assert HoldsLock(s.pcs[a.t]);
    BarrierSpec.ArrivedBounds(s.entered, s.gen);
    var s' := Do(s, a);
    forall t | 0 <= t < |s'.pcs|
      ensures s'.entered[t] == goal && !Entering(s'.pcs[t])
    {
      assert Local(s.pcs[t], s.entered[t], s.left[t], s.gen);
    }
  }

  lemma HeadingStep(s: State, a: Action, goal: nat)
    requires Heading(s, goal) && Enabled(s, a) && Useful(s, a, goal)
    ensures Heading(Do(s, a), goal)
  {
    InvStep(s, a);
    assert Local(s.pcs[a.t], s.entered[a.t], s.left[a.t], s.gen);
    if s.pcs[a.t].StorePhase? {
      HeadingAtFlip(s, a, goal);
    }
  }

  lemma FindUsefulStep(s: State, goal: nat) returns (a: Action)
    requires Heading(s, goal) && !AllLeft(s, goal)
    ensures Enabled(s, a) && Useful(s, a, goal)
  {
    if s.lock.Some? {
      var t := s.lock.value;
      assert HoldsLock(s.pcs[t]) && Local(s.pcs[t], s.entered[t], s.left[t], s.gen);
      a := Locked(t);
    } else {
      BarrierSpec.ArrivedBounds(s.entered, s.gen);
      var t :| 0 <= t < |s.pcs| && s.entered[t] <= s.gen && (s.gen == goal ==> !s.pcs[t].Outside?);
      assert Local(s.pcs[t], s.entered[t], s.left[t], s.gen);
      assert !HoldsLock(s.pcs[t]);
      a := if s.pcs[t].Outside? then Lock(t) else PollPhase(t);
    }
  }

  lemma {:induction false} ReachGoal(s: State, goal: nat) returns (acts: seq<Action>)
    requires Heading(s, goal)
    ensures Possible(s, acts) && AllLeft(After(s, acts), goal)
    decreases Sum(Ranks(s, goal))
  {
    if AllLeft(s, goal) {
      acts := [];
    } else {
      var a := FindUsefulStep(s, goal);
      RankDrops(s, a, goal);
      HeadingStep(s, a, goal);
      var rest := ReachGoal(Do(s, a), goal);
      acts := [a] + rest;
      RunPrepend(s, a, rest);
    }
  }

  /**
   With every member on a thread of its own, no state of the invariant is stuck: a continuation exists in which
   everybody enters and leaves the open round.  `GroupOnWorkers` says how many threads that takes.
   */
  lemma EverybodyCanLeave(s: State) returns (acts: seq<Action>)
    requires Inv(s)
    ensures Possible(s, acts) && AllLeft(After(s, acts), s.gen + 1)
  {
    acts := ReachGoal(s, s.gen + 1);
  }
}
