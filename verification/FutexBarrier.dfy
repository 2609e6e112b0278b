/**
 The futex barrier that starts the worker threads together (pfunc/barrier.hpp).

 Reading the phase, decrementing the count, resetting the count and flipping the phase are separate
 memory operations, so threads of two successive rounds are inside the code at the same time.  The
 fields `entered`, `left` and `gen` are history: arrivals and returns per thread, and phase flips.
 */
module FutexBarrier {
  import opened Common
  import BarrierSpec

  const MAX_RELAXATIONS := 2_000_000

  datatype Pc =
    | Outside
    | Decrement(mine: nat)          // has read the phase, about to decrement the count
    | ResetCount                    // arrived last: about to store the size into the count
    | LoadPhase                     // about to read the phase in order to flip it
    | StorePhase(read: nat)         // about to store the complement
    | WakeAll                       // about to wake every sleeper
    | Check(mine: nat)              // at the loop test
    | Spin(mine: nat, i: nat)
    | Wait(mine: nat)               // about to call futex_wait
    | Sleeping(mine: nat)

  datatype State = State(
    size: nat, phase: nat, count: nat, pcs: seq<Pc>,
    entered: seq<nat>, left: seq<nat>, gen: nat)

  datatype Action =
    | ReadPhase(t: nat)
    | Arrive(t: nat)
    | StoreCount(t: nat)
    | ReadToFlip(t: nat)
    | Flip(t: nat)
    | FutexWakeAll(t: nat)
    | Test(t: nat)
    | Relax(t: nat)
    | FutexWait(t: nat)
    | SpuriousReturn(t: nat)

  /** Bitwise complement of a 32-bit word. */
  function Complement(w: nat): (r: nat)
    requires w < WORD
    ensures r < WORD && r != w
  {
    WORD - 1 - w
  }

  predicate Init(s: State, n: nat) {
    && 0 < n < WORD
    && s.size == s.count == n == |s.pcs| == |s.entered| == |s.left|
    && s.phase == 0 && s.gen == 0
    && (forall t :: 0 <= t < n ==> s.pcs[t] == Outside && s.entered[t] == 0 && s.left[t] == 0)
  }

  predicate Enabled(s: State, a: Action) {
    && a.t < |s.pcs| == |s.entered| == |s.left|
    && s.phase < WORD
    && match a
       case ReadPhase(t) => s.pcs[t].Outside?
       case Arrive(t) => s.pcs[t].Decrement?
       case StoreCount(t) => s.pcs[t].ResetCount?
       case ReadToFlip(t) => s.pcs[t].LoadPhase?
       case Flip(t) => s.pcs[t].StorePhase? && s.pcs[t].read < WORD
       case FutexWakeAll(t) => s.pcs[t].WakeAll?
       case Test(t) => s.pcs[t].Check?
       case Relax(t) => s.pcs[t].Spin?
       case FutexWait(t) => s.pcs[t].Wait?
       case SpuriousReturn(t) => s.pcs[t].Sleeping?
  }

  function Goto(s: State, t: nat, pc: Pc): State
    requires t < |s.pcs|
  {
    s.(pcs := s.pcs[t := pc])
  }

  function Leave(s: State, t: nat): State
    requires t < |s.pcs| == |s.left|
  {
    Goto(s, t, Outside).(left := s.left[t := s.left[t] + 1])
  }

  function Awaken(pc: Pc): Pc {
    if pc.Sleeping? then Check(pc.mine) else pc
  }

  function Do(s: State, a: Action): State
    requires Enabled(s, a)
  {
    match a
    case ReadPhase(t) => Goto(s, t, Decrement(s.phase))
    case Arrive(t) =>
      var before := s.count;
      Goto(s, t, if before == 1 then ResetCount else Check(s.pcs[t].mine))
        .(count := Wrap32(before - 1), entered := s.entered[t := s.entered[t] + 1])
    case StoreCount(t) => Goto(s, t, LoadPhase).(count := s.size)
    case ReadToFlip(t) => Goto(s, t, StorePhase(s.phase))
    case Flip(t) => Goto(s, t, WakeAll).(phase := Complement(s.pcs[t].read), gen := s.gen + 1)
    case FutexWakeAll(t) =>
      Leave(s.(pcs := seq(|s.pcs|, u requires 0 <= u < |s.pcs| => Awaken(s.pcs[u]))), t)
    case Test(t) => if s.phase == s.pcs[t].mine then Goto(s, t, Spin(s.pcs[t].mine, 0)) else Leave(s, t)
    case Relax(t) =>
      var pc := s.pcs[t];
      Goto(s, t, if pc.i < MAX_RELAXATIONS && s.phase == pc.mine then pc.(i := pc.i + 1) else Wait(pc.mine))
    case FutexWait(t) =>
      var p := s.pcs[t].mine;
      Goto(s, t, if s.phase == p then Sleeping(p) else Check(p))
    case SpuriousReturn(t) => Goto(s, t, Check(s.pcs[t].mine))
  }

  predicate Possible(s: State, acts: seq<Action>)
    decreases |acts|
  {
    acts == [] || (Enabled(s, acts[0]) && Possible(Do(s, acts[0]), acts[1..]))
  }

  function After(s: State, acts: seq<Action>): State
    requires Possible(s, acts)
    decreases |acts|
  {
    if acts == [] then s else After(Do(s, acts[0]), acts[1..])
  }

  lemma RunPrepend(s: State, a: Action, rest: seq<Action>)
    requires Enabled(s, a) && Possible(Do(s, a), rest)
    ensures Possible(s, [a] + rest) && After(s, [a] + rest) == After(Do(s, a), rest)
  {
    var acts := [a] + rest;
    assert acts[0] == a && acts[1..] == rest;
  }

  // ---------------------------------------------------------------- invariant

  /** The one-word phase as a function of the number of flips. */
  function PhaseOf(gen: nat): (p: nat)
    ensures p < WORD
  {
    if gen % 2 == 0 then 0 else WORD - 1
  }

  /** The thread that arrived last and has not flipped the phase yet. */
  predicate Closing(pc: Pc) {
    pc.ResetCount? || pc.LoadPhase? || pc.StorePhase?
  }

  predicate Waiting(pc: Pc) {
    pc.Check? || pc.Spin? || pc.Wait? || pc.Sleeping?
  }

  /** What the program counter of one thread says about its rounds. */
  predicate Local(pc: Pc, entered: nat, left: nat, gen: nat) {
    match pc
    case Outside => entered == left == gen
    case Decrement(p) => entered == left == gen && p == PhaseOf(gen)
    case ResetCount => entered == gen + 1 && left == gen
    case LoadPhase => entered == gen + 1 && left == gen
    case StorePhase(p) => entered == gen + 1 && left == gen && p == PhaseOf(gen)
    case WakeAll => entered == gen == left + 1
    case _ =>
      && entered == left + 1
      && (entered == gen + 1 || entered == gen)
      && pc.mine == (if entered == gen + 1 then PhaseOf(gen) else PhaseOf(gen + 1))
  }

  ghost predicate Shape(s: State) {
    && 0 < |s.pcs| == |s.entered| == |s.left| == s.size < WORD
    && s.phase == PhaseOf(s.gen)
    && forall t :: 0 <= t < |s.pcs| ==> Local(s.pcs[t], s.entered[t], s.left[t], s.gen)
  }

  ghost predicate CountOk(s: State)
    requires |s.pcs| == |s.entered|
  {
    var arrived := BarrierSpec.Arrived(s.entered, s.gen);
    && (forall t, u :: 0 <= t < |s.pcs| && 0 <= u < |s.pcs| && Closing(s.pcs[t]) && Closing(s.pcs[u]) ==> t == u)
    && ((exists t :: 0 <= t < |s.pcs| && Closing(s.pcs[t])) <==> arrived == s.size)
    && (if exists t :: 0 <= t < |s.pcs| && s.pcs[t].ResetCount? then s.count == 0
        else if arrived == s.size then s.count == s.size
        else s.count == s.size - arrived)
  }

  /** A thread asleep on the phase of a finished round is still owed a wake. */
  ghost predicate SleepersOwed(s: State) {
    (exists t :: 0 <= t < |s.pcs| && s.pcs[t].Sleeping? && s.pcs[t].mine != s.phase) ==>
      exists u :: 0 <= u < |s.pcs| && s.pcs[u].WakeAll?
  }

  ghost predicate Inv(s: State) {
    Shape(s) && CountOk(s) && SleepersOwed(s)
  }

  /** When the phase flips, every thread has arrived, so nobody's local view is torn. */
  lemma LocalAtFlip(s: State, a: Action, u: nat)
    requires Inv(s) && Enabled(s, a) && a.Flip? && u < |s.pcs|
    ensures var s' := Do(s, a); Local(s'.pcs[u], s'.entered[u], s'.left[u], s'.gen)
  {
    BarrierSpec.ArrivedBounds(s.entered, s.gen);
    assert Closing(s.pcs[a.t]);
    assert s.entered[u] > s.gen;
    assert Local(s.pcs[u], s.entered[u], s.left[u], s.gen);
    assert u != a.t ==> !Closing(s.pcs[u]);
  }

  lemma LocalOtherwise(s: State, a: Action, u: nat)
    requires Inv(s) && Enabled(s, a) && !a.Flip? && u < |s.pcs|
    ensures var s' := Do(s, a); Local(s'.pcs[u], s'.entered[u], s'.left[u], s'.gen)
  {
    assert Local(s.pcs[u], s.entered[u], s.left[u], s.gen);
    if u == a.t {
      LocalOfActor(s, a);
    } else {
      OthersSame(s, a, u);
    }
  }

  lemma LocalOfActor(s: State, a: Action)
    requires Enabled(s, a) && !a.Flip? && s.phase == PhaseOf(s.gen)
    requires Local(s.pcs[a.t], s.entered[a.t], s.left[a.t], s.gen)
    ensures var s', u := Do(s, a), a.t; Local(s'.pcs[u], s'.entered[u], s'.left[u], s'.gen)
  {
  }

  /** Other threads are left alone, except that sleepers may be woken. */
  lemma OthersSame(s: State, a: Action, u: nat)
    requires Enabled(s, a) && !a.Flip? && u < |s.pcs| && u != a.t
    ensures var s' := Do(s, a);
            && |s'.pcs| == |s'.entered| == |s'.left| == |s.pcs|
            && s'.entered[u] == s.entered[u] && s'.left[u] == s.left[u] && s'.gen == s.gen
            && (s'.pcs[u] == s.pcs[u] || s'.pcs[u] == Awaken(s.pcs[u]))
  {
  }

  lemma ShapeStep(s: State, a: Action)
    requires Inv(s) && Enabled(s, a)
    ensures Shape(Do(s, a))
  {
    var s' := Do(s, a);
    forall u | 0 <= u < |s.pcs|
      ensures Local(s'.pcs[u], s'.entered[u], s'.left[u], s'.gen)
    {
      if a.Flip? { LocalAtFlip(s, a, u); } else { LocalOtherwise(s, a, u); }
    }
    assert Local(s.pcs[a.t], s.entered[a.t], s.left[a.t], s.gen);
  }

  lemma CountAtArrival(s: State, a: Action)
    requires Inv(s) && Enabled(s, a) && a.Arrive?
    ensures CountOk(Do(s, a))
  {
    var s' := Do(s, a);
    BarrierSpec.ArrivedBounds(s.entered, s.gen);
    assert Local(s.pcs[a.t], s.entered[a.t], s.left[a.t], s.gen);
    BarrierSpec.ArrivedOneMore(s.entered, s.gen, a.t);
    assert forall u :: 0 <= u < |s.pcs| ==> !Closing(s.pcs[u]);
    assert forall u :: 0 <= u < |s.pcs| && u != a.t ==> s'.pcs[u] == s.pcs[u];
    if s.count == 1 {
      assert Closing(s'.pcs[a.t]);
    }
  }

  lemma CountWhileClosing(s: State, a: Action)
    requires Inv(s) && Enabled(s, a) && (a.StoreCount? || a.ReadToFlip? || a.Flip?)
    ensures CountOk(Do(s, a))
  {
    var s' := Do(s, a);
    BarrierSpec.ArrivedBounds(s.entered, s.gen);
    BarrierSpec.ArrivedBounds(s'.entered, s'.gen);
    assert Closing(s.pcs[a.t]);
    assert forall u :: 0 <= u < |s.pcs| && u != a.t ==> !Closing(s'.pcs[u]);
    if a.Flip? {
      assert forall u :: 0 <= u < |s.pcs| ==> Local(s.pcs[u], s.entered[u], s.left[u], s.gen);
    } else {
      assert Closing(s'.pcs[a.t]);
    }
  }

  /** The count does not depend on which thread is where, beyond who closes the round. */
  lemma CountFrame(s: State, s': State)
    requires |s.pcs| == |s.entered| && CountOk(s)
    requires |s'.pcs| == |s.pcs| && s'.entered == s.entered
    requires s'.gen == s.gen && s'.count == s.count && s'.size == s.size
    requires forall u :: 0 <= u < |s.pcs| && (Closing(s'.pcs[u]) || Closing(s.pcs[u])) ==> s'.pcs[u] == s.pcs[u]
    ensures CountOk(s')
  {
    assert forall u :: 0 <= u < |s.pcs| ==> Closing(s'.pcs[u]) == Closing(s.pcs[u]);
    assert forall u :: 0 <= u < |s.pcs| ==> s'.pcs[u].ResetCount? == s.pcs[u].ResetCount?;
  }

  /** All other steps leave the closing thread where it is. */
  lemma ClosingFrame(s: State, a: Action)
    requires Inv(s) && Enabled(s, a) && !(a.Arrive? || a.StoreCount? || a.ReadToFlip? || a.Flip?)
    ensures var s' := Do(s, a);
            && |s'.pcs| == |s.pcs| && s'.entered == s.entered
            && s'.gen == s.gen && s'.count == s.count && s'.size == s.size
            && forall u :: 0 <= u < |s.pcs| && (Closing(s'.pcs[u]) || Closing(s.pcs[u])) ==> s'.pcs[u] == s.pcs[u]
  {
    var s' := Do(s, a);
    forall u | 0 <= u < |s.pcs|
      ensures Closing(s'.pcs[u]) || Closing(s.pcs[u]) ==> s'.pcs[u] == s.pcs[u]
    {
      ClosingStays(s, a, u);
    }
  }

  lemma ClosingStays(s: State, a: Action, u: nat)
    requires Enabled(s, a) && !(a.Arrive? || a.StoreCount? || a.ReadToFlip? || a.Flip?) && u < |s.pcs|
    ensures |Do(s, a).pcs| == |s.pcs|
    ensures Closing(Do(s, a).pcs[u]) || Closing(s.pcs[u]) ==> Do(s, a).pcs[u] == s.pcs[u]
  {
  }

  lemma CountStep(s: State, a: Action)
    requires Inv(s) && Enabled(s, a)
    ensures CountOk(Do(s, a))
  {
    if a.Arrive? {
      CountAtArrival(s, a);
    } else if a.StoreCount? || a.ReadToFlip? || a.Flip? {
      CountWhileClosing(s, a);
    } else {
      ClosingFrame(s, a);
      CountFrame(s, Do(s, a));
    }
  }

  /** The thread that flips owes the wake from then on, and waking everybody leaves no sleeper. */
  lemma SleepAtFlipAndWake(s: State, a: Action)
    requires Enabled(s, a) && (a.Flip? || a.FutexWakeAll?)
    ensures SleepersOwed(Do(s, a))
  {
    var s' := Do(s, a);
    if a.Flip? {
      assert s'.pcs[a.t].WakeAll?;
    } else {
      assert forall u :: 0 <= u < |s'.pcs| ==> !s'.pcs[u].Sleeping?;
    }
  }

  lemma OthersStay(s: State, a: Action, u: nat)
    requires Enabled(s, a) && !a.FutexWakeAll? && u < |s.pcs| && u != a.t
    ensures |Do(s, a).pcs| == |s.pcs| && Do(s, a).pcs[u] == s.pcs[u]
  {
  }

  /** Nobody else falls asleep on a finished round, and nobody else takes over or drops the debt. */
  lemma SleepOtherwise(s: State, a: Action)
    requires SleepersOwed(s) && Enabled(s, a) && !a.Flip? && !a.FutexWakeAll?
    ensures SleepersOwed(Do(s, a))
  {
    var s' := Do(s, a);
    if t :| 0 <= t < |s'.pcs| && s'.pcs[t].Sleeping? && s'.pcs[t].mine != s'.phase {
      assert t != a.t;
      OthersStay(s, a, t);
      var w :| 0 <= w < |s.pcs| && s.pcs[w].WakeAll?;
      OthersStay(s, a, w);
      assert s'.pcs[w].WakeAll?;
    }
  }

  lemma SleepStep(s: State, a: Action)
    requires Inv(s) && Enabled(s, a)
    ensures SleepersOwed(Do(s, a))
  {
    if a.Flip? || a.FutexWakeAll? {
      SleepAtFlipAndWake(s, a);
    } else {
      SleepOtherwise(s, a);
    }
  }

  lemma InvStep(s: State, a: Action)
    requires Inv(s) && Enabled(s, a)
    ensures Inv(Do(s, a))
  {
    ShapeStep(s, a);
    CountStep(s, a);
    SleepStep(s, a);
  }

  lemma {:induction false} InvAlways(s: State, acts: seq<Action>)
    requires Inv(s) && Possible(s, acts)
    ensures Inv(After(s, acts))
    decreases |acts|
  {
    if acts != [] {
      InvStep(s, acts[0]);
      InvAlways(Do(s, acts[0]), acts[1..]);
    }
  }

  lemma InitInv(s: State, n: nat)
    requires Init(s, n)
    ensures Inv(s)
  {
    BarrierSpec.ArrivedBounds(s.entered, s.gen);
  }

  /** A barrier for any number of threads can be set up. */
  lemma InitialState(n: nat) returns (s: State)
    requires 0 < n < WORD
    ensures Init(s, n)
  {
    s := State(n, 0, n, seq(n, _ => Outside), seq(n, _ => 0), seq(n, _ => 0), 0);
  }

  /** Nobody has arrived at the open round yet; threads may still be on their way out of the last one. */
  predicate RoundStart(s: State)
    requires |s.pcs| == |s.entered|
  {
    forall t :: 0 <= t < |s.pcs| ==> s.entered[t] == s.gen
  }

  /** For every number of threads, rounds and every interleaving. */
  lemma BarrierCorrect(s: State, n: nat, acts: seq<Action>)
    requires Init(s, n) && Possible(s, acts)
    ensures var r := After(s, acts);
            && |r.entered| == |r.left| == |r.pcs| == n
            && (forall t, u :: 0 <= t < n && 0 <= u < n ==> r.left[t] <= r.entered[u])
            && (RoundStart(r) ==> r.count == n)
            && SleepersOwed(r)
            && (exists t :: 0 <= t < n && !r.pcs[t].Sleeping?)
  {
    InitInv(s, n);
    InvAlways(s, acts);
    SizeAlways(s, acts);
    var r := After(s, acts);
    InvIsSafe(r);
    SomebodyIsAwake(r);
  }

  lemma InvIsSafe(s: State)
    requires Inv(s)
    ensures forall t, u :: 0 <= t < |s.pcs| && 0 <= u < |s.pcs| ==> s.left[t] <= s.entered[u]
    ensures RoundStart(s) ==> s.count == s.size
  {
    BarrierSpec.ArrivedBounds(s.entered, s.gen);
    assert forall t :: 0 <= t < |s.pcs| ==> Local(s.pcs[t], s.entered[t], s.left[t], s.gen);
  }

  lemma SomebodyIsAwake(s: State)
    requires Inv(s)
    ensures exists t :: 0 <= t < |s.pcs| && !s.pcs[t].Sleeping?
  {
    if !exists t :: 0 <= t < |s.pcs| && (s.pcs[t].WakeAll? || Closing(s.pcs[t])) {
      BarrierSpec.ArrivedBounds(s.entered, s.gen);
      var t :| 0 <= t < |s.pcs| && s.entered[t] <= s.gen;
      assert Local(s.pcs[t], s.entered[t], s.left[t], s.gen);
      assert !s.pcs[t].Sleeping?;
    }
  }

  lemma {:induction false} SizeAlways(s: State, acts: seq<Action>)
    requires Possible(s, acts)
    ensures |After(s, acts).pcs| == |s.pcs|
    decreases |acts|
  {
    if acts != [] {
      SizeAlways(Do(s, acts[0]), acts[1..]);
    }
  }

  // ---------------------------------------------------------------- refinement

  function Abstract(s: State): BarrierSpec.State {
    BarrierSpec.State(s.entered, s.left)
  }

  /** Every memory operation is a step of the reference barrier, or invisible to it. */
  lemma StepRefinesBarrier(s: State, a: Action)
    requires Inv(s) && Enabled(s, a)
    ensures BarrierSpec.Next(Abstract(s), Abstract(Do(s, a)))
  {
    var s' := Do(s, a);
    assert Local(s.pcs[a.t], s.entered[a.t], s.left[a.t], s.gen);
    if a.Arrive? {
      assert BarrierSpec.Enter(Abstract(s), a.t, Abstract(s'));
    } else if a.FutexWakeAll? || (a.Test? && s.phase != s.pcs[a.t].mine) {
      assert forall u :: 0 <= u < |s.pcs| ==> Local(s.pcs[u], s.entered[u], s.left[u], s.gen);
      assert BarrierSpec.Leave(Abstract(s), a.t, Abstract(s'));
    } else {
      assert Abstract(s') == Abstract(s);
    }
  }

  lemma {:induction false} StepsRefine(s: State, acts: seq<Action>) returns (run: seq<BarrierSpec.State>)
    requires Inv(s) && Possible(s, acts)
    ensures |run| == |acts| + 1 && run[0] == Abstract(s) && run[|acts|] == Abstract(After(s, acts))
    ensures BarrierSpec.Connected(run)
    decreases |acts|
  {
    if acts == [] {
      run := [Abstract(s)];
    } else {
      StepRefinesBarrier(s, acts[0]);
      InvStep(s, acts[0]);
      var rest := StepsRefine(Do(s, acts[0]), acts[1..]);
      run := [Abstract(s)] + rest;
      BarrierSpec.Prepend(Abstract(s), rest);
    }
  }

  /** Every run, seen through arrivals and returns, is a behaviour of the reference barrier. */
  lemma RunRefinesBarrier(s: State, n: nat, acts: seq<Action>) returns (run: seq<BarrierSpec.State>)
    requires Init(s, n) && Possible(s, acts)
    ensures BarrierSpec.Behavior(run) && run[|run| - 1] == Abstract(After(s, acts))
    ensures BarrierSpec.Safe(Abstract(After(s, acts)))
  {
    InitInv(s, n);
    run := StepsRefine(s, acts);
    BarrierSpec.BarrierSafe(run, |acts|);
  }

  /** The one-word phase is enough: a thread waits exactly while its round is not complete. */
  lemma PhaseTellsTheRound(s: State, t: nat)
    requires Inv(s) && t < |s.pcs| && Waiting(s.pcs[t])
    ensures s.phase == s.pcs[t].mine <==> s.gen < s.entered[t]
    ensures s.phase != s.pcs[t].mine <==> s.gen == s.entered[t]
  {
    assert Local(s.pcs[t], s.entered[t], s.left[t], s.gen);
  }

  // ---------------------------------------------------------------- deadlock freedom

  const ONE_ROUND := 11

  predicate Entering(pc: Pc) {
    pc.Decrement?
  }

  /** Operations until a thread has left the round it enters next or is in, once nothing holds it up. */
  function ToLeave(pc: Pc): nat {
    match pc
    case Outside => 10
    case Decrement(_) => 9
    case ResetCount => 8
    case LoadPhase => 7
    case StorePhase(_) => 6
    case WakeAll => 5
    case Sleeping(_) => 4
    case Spin(_, _) => 3
    case Wait(_) => 2
    case Check(_) => 1
  }

  /** How far a thread is from having left round `goal`, the open one or the one just completed. */
  function Rank(pc: Pc, left: nat, goal: nat): nat {
    if left >= goal then 0 else ToLeave(pc) + if left + 1 < goal then ONE_ROUND else 0
  }

  function Ranks(s: State, goal: nat): seq<nat>
    requires |s.pcs| == |s.left|
  {
    seq(|s.pcs|, u requires 0 <= u < |s.pcs| == |s.left| => Rank(s.pcs[u], s.left[u], goal))
  }

  /** On the way to everybody having left round `goal`, and nobody on the way into a later one. */
  ghost predicate Heading(s: State, goal: nat) {
    && Inv(s) && s.gen <= goal <= s.gen + 1
    && (s.gen == goal ==> forall t :: 0 <= t < |s.pcs| ==> s.entered[t] == goal && !Entering(s.pcs[t]))
  }

  ghost predicate AllLeft(s: State, goal: nat) {
    && |s.pcs| == |s.entered| == |s.left| && s.gen == goal
    && forall t :: 0 <= t < |s.pcs| ==> s.pcs[t].Outside? && s.entered[t] == s.left[t] == goal
  }

  /** A step that brings its thread closer: not a test, relaxation or futex call that finds the phase unchanged. */
  ghost predicate Useful(s: State, a: Action, goal: nat)
    requires Enabled(s, a)
  {
    && s.left[a.t] < goal
    && !a.SpuriousReturn?
    && (a.Test? || a.Relax? || a.FutexWait? ==> s.pcs[a.t].mine != s.phase)
  }

  lemma RankDrops(s: State, a: Action, goal: nat)
    requires Heading(s, goal) && Enabled(s, a) && Useful(s, a, goal)
    ensures |Do(s, a).pcs| == |Do(s, a).left| && Sum(Ranks(Do(s, a), goal)) < Sum(Ranks(s, goal))
  {
    var was, now := Ranks(s, goal), Ranks(Do(s, a), goal);
    OwnRankDrops(s, a, goal);
    forall u | 0 <= u < |was|
      ensures now[u] <= was[u]
    {
      if u != a.t {
        OtherRankStays(s, a, goal, u);
      }
    }
    SumDrops(now, was, a.t);
  }

  lemma OtherRankStays(s: State, a: Action, goal: nat, u: nat)
    requires Enabled(s, a) && u < |s.pcs| && u != a.t
    ensures var s' := Do(s, a);
            && |s'.pcs| == |s'.left| == |s.pcs|
            && Rank(s'.pcs[u], s'.left[u], goal) <= Rank(s.pcs[u], s.left[u], goal)
  {
  }

  lemma OwnRankDrops(s: State, a: Action, goal: nat)
    requires Heading(s, goal) && Enabled(s, a) && Useful(s, a, goal)
    ensures var s', t := Do(s, a), a.t; Rank(s'.pcs[t], s'.left[t], goal) < Rank(s.pcs[t], s.left[t], goal)
  {
    assert Local(s.pcs[a.t], s.entered[a.t], s.left[a.t], s.gen);
  }

  /** Everybody has arrived when the phase flips, so nobody is on the way into the next round. */
  lemma HeadingAtFlip(s: State, a: Action, goal: nat)
    requires Heading(s, goal) && Enabled(s, a) && a.Flip? && Inv(Do(s, a))
    ensures Heading(Do(s, a), goal)
  {
    assert Local(s.pcs[a.t], s.entered[a.t], s.left[a.t], s.gen);
    assert Closing(s.pcs[a.t]);
    BarrierSpec.ArrivedBounds(s.entered, s.gen);
    var s' := Do(s, a);
    forall t | 0 <= t < |s'.pcs|
      ensures s'.entered[t] == goal && !Entering(s'.pcs[t])
    {
      assert Local(s.pcs[t], s.entered[t], s.left[t], s.gen);
    }
  }

  lemma HeadingStep(s: State, a: Action, goal: nat)
    requires Heading(s, goal) && Enabled(s, a) && Useful(s, a, goal)
    ensures Heading(Do(s, a), goal)
  {
    InvStep(s, a);
    assert Local(s.pcs[a.t], s.entered[a.t], s.left[a.t], s.gen);
    if a.Flip? {
      HeadingAtFlip(s, a, goal);
    }
  }

  /** A thread that is behind the phase can go on, at worst after a sleeper has been woken. */
  lemma WaiterGoesOn(s: State, goal: nat, t: nat) returns (a: Action)
    requires Heading(s, goal) && t < |s.pcs| && (Waiting(s.pcs[t]) || s.pcs[t].WakeAll?) && s.entered[t] == s.gen
    ensures Enabled(s, a) && Useful(s, a, goal)
  {
    assert Local(s.pcs[t], s.entered[t], s.left[t], s.gen);
    match s.pcs[t] {
      case Check(_) => a := Test(t);
      case Spin(_, _) => a := Relax(t);
      case Wait(_) => a := FutexWait(t);
      case WakeAll => a := FutexWakeAll(t);
      case Sleeping(_) =>
        var u :| 0 <= u < |s.pcs| && s.pcs[u].WakeAll?;
        assert Local(s.pcs[u], s.entered[u], s.left[u], s.gen);
        a := FutexWakeAll(u);
    }
  }

  /** While the round is open somebody can come closer to completing it. */
  lemma OpenRoundGoesOn(s: State, goal: nat) returns (a: Action)
    requires Heading(s, goal) && s.gen < goal
    ensures Enabled(s, a) && Useful(s, a, goal)
  {
    BarrierSpec.ArrivedBounds(s.entered, s.gen);
    if t :| 0 <= t < |s.pcs| && Closing(s.pcs[t]) {
      assert Local(s.pcs[t], s.entered[t], s.left[t], s.gen);
      a := if s.pcs[t].ResetCount? then StoreCount(t) else if s.pcs[t].LoadPhase? then ReadToFlip(t) else Flip(t);
    } else {
      var t :| 0 <= t < |s.pcs| && s.entered[t] <= s.gen;
      assert Local(s.pcs[t], s.entered[t], s.left[t], s.gen);
      if s.pcs[t].Outside? {
        a := ReadPhase(t);
      } else if s.pcs[t].Decrement? {
        a := Arrive(t);
      } else {
        a := WaiterGoesOn(s, goal, t);
      }
    }
  }

  lemma FindUsefulStep(s: State, goal: nat) returns (a: Action)
    requires Heading(s, goal) && !AllLeft(s, goal)
    ensures Enabled(s, a) && Useful(s, a, goal)
  {
    if s.gen < goal {
      a := OpenRoundGoesOn(s, goal);
    } else {
      var t :| 0 <= t < |s.pcs| && !(s.pcs[t].Outside? && s.entered[t] == s.left[t] == goal);
      assert Local(s.pcs[t], s.entered[t], s.left[t], s.gen);
      a := WaiterGoesOn(s, goal, t);
    }
  }

  lemma {:induction false} ReachGoal(s: State, goal: nat) returns (acts: seq<Action>)
    requires Heading(s, goal)
    ensures Possible(s, acts) && AllLeft(After(s, acts), goal)
    ensures forall i :: 0 <= i < |acts| ==> !acts[i].SpuriousReturn?
    decreases Sum(Ranks(s, goal))
  {
    if AllLeft(s, goal) {
      acts := [];
    } else {
      var a := FindUsefulStep(s, goal);
      RankDrops(s, a, goal);
      HeadingStep(s, a, goal);
      var rest := ReachGoal(Do(s, a), goal);
      acts := [a] + rest;
      RunPrepend(s, a, rest);
    }
  }

  /**
   No state of the invariant is stuck: a continuation exists, without spurious returns, in which everybody enters and
   leaves the open round.
   */
  lemma EverybodyCanLeave(s: State) returns (acts: seq<Action>)
    requires Inv(s)
    ensures Possible(s, acts) && AllLeft(After(s, acts), s.gen + 1)
    ensures forall i :: 0 <= i < |acts| ==> !acts[i].SpuriousReturn?
  {
    acts := ReachGoal(s, s.gen + 1);
  }

  // ---------------------------------------------------------------- an undisturbed wait

  function Relaxes(t: nat, k: nat): seq<Action> {
    if k == 0 then [] else [Relax(t)] + Relaxes(t, k - 1)
  }

  /** A waiter that finds the phase unchanged spins exactly its limit of relaxations before it turns to the futex. */
  lemma {:induction false} SpinsToTheLimit(s: State, t: nat, i: nat)
    requires t < |s.pcs| == |s.entered| == |s.left| && s.phase < WORD
    requires s.pcs[t] == Spin(s.phase, i) && i <= MAX_RELAXATIONS
    ensures Possible(s, Relaxes(t, MAX_RELAXATIONS - i + 1))
    ensures After(s, Relaxes(t, MAX_RELAXATIONS - i + 1)) == Goto(s, t, Wait(s.phase))
    decreases MAX_RELAXATIONS - i
  {
    var s1 := Do(s, Relax(t));
    var k := MAX_RELAXATIONS - i;
    if k == 0 {
      assert Possible(s1, []) && After(s1, []) == s1 && Relaxes(t, 0) == [];
    } else {
      SpinsToTheLimit(s1, t, i + 1);
      assert Goto(s1, t, Wait(s.phase)) == Goto(s, t, Wait(s.phase));
    }
    RunPrepend(s, Relax(t), Relaxes(t, k));
    assert Relaxes(t, k + 1) == [Relax(t)] + Relaxes(t, k);
  }

  /** A thread whose round is open, undisturbed: it spins to its limit and sleeps on the phase it has read. */
  lemma WaiterFallsAsleep(s: State, t: nat)
    requires t < |s.pcs| == |s.entered| == |s.left| && s.phase < WORD && s.pcs[t] == Check(s.phase)
    ensures var spin := Relaxes(t, MAX_RELAXATIONS + 1);
            && Possible(s, [Test(t)] + spin)
            && Enabled(After(s, [Test(t)] + spin), FutexWait(t))
            && Do(After(s, [Test(t)] + spin), FutexWait(t)) == Goto(s, t, Sleeping(s.phase))
  {
    var s1 := Do(s, Test(t));
    var spin := Relaxes(t, MAX_RELAXATIONS + 1);
    SpinsToTheLimit(s1, t, 0);
    RunPrepend(s, Test(t), spin);
    assert Goto(Goto(s1, t, Wait(s.phase)), t, Sleeping(s.phase)) == Goto(s, t, Sleeping(s.phase));
  }

  /** Once the phase has changed, no wait goes on: a test leaves, a spin ends, and a futex call does not sleep. */
  lemma ChangeEndsTheWait(s: State, t: nat)
    requires t < |s.pcs| == |s.entered| == |s.left| && s.phase < WORD && Waiting(s.pcs[t]) && s.pcs[t].mine != s.phase
    ensures s.pcs[t].Check? ==> Do(s, Test(t)) == Leave(s, t)
    ensures s.pcs[t].Spin? ==> Do(s, Relax(t)) == Goto(s, t, Wait(s.pcs[t].mine))
    ensures s.pcs[t].Wait? ==> Do(s, FutexWait(t)) == Goto(s, t, Check(s.pcs[t].mine))
    ensures s.pcs[t].Sleeping? ==>
              Enabled(s, SpuriousReturn(t)) && Do(s, SpuriousReturn(t)) == Goto(s, t, Check(s.pcs[t].mine))
  {
  }
}
