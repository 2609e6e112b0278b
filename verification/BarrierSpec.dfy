/**
 What a barrier is: a reference machine that both barrier implementations refine.

 `entered[t]` counts the rounds thread `t` has arrived at and `left[t]` the rounds it has returned
 from.  A thread may return from a round only once every thread has arrived at it.
 */
module BarrierSpec {

  datatype State = State(entered: seq<nat>, left: seq<nat>)

  predicate Init(s: State) {
    && |s.entered| == |s.left|
    && forall t :: 0 <= t < |s.entered| ==> s.entered[t] == 0 && s.left[t] == 0
  }

  ghost predicate Enter(s: State, t: nat, s': State) {
    && t < |s.entered| == |s.left|
    && s.entered[t] == s.left[t]
    && s' == s.(entered := s.entered[t := s.entered[t] + 1])
  }

  ghost predicate Leave(s: State, t: nat, s': State) {
    && t < |s.entered| == |s.left|
    && s.entered[t] == s.left[t] + 1
    && (forall u :: 0 <= u < |s.entered| ==> s.entered[t] <= s.entered[u])
    && s' == s.(left := s.left[t := s.left[t] + 1])
  }

  /** One step of the reference barrier, or none. */
  ghost predicate Next(s: State, s': State) {
    s' == s || exists t :: Enter(s, t, s') || Leave(s, t, s')
  }

  /** Every state follows from the one before it. */
  ghost predicate Connected(run: seq<State>) {
    forall i :: 0 <= i < |run| - 1 ==> Next(run[i], run[i + 1])
  }

  lemma Prepend(s: State, run: seq<State>)
    requires run != [] && Connected(run) && Next(s, run[0])
    ensures Connected([s] + run)
  {
    var all := [s] + run;
    forall i | 0 <= i < |all| - 1
      ensures Next(all[i], all[i + 1])
    {
      if i > 0 {
        assert Next(run[i - 1], run[i - 1 + 1]);
      }
    }
  }

  ghost predicate Behavior(run: seq<State>) {
    && |run| > 0
    && Init(run[0])
    && Connected(run)
  }

  ghost predicate Safe(s: State) {
    && |s.entered| == |s.left|
    && (forall t :: 0 <= t < |s.entered| ==> s.left[t] <= s.entered[t] <= s.left[t] + 1)
    && (forall t, u :: 0 <= t < |s.entered| && 0 <= u < |s.entered| ==> s.left[t] <= s.entered[u])
  }

  /** Nobody leaves a round before everybody has arrived at it, and nobody is a round ahead of anybody else. */
  lemma {:induction false} BarrierSafe(run: seq<State>, i: nat)
    requires Behavior(run) && i < |run|
    ensures Safe(run[i])
    ensures forall t, u :: 0 <= t < |run[i].entered| && 0 <= u < |run[i].entered| ==>
              run[i].entered[t] <= run[i].entered[u] + 1
  {
    if i > 0 {
      BarrierSafe(run, i - 1);
      assert Next(run[i - 1], run[i - 1 + 1]);
    }
  }

  /** How many threads have arrived at the round after `gen`. */
  function Arrived(entered: seq<nat>, gen: nat): nat {
    if entered == [] then 0
    else (if entered[0] > gen then 1 else 0) + Arrived(entered[1..], gen)
  }

  lemma {:induction false} ArrivedOneMore(entered: seq<nat>, gen: nat, t: nat)
    requires t < |entered| && entered[t] == gen
    ensures Arrived(entered[t := gen + 1], gen) == Arrived(entered, gen) + 1
  {
    if t == 0 {
      assert entered[t := gen + 1][1..] == entered[1..];
    } else {
      ArrivedOneMore(entered[1..], gen, t - 1);
      assert entered[t := gen + 1][1..] == entered[1..][t - 1 := gen + 1];
    }
  }

  lemma {:induction false} ArrivedBounds(entered: seq<nat>, gen: nat)
    ensures Arrived(entered, gen) <= |entered|
    ensures Arrived(entered, gen) == |entered| <==> forall t :: 0 <= t < |entered| ==> entered[t] > gen
    ensures Arrived(entered, gen) == 0 <==> forall t :: 0 <= t < |entered| ==> entered[t] <= gen
  {
    if entered != [] {
      ArrivedBounds(entered[1..], gen);
      assert forall t :: 0 < t < |entered| ==> entered[t] == entered[1..][t - 1];
    }
  }
}
