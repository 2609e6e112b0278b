/**
 The completion event of a task (pfunc/event.hpp): `test`, `wait`, `notify` and `reset`, one memory
 operation or futex call at a time, for any number of threads.

 `completed`, `decrements` and `closings` are history since the last reset: whether the notifier has
 published completion, how often the waiter count was decremented, and how many tests and waits went
 on to store INACTIVE.  A fresh event, one not yet `used`, behaves as a completed one.
 */
module CompletionEvent {
  import opened Common

  const INACTIVE := 0
  const ACTIVE_INCOMPLETE := 1
  const ACTIVE_COMPLETE := 2

  /** `seen` is the value of `completed` at the first read of the operation in progress. */
  datatype Pc =
    | Idle
    | TestInactive(seen: bool)          // test: first comparison failed, about to do the second
    | TestDecrement(seen: bool)
    | TestStore(seen: bool)             // test: about to store INACTIVE
    | Answered(result: bool, seen: bool)
    | WaitFutex                         // wait: about to call futex_wait
    | Sleeping
    | WaitDecrement
    | WaitStore                         // wait: about to store INACTIVE
    | Returned(afterCompletion: bool)
    | NotifyWake                        // notify: has stored COMPLETE, about to wake everybody

  datatype State = State(
    waitable: bool, state: int, waiters: nat, pcs: seq<Pc>,
    nwait: nat, completed: bool, decrements: nat, closings: nat, used: bool)

  datatype Action =
    | BeginTest(t: nat)
    | BeginWait(t: nat)
    | Notify(t: nat)
    | Continue(t: nat)                  // the next operation of a test, wait or notify in progress
    | SpuriousReturn(t: nat)            // futex_wait returns although nobody woke the thread
    | Reset(t: nat, n: nat)

  predicate AtRest(pc: Pc) {
    pc.Idle? || pc.Answered? || pc.Returned?
  }

  predicate Init(s: State) {
    && s.state == INACTIVE && s.waiters == 1 && s.nwait == 1
    && s.completed && s.decrements == 0 && s.closings == 0 && !s.used
    && forall t :: 0 <= t < |s.pcs| ==> s.pcs[t] == Idle
  }

  /**
   Callers notify an active event once, reset it only while no test or wait is in flight, and wait only on a waitable
   event.  A reset may overtake the wake that the notifier of the last use still owes.
   */
  predicate Enabled(s: State, a: Action) {
    && a.t < |s.pcs|
    && match a
       case BeginTest(t) => AtRest(s.pcs[t])
       case BeginWait(t) => s.waitable && AtRest(s.pcs[t])
       case Notify(t) => AtRest(s.pcs[t]) && !s.completed
       case Continue(t) => !AtRest(s.pcs[t]) && !s.pcs[t].Sleeping?
       case SpuriousReturn(t) => s.pcs[t].Sleeping?
       case Reset(t, n) =>
         n < WORD && AtRest(s.pcs[t]) && forall u :: 0 <= u < |s.pcs| ==> AtRest(s.pcs[u]) || s.pcs[u].NotifyWake?
  }

  function Goto(s: State, t: nat, pc: Pc): State
    requires t < |s.pcs|
  {
    s.(pcs := s.pcs[t := pc])
  }

  /** Fetch-and-add of -1 on the waiter count; the caller compares the old value. */
  function Decrement(s: State): State {
    s.(waiters := Wrap32(s.waiters - 1), decrements := s.decrements + 1)
  }

  function Awaken(pc: Pc): Pc {
    if pc.Sleeping? then WaitDecrement else pc
  }

  function Resume(s: State, t: nat): State
    requires Enabled(s, Continue(t))
  {
    match s.pcs[t]
    case TestInactive(seen) =>
      Goto(s, t, if s.state == INACTIVE then Answered(true, seen) else TestDecrement(seen))
    case TestDecrement(seen) =>
      if s.waiters == 1 then Goto(Decrement(s), t, TestStore(seen)).(closings := s.closings + 1)
      else Goto(Decrement(s), t, Answered(true, seen))
    case TestStore(seen) => Goto(s, t, Answered(true, seen)).(state := INACTIVE)
    case WaitFutex => Goto(s, t, if s.state == ACTIVE_INCOMPLETE then Sleeping else WaitDecrement)
    case WaitDecrement =>
      if s.waiters == 0 then Goto(Decrement(s), t, WaitStore).(closings := s.closings + 1)
      else Goto(Decrement(s), t, Returned(s.completed))
    case WaitStore => Goto(s, t, Returned(s.completed)).(state := INACTIVE)
    case NotifyWake =>
      Goto(s.(pcs := seq(|s.pcs|, u requires 0 <= u < |s.pcs| => Awaken(s.pcs[u]))), t, Idle)
  }

  function Do(s: State, a: Action): State
    requires Enabled(s, a)
  {
    match a
    case BeginTest(t) =>
      Goto(s, t, if s.state == ACTIVE_INCOMPLETE then Answered(false, s.completed) else TestInactive(s.completed))
    case BeginWait(t) => Goto(s, t, if s.state == ACTIVE_INCOMPLETE then WaitFutex else WaitDecrement)
    case Notify(t) => Goto(s, t, if s.waitable then NotifyWake else Idle).(state := ACTIVE_COMPLETE, completed := true)
    case Continue(t) => Resume(s, t)
    case SpuriousReturn(t) => Goto(s, t, WaitDecrement)
    case Reset(t, n) =>
      s.(waiters := n, nwait := n, state := ACTIVE_INCOMPLETE, completed := false, decrements := 0, closings := 0,
         used := true)
  }

  predicate Possible(s: State, acts: seq<Action>)
    decreases |acts|
  {
    acts == [] || (Enabled(s, acts[0]) && Possible(Do(s, acts[0]), acts[1..]))
  }

  function After(s: State, acts: seq<Action>): State
    requires Possible(s, acts)
    decreases |acts|
  {
    if acts == [] then s else After(Do(s, acts[0]), acts[1..])
  }

  ghost predicate SomebodySleeps(s: State) {
    exists u :: 0 <= u < |s.pcs| && s.pcs[u].Sleeping?
  }

  /** The wake of an earlier use, issued after the event has been reset. */
  predicate StaleWake(s: State, a: Action)
    requires Enabled(s, a)
  {
    !s.completed && a.Continue? && s.pcs[a.t].NotifyWake?
  }

  /** A futex_wait returns before completion: spuriously, or by a wake that was owed from an earlier use. */
  ghost predicate EarlyReturn(s: State, a: Action)
    requires Enabled(s, a)
  {
    !s.completed && (a.SpuriousReturn? || (StaleWake(s, a) && SomebodySleeps(s)))
  }

  /** No futex_wait of the run returns before completion; afterwards it may return for any reason. */
  ghost predicate NoEarlyReturn(s: State, acts: seq<Action>)
    requires Possible(s, acts)
    decreases |acts|
  {
    acts == [] || (!EarlyReturn(s, acts[0]) && NoEarlyReturn(Do(s, acts[0]), acts[1..]))
  }

  // ---------------------------------------------------------------- invariant

  predicate Local(s: State, pc: Pc) {
    match pc
    case TestInactive(seen) => seen && s.completed
    case TestDecrement(seen) => seen && s.completed
    case TestStore(seen) => seen && s.completed
    case Answered(result, seen) => result == seen
    case WaitFutex => s.waitable
    case Sleeping => s.waitable
    case WaitDecrement => s.waitable && s.completed
    case WaitStore => s.waitable && s.completed
    case Returned(afterCompletion) => afterCompletion
    case NotifyWake => s.waitable
    case Idle => true
  }

  /** Nobody sleeps through completion: the event is incomplete or the notifier has yet to wake. */
  ghost predicate SleepersOwed(s: State) {
    (exists t :: 0 <= t < |s.pcs| && s.pcs[t].Sleeping?) ==>
      s.state == ACTIVE_INCOMPLETE || exists u :: 0 <= u < |s.pcs| && s.pcs[u].NotifyWake?
  }

  /** How many of the first `d` decrements of a count that starts at `n` find the value 1. */
  function TimesOneIsSeen(n: nat, d: nat): nat
    requires n < WORD
  {
    (d + WORD - (if n == 0 then WORD else n)) / WORD
  }

  ghost predicate Inv(s: State) {
    && (s.state == INACTIVE || s.state == ACTIVE_INCOMPLETE || s.state == ACTIVE_COMPLETE)
    && (s.completed <==> s.state != ACTIVE_INCOMPLETE)
    && s.nwait < WORD
    && s.waiters == Wrap32(s.nwait - s.decrements)
    && (!s.waitable ==> s.closings == TimesOneIsSeen(s.nwait, s.decrements))
    && (forall t :: 0 <= t < |s.pcs| ==> Local(s, s.pcs[t]))
    && SleepersOwed(s)
  }

  /** The count finds 1 once in every 2^32 decrements, first at the `n`-th. */
  lemma OneIsSeenOnce(n: nat, d: nat)
    requires n < WORD
    ensures Wrap32(n - (d + 1)) == Wrap32(Wrap32(n - d) - 1)
    ensures TimesOneIsSeen(n, d + 1) == TimesOneIsSeen(n, d) + (if Wrap32(n - d) == 1 then 1 else 0)
  {
    var first := if n == 0 then WORD else n;
    var k := d + WORD - first;
    assert k >= 0;
    assert k == WORD * (k / WORD) + k % WORD;
    assert Wrap32(n - d) == 1 <==> k % WORD == WORD - 1 by {
      var q, r := k / WORD, k % WORD;
      assert n - d == (WORD - r) - WORD * q + (if n == 0 then -WORD else 0);
      var c := if n == 0 then q + 1 else q;
      assert n - d == (WORD - r) - WORD * c;
      WordShift(WORD - r, c);
    }
  }

  lemma WordShift(x: int, c: int)
    ensures (x - WORD * c) % WORD == x % WORD
  {
  }

  /** A step moves its own thread only, and the wake every sleeper. */
  lemma OthersKeepTheirPlace(s: State, a: Action, u: nat)
    requires Enabled(s, a) && u < |s.pcs| && u != a.t
    ensures |Do(s, a).pcs| == |s.pcs|
    ensures Do(s, a).pcs[u] == s.pcs[u] || Do(s, a).pcs[u] == Awaken(s.pcs[u])
  {
  }

  lemma LocalStep(s: State, a: Action, u: nat)
    requires Inv(s) && Enabled(s, a) && !EarlyReturn(s, a) && u < |s.pcs|
    ensures var s' := Do(s, a); Local(s', s'.pcs[u])
  {
    assert Local(s, s.pcs[u]);
    if u == a.t {
      LocalOfActor(s, a);
    } else {
      LocalOfOther(s, a, u);
    }
  }

  lemma LocalOfActor(s: State, a: Action)
    requires Enabled(s, a) && !EarlyReturn(s, a) && Local(s, s.pcs[a.t])
    requires s.completed <==> s.state != ACTIVE_INCOMPLETE
    ensures Local(Do(s, a), Do(s, a).pcs[a.t])
  {
  }

  lemma LocalOfOther(s: State, a: Action, u: nat)
    requires Enabled(s, a) && !EarlyReturn(s, a) && u < |s.pcs| && u != a.t && Local(s, s.pcs[u])
    requires Local(s, s.pcs[a.t])
    ensures |Do(s, a).pcs| == |s.pcs| && Local(Do(s, a), Do(s, a).pcs[u])
  {
    OthersKeepTheirPlace(s, a, u);
  }

  lemma ValuesStep(s: State, a: Action)
    requires Inv(s) && Enabled(s, a)
    ensures var s' := Do(s, a);
            && (s'.completed <==> s'.state != ACTIVE_INCOMPLETE)
            && (s'.state == INACTIVE || s'.state == ACTIVE_INCOMPLETE || s'.state == ACTIVE_COMPLETE)
            && s'.waiters == Wrap32(s'.nwait - s'.decrements)
            && (!s'.waitable ==> s'.closings == TimesOneIsSeen(s'.nwait, s'.decrements))
  {
    assert Local(s, s.pcs[a.t]);
    OneIsSeenOnce(s.nwait, s.decrements);
  }

  lemma SleepStep(s: State, a: Action)
    requires Inv(s) && Enabled(s, a)
    ensures SleepersOwed(Do(s, a))
  {
    var s' := Do(s, a);
    assert Local(s, s.pcs[a.t]);
    if a.Continue? && s.pcs[a.t].NotifyWake? {
      assert forall u :: 0 <= u < |s.pcs| ==> !s'.pcs[u].Sleeping?;
    } else if a.Notify? {
      assert s'.waitable ==> s'.pcs[a.t].NotifyWake?;
      assert !s.waitable ==> forall u :: 0 <= u < |s.pcs| ==> Local(s, s.pcs[u]);
    } else {
      assert forall u :: 0 <= u < |s.pcs| && u != a.t ==> s'.pcs[u] == s.pcs[u];
      if w :| 0 <= w < |s.pcs| && s.pcs[w].NotifyWake? {
        assert !a.Reset? ==> s'.pcs[w].NotifyWake?;
      }
    }
  }

  lemma InvStep(s: State, a: Action)
    requires Inv(s) && Enabled(s, a) && !EarlyReturn(s, a)
    ensures Inv(Do(s, a))
  {
    var s' := Do(s, a);
    ValuesStep(s, a);
    SleepStep(s, a);
    forall u | 0 <= u < |s'.pcs|
      ensures Local(s', s'.pcs[u])
    {
      SizeStays(s, a);
      LocalStep(s, a, u);
    }
  }

  lemma SizeStays(s: State, a: Action)
    requires Enabled(s, a)
    ensures |Do(s, a).pcs| == |s.pcs| && Do(s, a).waitable == s.waitable
  {
  }

  lemma {:induction false} InvAlways(s: State, acts: seq<Action>)
    requires Inv(s) && Possible(s, acts) && NoEarlyReturn(s, acts)
    ensures Inv(After(s, acts))
    decreases |acts|
  {
    if acts != [] {
      InvStep(s, acts[0]);
      InvAlways(Do(s, acts[0]), acts[1..]);
    }
  }

  /** Any number of threads can share a fresh event of either kind. */
  lemma InitialState(n: nat, waitable: bool) returns (s: State)
    ensures Init(s) && |s.pcs| == n && s.waitable == waitable
  {
    s := State(waitable, INACTIVE, 1, seq(n, _ => Idle), 1, true, 0, 0, false);
  }

  ghost predicate WaitsReturnedAfterCompletion(s: State) {
    forall t :: 0 <= t < |s.pcs| && s.pcs[t].Returned? ==> s.pcs[t].afterCompletion
  }

  /**
   In every run: a test answers exactly what was true when it began, however often it is repeated; a wait
   returns only after completion; and a sleeper is never forgotten.
   */
  lemma EventCorrect(s: State, acts: seq<Action>)
    requires Init(s) && Possible(s, acts) && NoEarlyReturn(s, acts)
    ensures var r := After(s, acts);
            && (forall t :: 0 <= t < |r.pcs| && r.pcs[t].Answered? ==> r.pcs[t].result == r.pcs[t].seen)
            && WaitsReturnedAfterCompletion(r)
            && (r.completed <==> r.state != ACTIVE_INCOMPLETE)
            && SleepersOwed(r)
  {
    InvAlways(s, acts);
    var r := After(s, acts);
    assert forall t :: 0 <= t < |r.pcs| ==> Local(r, r.pcs[t]);
  }

  /**
   Exact law of the testable event: the tests that store INACTIVE are counted by the number of decrements alone;
   with at least one waiter declared there is at most one until the count has wrapped round.
   */
  lemma InactiveIsStoredOnce(s: State, acts: seq<Action>)
    requires Init(s) && !s.waitable && Possible(s, acts)
    ensures var r := After(s, acts);
            && r.nwait < WORD
            && r.closings == TimesOneIsSeen(r.nwait, r.decrements)
            && (1 <= r.nwait && r.decrements < WORD + r.nwait ==> r.closings <= 1)
            && (r.decrements < r.nwait ==> r.closings == 0)
  {
    NobodySleeps(s, acts);
    InvAlways(s, acts);
    WaitableAlways(s, acts);
  }

  /** Nobody sleeps on an event that is not waitable, and nobody owes a wake, so nobody returns early. */
  lemma {:induction false} NobodySleeps(s: State, acts: seq<Action>)
    requires Inv(s) && !s.waitable && Possible(s, acts)
    ensures NoEarlyReturn(s, acts)
    decreases |acts|
  {
    if acts != [] {
      assert Local(s, s.pcs[acts[0].t]);
      assert forall u :: 0 <= u < |s.pcs| ==> Local(s, s.pcs[u]);
      InvStep(s, acts[0]);
      NobodySleeps(Do(s, acts[0]), acts[1..]);
    }
  }

  lemma {:induction false} WaitableAlways(s: State, acts: seq<Action>)
    requires Possible(s, acts)
    ensures After(s, acts).waitable == s.waitable
    decreases |acts|
  {
    if acts != [] {
      WaitableAlways(Do(s, acts[0]), acts[1..]);
    }
  }

  // ---------------------------------------------------------------- the stores

  /** About to store INACTIVE. */
  function StoringOne(pc: Pc): nat {
    if pc.TestStore? || pc.WaitStore? then 1 else 0
  }

  function Storing(s: State): nat {
    Total(s.pcs, StoringOne)
  }

  /** The event is inactive exactly if it has never been used or one of the stores due has been made. */
  ghost predicate StoresOk(s: State) {
    && Storing(s) <= s.closings
    && (s.state == INACTIVE <==> !s.used || Storing(s) < s.closings)
    && (!s.completed ==> s.closings == 0 && s.used)
  }

  lemma StoringAfterReset(s: State, a: Action)
    requires Enabled(s, a) && a.Reset?
    ensures Storing(Do(s, a)) == 0
  {
    NobodyStores(s.pcs);
  }

  lemma {:induction false} NobodyStores(pcs: seq<Pc>)
    requires forall u :: 0 <= u < |pcs| ==> AtRest(pcs[u]) || pcs[u].NotifyWake?
    ensures Total(pcs, StoringOne) == 0
  {
    if pcs != [] {
      NobodyStores(pcs[1..]);
    }
  }

  /** Waking everybody changes nobody's stores. */
  lemma StoringAfterWake(s: State, a: Action)
    requires Enabled(s, a) && a.Continue? && s.pcs[a.t].NotifyWake?
    ensures Storing(Do(s, a)) == Storing(s)
  {
    TotalSame(Do(s, a).pcs, s.pcs, StoringOne, StoringOne);
  }

  lemma StoresStep(s: State, a: Action)
    requires Inv(s) && Enabled(s, a) && !EarlyReturn(s, a) && StoresOk(s)
    ensures StoresOk(Do(s, a))
  {
    assert Local(s, s.pcs[a.t]);
    if a.Reset? {
      StoringAfterReset(s, a);
    } else if a.Continue? && s.pcs[a.t].NotifyWake? {
      StoringAfterWake(s, a);
    } else {
      StoresOfOne(s, a);
    }
  }

  lemma StoresOfOne(s: State, a: Action)
    requires Enabled(s, a) && !a.Reset? && !(a.Continue? && s.pcs[a.t].NotifyWake?)
    requires StoresOk(s) && Local(s, s.pcs[a.t]) && (s.completed <==> s.state != ACTIVE_INCOMPLETE)
    requires a.Notify? ==> s.closings == 0 && s.used
    ensures StoresOk(Do(s, a))
  {
    TotalUpdate(s.pcs, a.t, Do(s, a).pcs[a.t], StoringOne);
  }

  lemma {:induction false} StoresAlways(s: State, acts: seq<Action>)
    requires Inv(s) && StoresOk(s) && Possible(s, acts) && NoEarlyReturn(s, acts)
    ensures StoresOk(After(s, acts))
    decreases |acts|
  {
    if acts != [] {
      InvStep(s, acts[0]);
      StoresStep(s, acts[0]);
      StoresAlways(Do(s, acts[0]), acts[1..]);
    }
  }

  /** In every run the event is inactive exactly if it has never been used or one of the stores due has been made. */
  lemma InactiveExactlyAfterAStore(s: State, acts: seq<Action>)
    requires Init(s) && Possible(s, acts) && NoEarlyReturn(s, acts)
    ensures var r := After(s, acts);
            r.state == INACTIVE <==> !r.used || Storing(r) < r.closings
  {
    NobodyStores(s.pcs);
    StoresAlways(s, acts);
  }

  /** A testable event that nobody is using is inactive exactly from the n-th successful test on. */
  lemma TestableEventCloses(s: State, acts: seq<Action>)
    requires Init(s) && !s.waitable && Possible(s, acts)
    requires var r := After(s, acts); r.used && forall t :: 0 <= t < |r.pcs| ==> AtRest(r.pcs[t])
    ensures var r := After(s, acts);
            r.state == INACTIVE <==> r.decrements >= if r.nwait == 0 then WORD else r.nwait
  {
    NobodySleeps(s, acts);
    InactiveExactlyAfterAStore(s, acts);
    InactiveIsStoredOnce(s, acts);
    NobodyStores(After(s, acts).pcs);
  }

  /** A further test of an inactive event answers true and leaves the count and everything else alone. */
  lemma ClosedEventIsLeftAlone(s: State, t: nat)
    requires s.state == INACTIVE && s.completed && t < |s.pcs| && AtRest(s.pcs[t])
    ensures Possible(s, [BeginTest(t), Continue(t)])
    ensures After(s, [BeginTest(t), Continue(t)]) == s.(pcs := s.pcs[t := Answered(true, true)])
  {
    var s1 := Do(s, BeginTest(t));
    assert After(Do(s1, Continue(t)), []) == Do(s1, Continue(t));
    RunPrepend(s1, Continue(t), []);
    RunPrepend(s, BeginTest(t), [Continue(t)]);
    assert [BeginTest(t)] + [Continue(t)] == [BeginTest(t), Continue(t)] && [Continue(t)] + [] == [Continue(t)];
  }

  /** A test that runs undisturbed on a complete event takes one off the count, and closes the event if it found one. */
  lemma UndisturbedTest(s: State, r: State, t: nat) returns (r': State)
    requires Reaches(s, r) && t < |r.pcs| && AtRest(r.pcs[t]) && r.state == ACTIVE_COMPLETE && r.completed
    ensures Reaches(s, r') && |r'.pcs| == |r.pcs| && r'.pcs[t] == Answered(true, true)
    ensures r'.waiters == Wrap32(r.waiters - 1)
    ensures r'.state == if r.waiters == 1 then INACTIVE else ACTIVE_COMPLETE
  {
    r' := OneTest(s, r, t);
    if r.waiters == 1 {
      r' := ReachesStep(s, r', Continue(t));
    }
  }

  /** A wait that runs undisturbed on a complete event returns, takes one off the count, and closes it if it found 0. */
  lemma UndisturbedWait(s: State, r: State, t: nat) returns (r': State)
    requires Reaches(s, r) && r.waitable && t < |r.pcs| && AtRest(r.pcs[t]) && r.completed
    requires r.state != ACTIVE_INCOMPLETE
    ensures Reaches(s, r') && |r'.pcs| == |r.pcs| && r'.pcs[t] == Returned(true)
    ensures r'.waiters == Wrap32(r.waiters - 1)
    ensures r'.state == if r.waiters == 0 then INACTIVE else r.state
  {
    r' := ReachesStep(s, r, BeginWait(t));
    r' := ReachesStep(s, r', Continue(t));
    if r.waiters == 0 {
      r' := ReachesStep(s, r', Continue(t));
    }
  }

  /** If completion comes between the look at the state and the futex call, the call does not sleep and wait returns. */
  lemma CompletionBeforeTheSleep(s: State, r: State, t: nat) returns (r': State)
    requires Reaches(s, r) && t < |r.pcs| && r.pcs[t].WaitFutex? && r.state == ACTIVE_COMPLETE && r.completed
    ensures Reaches(s, r') && |r'.pcs| == |r.pcs| && r'.pcs[t] == Returned(true)
    ensures r'.waiters == Wrap32(r.waiters - 1)
    ensures r'.state == if r.waiters == 0 then INACTIVE else ACTIVE_COMPLETE
  {
    r' := ReachesStep(s, r, Continue(t));
    r' := ReachesStep(s, r', Continue(t));
    if r.waiters == 0 {
      r' := ReachesStep(s, r', Continue(t));
    }
  }

  // ---------------------------------------------------------------- the bound is tight

  predicate NothingSpurious(acts: seq<Action>) {
    forall i :: 0 <= i < |acts| ==> !acts[i].SpuriousReturn?
  }

  /** A run without spurious returns leads from `s` to `r`. */
  ghost predicate Reaches(s: State, r: State) {
    exists acts :: Possible(s, acts) && NothingSpurious(acts) && After(s, acts) == r
  }

  lemma {:induction false} AppendAction(s: State, acts: seq<Action>, a: Action)
    requires Possible(s, acts) && Enabled(After(s, acts), a)
    ensures Possible(s, acts + [a]) && After(s, acts + [a]) == Do(After(s, acts), a)
    decreases |acts|
  {
    var all := acts + [a];
    if acts == [] {
      assert all[1..] == [];
    } else {
      AppendAction(Do(s, acts[0]), acts[1..], a);
      assert all[1..] == acts[1..] + [a];
    }
  }

  lemma ReachesStep(s: State, r: State, a: Action) returns (r': State)
    requires Reaches(s, r) && Enabled(r, a) && !a.SpuriousReturn?
    ensures Reaches(s, r') && r' == Do(r, a)
  {
    r' := Do(r, a);
    var acts :| Possible(s, acts) && NothingSpurious(acts) && After(s, acts) == r;
    AppendAction(s, acts, a);
    assert NothingSpurious(acts + [a]);
  }

  /** A completed test up to and including its decrement. */
  lemma OneTest(s: State, r: State, t: nat) returns (r': State)
    requires Reaches(s, r) && t < |r.pcs| && AtRest(r.pcs[t]) && r.state == ACTIVE_COMPLETE && r.completed
    ensures Reaches(s, r')
    ensures r' == Decrement(r).(
                    pcs := r.pcs[t := if r.waiters == 1 then TestStore(true) else Answered(true, true)],
                    closings := r.closings + if r.waiters == 1 then 1 else 0)
  {
    r' := ReachesStep(s, r, BeginTest(t));
    r' := ReachesStep(s, r', Continue(t));
    r' := ReachesStep(s, r', Continue(t));
  }

  /** Tests that do not find the value one leave only their decrements behind. */
  lemma {:induction false} ManyTests(s: State, r: State, t: nat, k: nat) returns (r': State)
    requires Reaches(s, r) && t < |r.pcs| && AtRest(r.pcs[t]) && r.state == ACTIVE_COMPLETE && r.completed
    requires k < r.waiters < WORD || (r.waiters == 0 && k < WORD)
    ensures Reaches(s, r') && |r'.pcs| == |r.pcs| && AtRest(r'.pcs[t])
    ensures r' == r.(waiters := Wrap32(r.waiters - k), decrements := r.decrements + k, pcs := r'.pcs)
    ensures forall u :: 0 <= u < |r.pcs| && u != t ==> r'.pcs[u] == r.pcs[u]
    decreases k
  {
    if k == 0 {
      r' := r;
    } else {
      r' := OneTest(s, r, t);
      r' := ManyTests(s, r', t, k - 1);
    }
  }

  /** The first test to find one stops before its store. */
  lemma FirstStoreIsPending(s: State, n: nat) returns (r: State)
    requires Init(s) && |s.pcs| >= 2 && 1 <= n < WORD && !s.waitable
    ensures Reaches(s, r) && r.nwait == n && r.decrements == n && r.closings == 1 && r.waiters == 0
    ensures |r.pcs| == |s.pcs| && AtRest(r.pcs[1]) && r.state == ACTIVE_COMPLETE && r.completed
  {
    assert Possible(s, []) && After(s, []) == s && NothingSpurious([]);
    r := ReachesStep(s, s, Reset(0, n));
    r := ReachesStep(s, r, Notify(0));
    r := ManyTests(s, r, 1, n - 1);
    r := OneTest(s, r, 0);
  }

  /**
   Two tests can go on to store INACTIVE as soon as the bound of `InactiveIsStoredOnce` is reached: one thread stops
   before its store while another tests until the count has come round.
   */
  lemma SecondStoreIsPossible(s: State, n: nat) returns (r: State)
    requires Init(s) && !s.waitable && |s.pcs| >= 2 && 1 <= n < WORD
    ensures Reaches(s, r) && r.nwait == n && r.decrements == WORD + n && r.closings == 2
  {
    r := FirstStoreIsPending(s, n);
    r := ManyTests(s, r, 1, WORD - 1);
    r := OneTest(s, r, 1);
  }

  /** `wait` does not look again after waking: from any sleep a spurious return leaves it before completion. */
  lemma SpuriousReturnBreaksWait(s: State, t: nat) returns (acts: seq<Action>)
    requires Inv(s) && t < |s.pcs| && s.pcs[t].Sleeping? && !s.completed
    ensures Possible(s, acts) && acts != [] && acts[0] == SpuriousReturn(t)
    ensures forall i :: 0 < i < |acts| ==> acts[i] == Continue(t)
    ensures |After(s, acts).pcs| == |s.pcs| && After(s, acts).pcs[t] == Returned(false)
  {
    var s1 := Do(s, SpuriousReturn(t));
    var rest := WaitGoesOn(s1, t);
    acts := [SpuriousReturn(t)] + rest;
    assert acts[1..] == rest;
  }

  /** Once at its decrement a wait returns without looking at the event's state. */
  lemma WaitGoesOn(s: State, t: nat) returns (acts: seq<Action>)
    requires t < |s.pcs| && s.pcs[t].WaitDecrement?
    ensures Possible(s, acts) && NoEarlyReturn(s, acts)
    ensures forall i :: 0 <= i < |acts| ==> acts[i] == Continue(t)
    ensures |After(s, acts).pcs| == |s.pcs| && After(s, acts).pcs[t] == Returned(s.completed)
  {
    var s1 := Do(s, Continue(t));
    if s.waiters == 0 {
      acts := [Continue(t), Continue(t)];
      assert acts[1..] == [Continue(t)] && acts[1..][1..] == [];
      var s2 := Do(s1, Continue(t));
      assert Possible(s2, []) && Possible(s1, acts[1..]);
      assert After(s1, acts[1..]) == After(s2, acts[1..][1..]) == s2;
      assert NoEarlyReturn(s2, []) && NoEarlyReturn(s1, acts[1..]);
    } else {
      acts := [Continue(t)];
      assert acts[1..] == [] && Possible(s1, []);
      assert After(s, acts) == After(s1, acts[1..]) == s1;
      assert NoEarlyReturn(s1, []);
    }
  }

  /** From here on waits return after completion, as long as futex calls do not return early. */
  ghost predicate WaitsAreSafe(s: State) {
    forall acts :: Possible(s, acts) && NoEarlyReturn(s, acts) ==> WaitsReturnedAfterCompletion(After(s, acts))
  }

  /** Waits are safe at every point of a run. */
  ghost predicate AlwaysSafe(s: State, acts: seq<Action>)
    requires Possible(s, acts)
    decreases |acts|
  {
    WaitsAreSafe(s) && (acts == [] || AlwaysSafe(Do(s, acts[0]), acts[1..]))
  }

  lemma InvIsSafe(s: State)
    requires Inv(s)
    ensures WaitsAreSafe(s)
  {
    forall acts | Possible(s, acts) && NoEarlyReturn(s, acts)
      ensures WaitsReturnedAfterCompletion(After(s, acts))
    {
      InvAlways(s, acts);
      var r := After(s, acts);
      assert forall t :: 0 <= t < |r.pcs| ==> Local(r, r.pcs[t]);
    }
  }

  /** An early return makes waits unsafe. */
  lemma EarlyReturnIsUnsafe(s: State, a: Action)
    requires Enabled(s, a) && EarlyReturn(s, a)
    ensures !WaitsAreSafe(Do(s, a))
  {
    var s1 := Do(s, a);
    var t := a.t;
    if !a.SpuriousReturn? {
      t :| 0 <= t < |s.pcs| && s.pcs[t].Sleeping?;
    }
    var acts := WaitGoesOn(s1, t);
    assert !WaitsReturnedAfterCompletion(After(s1, acts));
  }

  lemma {:induction false} SafeExactly(s: State, acts: seq<Action>)
    requires Inv(s) && Possible(s, acts)
    ensures AlwaysSafe(s, acts) <==> NoEarlyReturn(s, acts)
    decreases |acts|
  {
    InvIsSafe(s);
    if acts != [] {
      if EarlyReturn(s, acts[0]) {
        EarlyReturnIsUnsafe(s, acts[0]);
      } else {
        InvStep(s, acts[0]);
        SafeExactly(Do(s, acts[0]), acts[1..]);
      }
    }
  }

  /**
   The exact condition for `wait`: in a run, waits can be relied on at every point if and only if no futex_wait
   returned before completion, be it spuriously or by the wake of an earlier use of the event.
   */
  lemma WaitsAreSafeExactlyWithoutEarlyReturns(s: State, acts: seq<Action>)
    requires Init(s) && Possible(s, acts)
    ensures AlwaysSafe(s, acts) <==> NoEarlyReturn(s, acts)
  {
    SafeExactly(s, acts);
  }

  // ---------------------------------------------------------------- when a reset is safe

  /** Nobody owes a wake. */
  ghost predicate Quiet(s: State) {
    forall u :: 0 <= u < |s.pcs| ==> !s.pcs[u].NotifyWake?
  }

  /** No futex call returns spuriously, and the event is reset only when no wake is owed. */
  ghost predicate QuietRun(s: State, acts: seq<Action>)
    requires Possible(s, acts)
    decreases |acts|
  {
    acts == [] ||
    (!acts[0].SpuriousReturn? && (acts[0].Reset? ==> Quiet(s)) && QuietRun(Do(s, acts[0]), acts[1..]))
  }

  /** Whatever is done next without spurious returns and with quiet resets, waits return after completion. */
  ghost predicate Reliable(s: State) {
    forall acts :: Possible(s, acts) && QuietRun(s, acts) ==> WaitsReturnedAfterCompletion(After(s, acts))
  }

  /** A wake is owed only while the event is complete. */
  ghost predicate Settled(s: State) {
    !s.completed ==> Quiet(s)
  }

  lemma SettledStep(s: State, a: Action)
    requires Settled(s) && Enabled(s, a) && !a.SpuriousReturn? && (a.Reset? ==> Quiet(s))
    ensures Settled(Do(s, a)) && !EarlyReturn(s, a)
  {
    var s' := Do(s, a);
    if !s'.completed {
      forall u | 0 <= u < |s'.pcs|
        ensures !s'.pcs[u].NotifyWake?
      {
        NoNewWake(s, a, u);
      }
    }
  }

  lemma NoNewWake(s: State, a: Action, u: nat)
    requires Enabled(s, a) && !a.Notify? && u < |s.pcs| && !s.pcs[u].NotifyWake?
    ensures |Do(s, a).pcs| == |s.pcs| && !Do(s, a).pcs[u].NotifyWake?
  {
    if u != a.t {
      OthersKeepTheirPlace(s, a, u);
    }
  }

  lemma {:induction false} QuietRunsHaveNoEarlyReturn(s: State, acts: seq<Action>)
    requires Settled(s) && Possible(s, acts) && QuietRun(s, acts)
    ensures NoEarlyReturn(s, acts)
    decreases |acts|
  {
    if acts != [] {
      SettledStep(s, acts[0]);
      QuietRunsHaveNoEarlyReturn(Do(s, acts[0]), acts[1..]);
    }
  }

  lemma SettledIsReliable(s: State)
    requires Inv(s) && Settled(s)
    ensures Reliable(s)
  {
    forall acts | Possible(s, acts) && QuietRun(s, acts)
      ensures WaitsReturnedAfterCompletion(After(s, acts))
    {
      QuietRunsHaveNoEarlyReturn(s, acts);
      InvIsSafe(s);
    }
  }

  lemma {:induction false} ContinuesAreQuiet(s: State, acts: seq<Action>, t: nat)
    requires Possible(s, acts) && forall i :: 0 <= i < |acts| ==> acts[i] == Continue(t)
    ensures QuietRun(s, acts)
    decreases |acts|
  {
    if acts != [] {
      ContinuesAreQuiet(Do(s, acts[0]), acts[1..], t);
    }
  }

  lemma RunPrepend(s: State, a: Action, rest: seq<Action>)
    requires Enabled(s, a) && Possible(Do(s, a), rest)
    ensures Possible(s, [a] + rest) && After(s, [a] + rest) == After(Do(s, a), rest)
    ensures !a.SpuriousReturn? && !a.Reset? && QuietRun(Do(s, a), rest) ==> QuietRun(s, [a] + rest)
  {
    var acts := [a] + rest;
    assert acts[0] == a && acts[1..] == rest;
  }

  /** A client that waits right after the reset is woken by the wake of the earlier use, and returns. */
  lemma StaleWakeBreaksWait(s: State, t: nat, u: nat) returns (acts: seq<Action>)
    requires s.waitable && s.state == ACTIVE_INCOMPLETE && !s.completed
    requires t < |s.pcs| && AtRest(s.pcs[t]) && u < |s.pcs| && s.pcs[u].NotifyWake?
    ensures Possible(s, acts) && QuietRun(s, acts)
    ensures |After(s, acts).pcs| == |s.pcs| && After(s, acts).pcs[t] == Returned(false)
  {
    var s1 := Do(s, BeginWait(t));
    var s2 := Do(s1, Continue(t));
    var s3 := Do(s2, Continue(u));
    var rest := WaitGoesOn(s3, t);
    ContinuesAreQuiet(s3, rest, t);
    RunPrepend(s2, Continue(u), rest);
    RunPrepend(s1, Continue(t), [Continue(u)] + rest);
    RunPrepend(s, BeginWait(t), [Continue(t)] + ([Continue(u)] + rest));
    acts := [BeginWait(t)] + ([Continue(t)] + ([Continue(u)] + rest));
  }

  /**
   Exactly when a waitable event can be reused: after a reset waits can be relied on if and only if, at the reset, no
   notifier of an earlier use has its wake still to issue.  Having seen completion is not enough.
   */
  lemma ResetIsSafeExactly(s: State, t: nat, n: nat)
    requires Inv(s) && s.waitable && Enabled(s, Reset(t, n))
    ensures Reliable(Do(s, Reset(t, n))) <==> Quiet(s)
  {
    var s' := Do(s, Reset(t, n));
    if Quiet(s) {
      InvStep(s, Reset(t, n));
      SettledIsReliable(s');
    } else {
      var u :| 0 <= u < |s.pcs| && s.pcs[u].NotifyWake?;
      var acts := StaleWakeBreaksWait(s', t, u);
      assert !WaitsReturnedAfterCompletion(After(s', acts));
    }
  }

  /**
   The failing reuse from a fresh event: a client waits, sees completion and returns, resets and waits again, and is
   woken by the first use's wake.  Nothing returns spuriously, and the reset comes after a wait that has returned.
   */
  lemma ReuseCanReturnEarly(s: State) returns (r: State)
    requires Init(s) && s.waitable && |s.pcs| >= 2
    ensures Reaches(s, r) && !r.completed && |r.pcs| == |s.pcs| && r.pcs[0] == Returned(false)
  {
    assert Possible(s, []) && After(s, []) == s && NothingSpurious([]);
    r := ReachesStep(s, s, Reset(0, 1));
    r := ReachesStep(s, r, Notify(1));
    r := ReachesStep(s, r, BeginWait(0));
    r := ReachesStep(s, r, Continue(0));
    r := SecondUseReturnsEarly(s, r);
  }

  lemma SecondUseReturnsEarly(s: State, r0: State) returns (r: State)
    requires Reaches(s, r0) && r0.waitable && |r0.pcs| >= 2 && r0.pcs[0].Returned? && r0.pcs[1].NotifyWake?
    requires forall u :: 2 <= u < |r0.pcs| ==> r0.pcs[u].Idle?
    ensures Reaches(s, r) && !r.completed && |r.pcs| == |r0.pcs| && r.pcs[0] == Returned(false)
  {
    r := ReachesStep(s, r0, Reset(0, 1));
    r := ReachesStep(s, r, BeginWait(0));
    r := ReachesStep(s, r, Continue(0));
    r := WokenReturnsEarly(s, r);
  }

  lemma WokenReturnsEarly(s: State, r0: State) returns (r: State)
    requires Reaches(s, r0) && |r0.pcs| >= 2 && r0.pcs[0].Sleeping? && r0.pcs[1].NotifyWake?
    requires !r0.completed && r0.waiters == 1
    ensures Reaches(s, r) && !r.completed && |r.pcs| == |r0.pcs| && r.pcs[0] == Returned(false)
  {
    r := ReachesStep(s, r0, Continue(1));
    r := ReachesStep(s, r, Continue(0));
  }

  // ---------------------------------------------------------------- refinement of a one-bit flag

  /** What a client of the flag has learnt: the answer of its last test, or where its wait stands. */
  datatype Client = Nothing | Told(answer: bool) | Waiting | WaitOver

  datatype Flag = Flag(up: bool, clients: seq<Client>)

  function ClientOf(pc: Pc): Client {
    match pc
    case Idle => Nothing
    case NotifyWake => Nothing
    case TestInactive(seen) => Told(seen)
    case TestDecrement(seen) => Told(seen)
    case TestStore(seen) => Told(seen)
    case Answered(result, _) => Told(result)
    case Returned(_) => WaitOver
    case _ => Waiting
  }

  function Abstract(s: State): Flag {
    Flag(s.completed, seq(|s.pcs|, u requires 0 <= u < |s.pcs| => ClientOf(s.pcs[u])))
  }

  /**
   One step of the flag by client `t`: an atomic test that learns the flag, raising it, lowering it, starting to wait,
   or ending a wait, which needs the flag to be up.
   */
  ghost predicate FlagStep(f: Flag, a: Action, f': Flag) {
    && a.t < |f.clients|
    && match a
       case BeginTest(t) => f' == f.(clients := f.clients[t := Told(f.up)])
       case BeginWait(t) => f' == f.(clients := f.clients[t := Waiting])
       case Notify(t) => f' == Flag(true, f.clients[t := Nothing])
       case Reset(_, _) => f' == f.(up := false)
       case _ => f' == f || (f.up && f.clients[a.t] == Waiting && f' == f.(clients := f.clients[a.t := WaitOver]))
  }

  lemma ClientsElsewhere(s: State, a: Action, u: nat)
    requires Enabled(s, a) && u < |s.pcs| && u != a.t
    ensures |Do(s, a).pcs| == |s.pcs| && ClientOf(Do(s, a).pcs[u]) == ClientOf(s.pcs[u])
  {
    OthersKeepTheirPlace(s, a, u);
  }

  lemma OwnClient(s: State, a: Action)
    requires Inv(s) && Enabled(s, a) && !EarlyReturn(s, a)
    ensures var was, now := ClientOf(s.pcs[a.t]), ClientOf(Do(s, a).pcs[a.t]);
            match a
            case BeginTest(_) => now == Told(s.completed)
            case BeginWait(_) => now == Waiting
            case Notify(_) => now == Nothing
            case Reset(_, _) => now == was
            case _ => now == was || (s.completed && was == Waiting && now == WaitOver)
  {
    assert Local(s, s.pcs[a.t]);
  }

  /**
   The event refines the flag: every memory operation is a step of the flag or invisible to it.  A test is atomic at its
   first read, however many operations follow and whatever they do to the state word and the waiter count.
   */
  lemma StepRefinesFlag(s: State, a: Action)
    requires Inv(s) && Enabled(s, a) && !EarlyReturn(s, a)
    ensures FlagStep(Abstract(s), a, Abstract(Do(s, a)))
  {
    var f, f' := Abstract(s), Abstract(Do(s, a));
    OwnClient(s, a);
    forall u | 0 <= u < |s.pcs| && u != a.t
      ensures f'.clients[u] == f.clients[u]
    {
      ClientsElsewhere(s, a, u);
    }
    assert f'.clients == f.clients[a.t := f'.clients[a.t]];
    assert f.clients[a.t := f.clients[a.t]] == f.clients;
  }

  /** A whole run as steps of the flag. */
  ghost predicate FlagRun(f: Flag, acts: seq<Action>, run: seq<Flag>) {
    && |run| == |acts| + 1 && run[0] == f
    && forall i :: 0 <= i < |acts| ==> FlagStep(run[i], acts[i], run[i + 1])
  }

  lemma {:induction false} RunRefinesFlag(s: State, acts: seq<Action>) returns (run: seq<Flag>)
    requires Inv(s) && Possible(s, acts) && NoEarlyReturn(s, acts)
    ensures FlagRun(Abstract(s), acts, run) && run[|acts|] == Abstract(After(s, acts))
    decreases |acts|
  {
    if acts == [] {
      run := [Abstract(s)];
    } else {
      StepRefinesFlag(s, acts[0]);
      InvStep(s, acts[0]);
      var rest := RunRefinesFlag(Do(s, acts[0]), acts[1..]);
      run := [Abstract(s)] + rest;
    }
  }
}
