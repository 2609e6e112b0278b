/**
 The three-state futex mutex (pfunc/mutex.hpp).

 Each thread has a program counter that stands between two memory operations of `lock`, `trylock`
 or `unlock`; an action is one memory operation or one futex call of one thread.  The futex calls
 follow pfunc/futex.h: waiting compares and sleeps atomically, waking removes a sleeper if there
 is one.  Sleepers may also return spuriously.
 */
module FutexMutex {
  import opened Common

  const FREE := 0
  const LOCKED := 1
  const LOCKED_WITH_WAITERS := 2
  const MAX_RELAXATIONS := 2 * 1024 * 1024

  datatype Pc =
    | Idle               // outside the mutex code, not holding the lock
    | Mark               // about to exchange LOCKED for LOCKED_WITH_WAITERS
    | Spin(i: nat)       // in the relaxation loop
    | Wait               // about to call futex_wait
    | Sleeping           // inside futex_wait
    | Retry              // about to exchange FREE for LOCKED_WITH_WAITERS
    | Critical           // holding the lock
    | Wake               // has released the lock and is about to call futex_wake

  datatype State = State(val: int, pcs: seq<Pc>)

  datatype Action =
    | FastLock(t: nat)
    | TryLock(t: nat)
    | MarkWaiters(t: nat)
    | Relax(t: nat)
    | FutexWait(t: nat)
    | SpuriousReturn(t: nat)
    | RetryLock(t: nat)
    | Unlock(t: nat)
    | FutexWake(t: nat, woken: Option<nat>)

  /** Compare-and-swap; the second component is the OLD value, as the x86 instruction returns it. */
  function CompareAndSwap(val: int, exchange: int, comparand: int): (int, int) {
    (if val == comparand then exchange else val, val)
  }

  predicate Init(s: State) {
    s.val == FREE && forall t :: 0 <= t < |s.pcs| ==> s.pcs[t] == Idle
  }

  predicate Enabled(s: State, a: Action) {
    && a.t < |s.pcs|
    && match a
       case FastLock(t) => s.pcs[t].Idle?
       case TryLock(t) => s.pcs[t].Idle?
       case MarkWaiters(t) => s.pcs[t].Mark?
       case Relax(t) => s.pcs[t].Spin?
       case FutexWait(t) => s.pcs[t].Wait?
       case SpuriousReturn(t) => s.pcs[t].Sleeping?
       case RetryLock(t) => s.pcs[t].Retry?
       case Unlock(t) => s.pcs[t].Critical?
       case FutexWake(t, woken) =>
         && s.pcs[t].Wake?
         && match woken
            case Some(u) => u < |s.pcs| && s.pcs[u].Sleeping?
            case None => forall u :: 0 <= u < |s.pcs| ==> !s.pcs[u].Sleeping?
  }

  function Goto(s: State, t: nat, pc: Pc): State
    requires t < |s.pcs|
  {
    s.(pcs := s.pcs[t := pc])
  }

  function Do(s: State, a: Action): State
    requires Enabled(s, a)
  {
    match a
    case FastLock(t) =>
      var (val, old') := CompareAndSwap(s.val, LOCKED, FREE);
      Goto(s, t, if old' == FREE then Critical else Mark).(val := val)
    case TryLock(t) =>
      var (val, old') := CompareAndSwap(s.val, LOCKED, FREE);
      Goto(s, t, if old' == FREE then Critical else Idle).(val := val)
    case MarkWaiters(t) =>
      var (val, old') := CompareAndSwap(s.val, LOCKED_WITH_WAITERS, LOCKED);
      Goto(s, t, if old' == FREE then Retry else Spin(0)).(val := val)
    case Relax(t) =>
      var i := s.pcs[t].i;
      Goto(s, t, if i < MAX_RELAXATIONS && s.val == LOCKED_WITH_WAITERS then Spin(i + 1) else Wait)
    case FutexWait(t) =>
      Goto(s, t, if s.val == LOCKED_WITH_WAITERS then Sleeping else Retry)
    case SpuriousReturn(t) => Goto(s, t, Retry)
    case RetryLock(t) =>
      var (val, old') := CompareAndSwap(s.val, LOCKED_WITH_WAITERS, FREE);
      Goto(s, t, if old' == FREE then Critical else Mark).(val := val)
    case Unlock(t) =>
      Goto(s, t, if s.val <= LOCKED then Idle else Wake).(val := FREE)
    case FutexWake(t, woken) =>
      var s1 := Goto(s, t, Idle);
      match woken case Some(u) => Goto(s1, u, Retry) case None => s1
  }

  /** What `trylock` returns when it runs its one compare-and-swap in state `s`. */
  predicate TryLockResult(s: State) {
    CompareAndSwap(s.val, LOCKED, FREE).1 != FREE
  }

  // ---------------------------------------------------------------- runs

  /** `acts` can be taken one after the other from `s`. */
  predicate Possible(s: State, acts: seq<Action>)
    decreases |acts|
  {
    acts == [] || (Enabled(s, acts[0]) && Possible(Do(s, acts[0]), acts[1..]))
  }

  function After(s: State, acts: seq<Action>): State
    requires Possible(s, acts)
    decreases |acts|
  {
    if acts == [] then s else After(Do(s, acts[0]), acts[1..])
  }

  // ---------------------------------------------------------------- invariant

  /** Awake between a failed first attempt and the acquisition. */
  predicate AwakeInSlowPath(pc: Pc) {
    pc.Mark? || pc.Spin? || pc.Wait? || pc.Retry?
  }

  ghost predicate Sleeper(s: State) {
    exists t :: 0 <= t < |s.pcs| && s.pcs[t].Sleeping?
  }

  ghost predicate Holder(s: State) {
    exists t :: 0 <= t < |s.pcs| && s.pcs[t].Critical?
  }

  /** Somebody is already on the way to wake a sleeper, or to take the lock in its waiters state. */
  ghost predicate HelpComing(s: State) {
    exists t :: 0 <= t < |s.pcs| && (s.pcs[t].Wake? || AwakeInSlowPath(s.pcs[t]))
  }

  ghost predicate MutualExclusion(s: State) {
    forall t, u :: 0 <= t < |s.pcs| && 0 <= u < |s.pcs| && s.pcs[t].Critical? && s.pcs[u].Critical? ==> t == u
  }

  ghost predicate Inv(s: State) {
    && FREE <= s.val <= LOCKED_WITH_WAITERS
    && MutualExclusion(s)
    && (s.val != FREE <==> Holder(s))
    && (Sleeper(s) ==> s.val == LOCKED_WITH_WAITERS || HelpComing(s))
  }

  /** The lock word and the holder move together. */
  lemma ExclusionStep(s: State, a: Action)
    requires Inv(s) && Enabled(s, a)
    ensures var s' := Do(s, a);
            && FREE <= s'.val <= LOCKED_WITH_WAITERS
            && MutualExclusion(s')
            && (s'.val != FREE <==> Holder(s'))
  {
    var s' := Do(s, a);
    assert forall u :: 0 <= u < |s.pcs| && u != a.t ==> (s'.pcs[u].Critical? <==> s.pcs[u].Critical?);
    if s.val != FREE && !a.Unlock? {
      var h :| 0 <= h < |s.pcs| && s.pcs[h].Critical?;
      assert s'.pcs[h].Critical?;
    } else if s'.val != FREE {
      assert s'.pcs[a.t].Critical?;
    }
  }

  /** A thread that acts on its own leaves the other threads where they are. */
  lemma OthersKeepHelping(s: State, a: Action)
    requires Inv(s) && Enabled(s, a) && !a.FutexWake?
    requires Sleeper(s)
    ensures var s' := Do(s, a); s'.val == LOCKED_WITH_WAITERS || HelpComing(s')
  {
    var s' := Do(s, a);
    if s.val == LOCKED_WITH_WAITERS {
      if a.Unlock? {
        assert s'.pcs[a.t].Wake?;
      } else {
        assert s'.val == LOCKED_WITH_WAITERS;
      }
    } else {
      var h :| 0 <= h < |s.pcs| && (s.pcs[h].Wake? || AwakeInSlowPath(s.pcs[h]));
      assert h != a.t ==> s'.pcs[h] == s.pcs[h];
      assert h == a.t ==> AwakeInSlowPath(s'.pcs[h]) || s'.val == LOCKED_WITH_WAITERS;
    }
  }

  /** Wherever the run goes, a sleeper can count on the waiters mark or on a thread that is awake. */
  lemma WakeupStep(s: State, a: Action)
    requires Inv(s) && Enabled(s, a)
    ensures var s' := Do(s, a); Sleeper(s') ==> s'.val == LOCKED_WITH_WAITERS || HelpComing(s')
  {
    var s' := Do(s, a);
    if a.FutexWake? {
      if a.woken.Some? {
        assert s'.pcs[a.woken.value].Retry?;
      } else {
        assert forall u :: 0 <= u < |s.pcs| ==> !s'.pcs[u].Sleeping?;
      }
    } else if Sleeper(s) {
      OthersKeepHelping(s, a);
    } else if Sleeper(s') {
      assert a.FutexWait?;
    }
  }

  lemma InvStep(s: State, a: Action)
    requires Inv(s) && Enabled(s, a)
    ensures Inv(Do(s, a))
  {
    ExclusionStep(s, a);
    WakeupStep(s, a);
  }

  /** Mutual exclusion and no lost wake-up after every run, for any number of threads. */
  lemma {:induction false} InvAlways(s: State, acts: seq<Action>)
    requires Inv(s) && Possible(s, acts)
    ensures Inv(After(s, acts))
    decreases |acts|
  {
    if acts != [] {
      InvStep(s, acts[0]);
      InvAlways(Do(s, acts[0]), acts[1..]);
    }
  }

  /** Any number of threads can share a fresh mutex. */
  lemma InitialState(n: nat) returns (s: State)
    ensures Init(s) && |s.pcs| == n
  {
    s := State(FREE, seq(n, _ => Idle));
  }

  /** The word tells the truth: nonzero exactly when one thread, and only one, holds the lock. */
  lemma MutexCorrect(s: State, acts: seq<Action>)
    requires Init(s) && Possible(s, acts)
    ensures var r := After(s, acts);
            && MutualExclusion(r)
            && (r.val != FREE <==> Holder(r))
            && (Sleeper(r) ==> r.val == LOCKED_WITH_WAITERS || HelpComing(r))
  {
    InvAlways(s, acts);
  }

  // ---------------------------------------------------------------- refinement of an abstract lock

  /** The holder, as the abstract lock sees it. */
  ghost function Owner(s: State): Option<nat> {
    if Holder(s) then
      var t :| 0 <= t < |s.pcs| && s.pcs[t].Critical?; Some(t)
    else None
  }

  /**
   Every action is a step of the abstract lock: the owner stays, or the acting thread takes a free
   lock, or the owner itself gives it up.
   */
  lemma StepRefinesLock(s: State, a: Action)
    requires Inv(s) && Enabled(s, a)
    ensures var was, now := Owner(s), Owner(Do(s, a));
            || now == was
            || (was == None && now == Some(a.t) && (a.FastLock? || a.TryLock? || a.RetryLock?))
            || (was == Some(a.t) && now == None && a.Unlock?)
  {
    InvStep(s, a);
    var s' := Do(s, a);
    assert forall u :: 0 <= u < |s.pcs| && u != a.t ==> (s'.pcs[u].Critical? <==> s.pcs[u].Critical?);
    if Holder(s) {
      assert Owner(s).Some?;
      var h := Owner(s).value;
      if !a.Unlock? {
        assert s'.pcs[h].Critical?;
      }
    }
    if Holder(s') && !Holder(s) {
      assert s'.pcs[a.t].Critical?;
    }
  }

  /**
   `trylock` answers true exactly when it did NOT take the lock, the negation of its documentation.  It takes a free
   lock without leaving a mark, and changes nothing if somebody holds it.
   */
  lemma TryLockAnswerIsInverted(s: State, t: nat)
    requires Inv(s) && t < |s.pcs| && s.pcs[t].Idle?
    ensures Enabled(s, TryLock(t))
    ensures TryLockResult(s) <==> !Do(s, TryLock(t)).pcs[t].Critical?
    ensures TryLockResult(s) <==> Holder(s)
    ensures Do(s, TryLock(t)) == if Holder(s) then s else State(LOCKED, s.pcs[t := Critical])
  {
  }

  // ---------------------------------------------------------------- deadlock freedom

  /** How far a thread is from being idle again, once the lock is available to it. */
  function Distance(pc: Pc): nat {
    match pc
    case Idle => 0
    case Wake => 1
    case Critical => 2
    case Retry => 3
    case Wait => 4
    case Spin(_) => 5
    case Mark => 6
    case Sleeping => 6
  }

  ghost predicate AllIdle(s: State) {
    forall t :: 0 <= t < |s.pcs| ==> s.pcs[t].Idle?
  }

  /** Waking somebody, or nobody, brings the threads closer to being idle. */
  lemma WakeProgress(s: State, t: nat) returns (a: Action)
    requires t < |s.pcs| && s.pcs[t].Wake?
    ensures Enabled(s, a)
    ensures Total(Do(s, a).pcs, Distance) < Total(s.pcs, Distance)
  {
    TotalUpdate(s.pcs, t, Idle, Distance);
    if Sleeper(s) {
      var u :| 0 <= u < |s.pcs| && s.pcs[u].Sleeping?;
      a := FutexWake(t, Some(u));
      TotalUpdate(Goto(s, t, Idle).pcs, u, Retry, Distance);
    } else {
      a := FutexWake(t, None);
    }
  }

  /** With the lock free, a thread in the slow path moves on towards it. */
  lemma SlowPathProgress(s: State, t: nat) returns (a: Action)
    requires t < |s.pcs| && AwakeInSlowPath(s.pcs[t]) && s.val == FREE
    ensures Enabled(s, a)
    ensures Total(Do(s, a).pcs, Distance) < Total(s.pcs, Distance)
  {
    match s.pcs[t] {
      case Mark => a := MarkWaiters(t);
      case Spin(_) => a := Relax(t);
      case Wait => a := FutexWait(t);
      case Retry => a := RetryLock(t);
    }
    TotalUpdate(s.pcs, t, Do(s, a).pcs[t], Distance);
  }

  /** Unless all threads are idle, some action brings the threads closer to being idle. */
  lemma ProgressStep(s: State) returns (a: Action)
    requires Inv(s) && !AllIdle(s)
    ensures Enabled(s, a)
    ensures Total(Do(s, a).pcs, Distance) < Total(s.pcs, Distance)
  {
    if Holder(s) {
      var t :| 0 <= t < |s.pcs| && s.pcs[t].Critical?;
      a := Unlock(t);
      TotalUpdate(s.pcs, t, Do(s, a).pcs[t], Distance);
    } else {
      var b :| 0 <= b < |s.pcs| && !s.pcs[b].Idle?;
      assert s.pcs[b].Sleeping? ==> Sleeper(s);
      var t :| 0 <= t < |s.pcs| && (s.pcs[t].Wake? || AwakeInSlowPath(s.pcs[t]));
      if s.pcs[t].Wake? {
        a := WakeProgress(s, t);
      } else {
        a := SlowPathProgress(s, t);
      }
    }
  }

  /**
   No reachable state is stuck: whatever has happened, the threads can all get the lock, release
   it and become idle.
   */
  lemma {:induction false} EverybodyCanFinish(s: State) returns (acts: seq<Action>)
    requires Inv(s)
    ensures Possible(s, acts) && AllIdle(After(s, acts))
    decreases Total(s.pcs, Distance)
  {
    if AllIdle(s) {
      acts := [];
    } else {
      var a := ProgressStep(s);
      InvStep(s, a);
      var rest := EverybodyCanFinish(Do(s, a));
      acts := [a] + rest;
      assert acts[0] == a && acts[1..] == rest;
    }
  }

  // ---------------------------------------------------------------- undisturbed operations

  lemma RunPrepend(s: State, a: Action, rest: seq<Action>)
    requires Enabled(s, a) && Possible(Do(s, a), rest)
    ensures Possible(s, [a] + rest) && After(s, [a] + rest) == After(Do(s, a), rest)
  {
    var acts := [a] + rest;
    assert acts[0] == a && acts[1..] == rest;
  }

  /** An uncontended lock and its unlock are one memory operation each, without a futex call, and leave no mark. */
  lemma UncontendedLockAndUnlock(s: State, t: nat)
    requires t < |s.pcs| && s.pcs[t].Idle? && s.val == FREE
    ensures Possible(s, [FastLock(t)] + [Unlock(t)]) && After(s, [FastLock(t)] + [Unlock(t)]) == s
    ensures Do(s, FastLock(t)) == State(LOCKED, s.pcs[t := Critical])
  {
    var s1 := Do(s, FastLock(t));
    var s2 := Do(s1, Unlock(t));
    assert s2.pcs == s.pcs;
    assert Possible(s2, []) && After(s2, []) == s2;
    assert [Unlock(t)] + [] == [Unlock(t)];
    RunPrepend(s1, Unlock(t), []);
    RunPrepend(s, FastLock(t), [Unlock(t)]);
  }

  function Relaxes(t: nat, k: nat): seq<Action> {
    if k == 0 then [] else [Relax(t)] + Relaxes(t, k - 1)
  }

  /** A thread that finds the word unchanged spins exactly its limit of relaxations before it turns to the futex. */
  lemma {:induction false} SpinsToTheLimit(s: State, t: nat, i: nat)
    requires t < |s.pcs| && s.pcs[t] == Spin(i) && i <= MAX_RELAXATIONS && s.val == LOCKED_WITH_WAITERS
    ensures Possible(s, Relaxes(t, MAX_RELAXATIONS - i + 1))
    ensures After(s, Relaxes(t, MAX_RELAXATIONS - i + 1)) == Goto(s, t, Wait)
    decreases MAX_RELAXATIONS - i
  {
    var s1 := Do(s, Relax(t));
    var k := MAX_RELAXATIONS - i;
    if k == 0 {
      assert Possible(s1, []) && After(s1, []) == s1 && Relaxes(t, 0) == [];
    } else {
      SpinsToTheLimit(s1, t, i + 1);
      assert Goto(s1, t, Wait) == Goto(s, t, Wait);
    }
    RunPrepend(s, Relax(t), Relaxes(t, k));
    assert Relaxes(t, k + 1) == [Relax(t)] + Relaxes(t, k);
  }

  /** As soon as the word changes the spinning ends, and a futex call on a changed word does not sleep. */
  lemma ChangeEndsTheSpin(s: State, t: nat)
    requires t < |s.pcs| && s.val != LOCKED_WITH_WAITERS
    ensures s.pcs[t].Spin? ==> Do(s, Relax(t)) == Goto(s, t, Wait)
    ensures s.pcs[t].Wait? ==> Do(s, FutexWait(t)) == Goto(s, t, Retry)
  {
  }

  /**
   A lock that finds the word taken, undisturbed: it marks the word, spins to its limit, and sleeps; the other threads
   stay where they are.
   */
  lemma ContendedLockSleeps(s: State, t: nat) returns (acts: seq<Action>)
    requires t < |s.pcs| && s.pcs[t].Idle? && (s.val == LOCKED || s.val == LOCKED_WITH_WAITERS)
    ensures acts == [FastLock(t)] + ([MarkWaiters(t)] + (Relaxes(t, MAX_RELAXATIONS + 1) + [FutexWait(t)]))
    ensures Possible(s, acts) && After(s, acts) == State(LOCKED_WITH_WAITERS, s.pcs[t := Sleeping])
  {
    var s1 := Do(s, FastLock(t));
    var s2 := Do(s1, MarkWaiters(t));
    var spin := Relaxes(t, MAX_RELAXATIONS + 1);
    SpinsToTheLimit(s2, t, 0);
    AppendAction(s2, spin, FutexWait(t));
    RunPrepend(s1, MarkWaiters(t), spin + [FutexWait(t)]);
    RunPrepend(s, FastLock(t), [MarkWaiters(t)] + (spin + [FutexWait(t)]));
    acts := [FastLock(t)] + ([MarkWaiters(t)] + (spin + [FutexWait(t)]));
    assert Do(Goto(s2, t, Wait), FutexWait(t)).pcs == s.pcs[t := Sleeping];
  }

  lemma {:induction false} AppendAction(s: State, acts: seq<Action>, a: Action)
    requires Possible(s, acts) && Enabled(After(s, acts), a)
    ensures Possible(s, acts + [a]) && After(s, acts + [a]) == Do(After(s, acts), a)
    decreases |acts|
  {
    var all := acts + [a];
    if acts == [] {
      assert all[1..] == [];
    } else {
      AppendAction(Do(s, acts[0]), acts[1..], a);
      assert all[1..] == acts[1..] + [a];
    }
  }

  /** What a thread in the slow path does next. */
  function NextInSlowPath(pc: Pc, t: nat): Action {
    if pc.Mark? then MarkWaiters(t) else if pc.Wait? then FutexWait(t) else SpuriousReturn(t)
  }

  /** A thread that finds the word free on its way, or returns from the futex for any reason, takes it at once. */
  lemma FreeWordIsTakenAtOnce(s: State, t: nat)
    requires t < |s.pcs| && s.val == FREE && (s.pcs[t].Mark? || s.pcs[t].Wait? || s.pcs[t].Sleeping?)
    ensures var first := NextInSlowPath(s.pcs[t], t);
            && Possible(s, [first] + [RetryLock(t)])
            && After(s, [first] + [RetryLock(t)]) == State(LOCKED_WITH_WAITERS, s.pcs[t := Critical])
  {
    var first := NextInSlowPath(s.pcs[t], t);
    var s1 := Do(s, first);
    var s2 := Do(s1, RetryLock(t));
    assert Possible(s2, []) && After(s2, []) == s2 && [RetryLock(t)] + [] == [RetryLock(t)];
    RunPrepend(s1, RetryLock(t), []);
    RunPrepend(s, first, [RetryLock(t)]);
    assert s2.pcs == s.pcs[t := Critical];
  }

  /** An unlock of a marked word, its wake, and the woken thread's next attempt hand the lock over, still marked. */
  lemma UnlockHandsOver(s: State, h: nat, u: nat) returns (acts: seq<Action>)
    requires h < |s.pcs| && s.pcs[h].Critical? && u < |s.pcs| && s.pcs[u].Sleeping? && s.val == LOCKED_WITH_WAITERS
    ensures acts == [Unlock(h)] + ([FutexWake(h, Some(u))] + [RetryLock(u)])
    ensures Possible(s, acts) && After(s, acts) == State(LOCKED_WITH_WAITERS, s.pcs[h := Idle][u := Critical])
  {
    var s1 := Do(s, Unlock(h));
    var s2 := Do(s1, FutexWake(h, Some(u)));
    var s3 := Do(s2, RetryLock(u));
    assert Possible(s3, []) && After(s3, []) == s3 && [RetryLock(u)] + [] == [RetryLock(u)];
    RunPrepend(s2, RetryLock(u), []);
    RunPrepend(s1, FutexWake(h, Some(u)), [RetryLock(u)]);
    acts := [Unlock(h)] + ([FutexWake(h, Some(u))] + [RetryLock(u)]);
    RunPrepend(s, Unlock(h), [FutexWake(h, Some(u))] + [RetryLock(u)]);
    assert s3.pcs == s.pcs[h := Idle][u := Critical];
  }
}
