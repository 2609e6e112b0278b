/** One-dimensional iteration spaces (pfunc/space_1D.hpp) and the parallel loop over them (pfunc/parallel_for.hpp). */
module ParallelFor {
  import opened ForkJoin

  /** The number of values of `size_t`. */
  const SIZE_T := 0x1_0000_0000_0000_0000

  /** The half-open range [begin, end). */
  datatype Space = Space(begin: nat, end: nat)

  predicate IsRange(s: Space) {
    s.begin <= s.end < SIZE_T
  }

  function Length(s: Space): nat
    requires IsRange(s)
  {
    s.end - s.begin
  }

  /** `splittable`, computed in unsigned arithmetic. */
  predicate CanSplit(s: Space, base: nat) {
    (s.end - s.begin) % SIZE_T > base
  }

  /** The split point, with every intermediate value a `size_t`. */
  function SplitPoint(s: Space): nat {
    (s.begin + ((s.end - s.begin) % SIZE_T) / 2) % SIZE_T
  }

  function Split(s: Space): seq<Space> {
    [Space(s.begin, SplitPoint(s)), Space(SplitPoint(s), s.end)]
  }

  /** On a range nothing wraps: the split point is the midpoint, and both halves are ranges. */
  lemma SplitPointIsMidpoint(s: Space, base: nat)
    requires IsRange(s)
    ensures CanSplit(s, base) <==> Length(s) > base
    ensures SplitPoint(s) == s.begin + Length(s) / 2
    ensures s.begin <= SplitPoint(s) <= s.end
    ensures CanSplit(s, base) && base >= 1 ==> s.begin < SplitPoint(s) < s.end
  {
    assert (s.end - s.begin) % SIZE_T == s.end - s.begin;
    var p := s.begin + Length(s) / 2;
    assert p <= s.end;
    assert p % SIZE_T == p;
  }

  /** Splitting the space over and over comes to an end within `depth` generations. */
  predicate Ends(s: Space, base: nat, depth: nat)
    decreases depth
  {
    !CanSplit(s, base) ||
    (depth > 0 && Ends(Split(s)[0], base, depth - 1) && Ends(Split(s)[1], base, depth - 1))
  }

  /** Splitting comes to an end at all. */
  ghost predicate Terminates(s: Space, base: nat) {
    exists depth: nat :: Ends(s, base, depth)
  }

  lemma {:induction false} EndsLater(s: Space, base: nat, depth: nat, later: nat)
    requires Ends(s, base, depth) && depth <= later
    ensures Ends(s, base, later)
    decreases depth
  {
    if CanSplit(s, base) {
      EndsLater(Split(s)[0], base, depth - 1, later - 1);
      EndsLater(Split(s)[1], base, depth - 1, later - 1);
    }
  }

  lemma {:induction false} PositiveBaseEnds(s: Space, base: nat)
    requires IsRange(s) && base >= 1
    ensures Ends(s, base, Length(s))
    decreases s.end - s.begin
  {
    SplitPointIsMidpoint(s, base);
    if CanSplit(s, base) {
      var left, right := Split(s)[0], Split(s)[1];
      PositiveBaseEnds(left, base);
      PositiveBaseEnds(right, base);
      EndsLater(left, base, Length(left), Length(s) - 1);
      EndsLater(right, base, Length(right), Length(s) - 1);
    }
  }

  /** With a base case of zero the right half of a nonempty range is again nonempty, for ever. */
  lemma {:induction false} ZeroBaseGoesOn(s: Space, depth: nat)
    requires IsRange(s) && Length(s) > 0
    ensures !Ends(s, 0, depth)
    decreases depth
  {
    SplitPointIsMidpoint(s, 0);
    if depth > 0 {
      ZeroBaseGoesOn(Split(s)[1], depth - 1);
    }
  }

  lemma EmptyEnds(s: Space, base: nat)
    requires IsRange(s) && Length(s) == 0
    ensures Terminates(s, base)
  {
    SplitPointIsMidpoint(s, base);
    var depth: nat := 0;
    assert Ends(s, base, depth);
  }

  /** Exactly when range splitting terminates: the base case is positive or there is nothing to split. */
  lemma SplittingEndsExactly(s: Space, base: nat)
    requires IsRange(s)
    ensures Terminates(s, base) <==> base >= 1 || Length(s) == 0
  {
    if base >= 1 {
      PositiveBaseEnds(s, base);
    } else if Length(s) == 0 {
      EmptyEnds(s, base);
    } else {
      forall depth: nat
        ensures !Ends(s, base, depth)
      {
        ZeroBaseGoesOn(s, depth);
      }
    }
  }

  /** The ranges on which the loop body is finally called, in order. */
  function Leaves(s: Space, base: nat): seq<Space>
    requires IsRange(s) && base >= 1
    decreases s.end - s.begin
  {
    SplitPointIsMidpoint(s, base);
    if CanSplit(s, base) then
      Leaves(Space(s.begin, SplitPoint(s)), base) + Leaves(Space(SplitPoint(s), s.end), base)
    else [s]
  }

  /** The leaves follow one another without gap or overlap from `begin` to `end`. */
  predicate Tiles(leaves: seq<Space>, begin: nat, end: nat) {
    if leaves == [] then begin == end
    else leaves[0].begin == begin <= leaves[0].end && Tiles(leaves[1..], leaves[0].end, end)
  }

  lemma {:induction false} TilesConcat(a: seq<Space>, b: seq<Space>, begin: nat, mid: nat, end: nat)
    requires Tiles(a, begin, mid) && Tiles(b, mid, end)
    ensures Tiles(a + b, begin, end)
    decreases |a|
  {
    if a == [] {
      assert a + b == b;
    } else {
      assert (a + b)[1..] == a[1..] + b;
      TilesConcat(a[1..], b, a[0].end, mid, end);
    }
  }

  /**
   The leaves partition the range, each has at most `base` elements, and once a split has happened each has at
   least half of `base`, rounded up.
   */
  lemma {:induction false} LeavesPartition(s: Space, base: nat)
    requires IsRange(s) && base >= 1
    ensures Tiles(Leaves(s, base), s.begin, s.end)
    ensures forall l :: l in Leaves(s, base) ==> s.begin <= l.begin <= l.end <= s.end && l.end - l.begin <= base
    ensures CanSplit(s, base) ==> forall l :: l in Leaves(s, base) ==> (base + 1) / 2 <= l.end - l.begin
    decreases s.end - s.begin
  {
    SplitPointIsMidpoint(s, base);
    if CanSplit(s, base) {
      var p := SplitPoint(s);
      var left, right := Space(s.begin, p), Space(p, s.end);
      LeavesPartition(left, base);
      LeavesPartition(right, base);
      TilesConcat(Leaves(left, base), Leaves(right, base), s.begin, p, s.end);
      SplitPointIsMidpoint(left, base);
      SplitPointIsMidpoint(right, base);
    } else {
      assert Tiles([s][1..], s.end, s.end);
    }
  }

  lemma {:induction false} TileCount(leaves: seq<Space>, begin: nat, end: nat, size: nat)
    requires Tiles(leaves, begin, end) && forall l :: l in leaves ==> l.begin + size <= l.end
    ensures begin + |leaves| * size <= end
    decreases |leaves|
  {
    if leaves != [] {
      TileCount(leaves[1..], leaves[0].end, end, size);
      assert |leaves| * size == size + |leaves[1..]| * size;
    }
  }

  /** So the number of leaves is at most the length divided by half the base case. */
  lemma LeafCountIsBounded(s: Space, base: nat)
    requires IsRange(s) && base >= 1 && CanSplit(s, base)
    ensures |Leaves(s, base)| <= Length(s) / ((base + 1) / 2)
  {
    LeavesPartition(s, base);
    var half := (base + 1) / 2;
    TileCount(Leaves(s, base), s.begin, s.end, half);
    DivideBound(|Leaves(s, base)|, half, Length(s));
  }

  lemma DivideBound(k: nat, d: nat, n: nat)
    requires d > 0 && k * d <= n
    ensures k <= n / d
  {
    var q := n / d;
    assert n < (q + 1) * d;
    assert k >= q + 1 ==> k * d >= (q + 1) * d;
  }

  // ---------------------------------------------------------------- the object and its call operator

  /** Leaves of spawned subspaces, the one spawned last first. */
  ghost function SpawnedLeaves(spawned: seq<Space>, base: nat): seq<Space>
    requires base >= 1 && forall s :: s in spawned ==> IsRange(s)
  {
    if spawned == [] then [] else SpawnedLeaves(spawned[1..], base) + Leaves(spawned[0], base)
  }

  class Loop {
    var space: Space
    const base: nat

    constructor (space: Space, base: nat)
      ensures this.space == space && this.base == base
    {
      this.space, this.base := space, base;
    }

    /**
     The call operator: overwrite the space by its left half, spawn the right half, and call again.
     It ends up at the leftmost leaf; that leaf and the leaves of what was spawned are all the leaves, in order.
     */
    method Call() returns (executed: Space, spawned: seq<Space>)
      requires IsRange(space) && base >= 1
      modifies this
      ensures executed == space && !CanSplit(space, base) && space.begin == old(space.begin)
      ensures forall s :: s in spawned ==> IsRange(s)
      ensures [executed] + SpawnedLeaves(spawned, base) == Leaves(old(space), base)
      decreases space.end - space.begin
    {
      SplitPointIsMidpoint(space, base);
      if CanSplit(space, base) {
        var subspaces := Split(space);
        space := subspaces[0];
        var more;
        executed, more := Call();
        spawned := subspaces[1..] + more;
        assert spawned[0] == subspaces[1] && spawned[1..] == more;
      } else {
        executed, spawned := space, [];
      }
    }
  }

  // ---------------------------------------------------------------- every schedule

  /** The memory operations of iterations `begin` to `end`, one after the other. */
  function SequentialLoop<L, V>(begin: nat, end: nat, body: nat -> seq<Act<L, V>>): seq<Act<L, V>>
    requires begin <= end
    decreases end - begin
  {
    if begin == end then [] else body(begin) + SequentialLoop(begin + 1, end, body)
  }

  /** The fork-join program of a parallel loop. */
  function For<L, V>(s: Space, base: nat, body: nat -> seq<Act<L, V>>): Program<L, V>
    requires IsRange(s) && base >= 1
    decreases s.end - s.begin
  {
    SplitPointIsMidpoint(s, base);
    if CanSplit(s, base) then
      Both(For(Space(s.begin, SplitPoint(s)), base, body), For(Space(SplitPoint(s), s.end), base, body))
    else ForkJoin.Do(SequentialLoop(s.begin, s.end, body))
  }

  lemma {:induction false} LoopConcat<L(!new), V(!new)>(begin: nat, mid: nat, end: nat, body: nat -> seq<Act<L, V>>)
    requires begin <= mid <= end
    ensures SequentialLoop(begin, mid, body) + SequentialLoop(mid, end, body) == SequentialLoop(begin, end, body)
    decreases mid - begin
  {
    if begin < mid {
      LoopConcat(begin + 1, mid, end, body);
      var x, y, z := body(begin), SequentialLoop(begin + 1, mid, body), SequentialLoop(mid, end, body);
      assert (x + y) + z == x + (y + z);
    } else {
      var z := SequentialLoop(mid, end, body);
      assert [] + z == z;
    }
  }

  /** Every iteration of the range is performed, in its place, between those before and those after it. */
  lemma EveryIterationInPlace<L(!new), V(!new)>(begin: nat, end: nat, body: nat -> seq<Act<L, V>>, i: nat)
    requires begin <= i < end
    ensures SequentialLoop(begin, end, body) ==
            SequentialLoop(begin, i, body) + body(i) + SequentialLoop(i + 1, end, body)
  {
    LoopConcat(begin, i, end, body);
    var x, y, z := SequentialLoop(begin, i, body), body(i), SequentialLoop(i + 1, end, body);
    assert x + (y + z) == x + y + z;
  }

  /** And nothing else: with one operation an iteration, the loop is the operations of begin to end - 1. */
  lemma {:induction false} LoopIsOneOperationEach<L(!new), V(!new)>(
    begin: nat, end: nat, body: nat -> seq<Act<L, V>>)
    requires begin <= end && forall i :: begin <= i < end ==> |body(i)| == 1
    ensures |SequentialLoop(begin, end, body)| == end - begin
    ensures forall k :: 0 <= k < end - begin ==> SequentialLoop(begin, end, body)[k] == body(begin + k)[0]
    decreases end - begin
  {
    if begin < end {
      LoopIsOneOperationEach(begin + 1, end, body);
      forall k | 0 <= k < end - begin
        ensures SequentialLoop(begin, end, body)[k] == body(begin + k)[0]
      {
        if k > 0 {
          assert SequentialLoop(begin, end, body)[k] == SequentialLoop(begin + 1, end, body)[k - 1];
          assert begin + k == begin + 1 + (k - 1);
        }
      }
    }
  }

  /** Serially, the parallel loop is the sequential loop. */
  lemma {:induction false} ForIsLoop<L(!new), V(!new)>(s: Space, base: nat, body: nat -> seq<Act<L, V>>)
    requires IsRange(s) && base >= 1
    ensures Serial(For(s, base, body)) == SequentialLoop(s.begin, s.end, body)
    decreases s.end - s.begin
  {
    SplitPointIsMidpoint(s, base);
    if CanSplit(s, base) {
      var p := SplitPoint(s);
      ForIsLoop(Space(s.begin, p), base, body);
      ForIsLoop(Space(p, s.end), base, body);
      LoopConcat(s.begin, p, s.end, body);
    }
  }

  lemma {:induction false} LoopMember<L(!new), V(!new)>(
    begin: nat, end: nat, body: nat -> seq<Act<L, V>>, x: Act<L, V>) returns (i: nat)
    requires begin <= end && x in SequentialLoop(begin, end, body)
    ensures begin <= i < end && x in body(i)
    decreases end - begin
  {
    if x in body(begin) {
      i := begin;
    } else {
      i := LoopMember(begin + 1, end, body, x);
    }
  }

  /** Iterations that do not interfere make the whole program race-free. */
  lemma {:induction false} ForIsRaceFree<L(!new), V(!new)>(s: Space, base: nat, body: nat -> seq<Act<L, V>>)
    requires IsRange(s) && base >= 1
    requires forall i, j :: s.begin <= i < j < s.end ==> AllIndependent(body(i), body(j))
    ensures RaceFree(For(s, base, body))
    decreases s.end - s.begin
  {
    SplitPointIsMidpoint(s, base);
    if CanSplit(s, base) {
      var p := SplitPoint(s);
      var left, right := Space(s.begin, p), Space(p, s.end);
      ForIsRaceFree(left, base, body);
      ForIsRaceFree(right, base, body);
      ForIsLoop(left, base, body);
      ForIsLoop(right, base, body);
      var a, b := SequentialLoop(s.begin, p, body), SequentialLoop(p, s.end, body);
      forall x, y | x in a && y in b
        ensures Independent(x, y)
      {
        var i := LoopMember(s.begin, p, body, x);
        var j := LoopMember(p, s.end, body, y);
        assert AllIndependent(body(i), body(j));
      }
    }
  }

  /**
   Whatever the schedule, each iteration is performed exactly as often as in the sequential loop, and if iterations do
   not interfere the final memory is that of the sequential loop.
   */
  lemma ParallelForIsSequentialLoop<L(!new), V(!new)>(
    s: Space, base: nat, body: nat -> seq<Act<L, V>>, tr: seq<Act<L, V>>, m: Memory<L, V>)
    requires IsRange(s) && base >= 1 && Total(m) && Trace(For(s, base, body), tr)
    ensures multiset(tr) == multiset(SequentialLoop(s.begin, s.end, body))
    ensures (forall i, j :: s.begin <= i < j < s.end ==> AllIndependent(body(i), body(j))) ==>
              Run(tr, m) == Run(SequentialLoop(s.begin, s.end, body), m)
  {
    ForIsLoop(s, base, body);
    TraceIsPermutation(For(s, base, body), tr);
    if forall i, j :: s.begin <= i < j < s.end ==> AllIndependent(body(i), body(j)) {
      ForIsRaceFree(s, base, body);
      EveryScheduleIsSerial(For(s, base, body), tr, m);
    }
  }
}
