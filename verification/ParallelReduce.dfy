/**
 Parallel reduction (pfunc/parallel_reduce.hpp): the left half accumulates in place, every right half into an
 accumulator split off for it, and accumulators are joined in order after the wait.

 `op` is the functor's `join`, `unit` what its `split` starts from, and `element(i)` what the functor accumulates
 for index `i`.  Accumulators are named by the path to the call that owns them.
 */
module ParallelReduce {
  import opened ForkJoin
  import opened ParallelFor

  type Path = seq<bool>

  /** The sequential left-to-right fold. */
  function Fold<V>(op: (V, V) -> V, element: nat -> V, start: V, begin: nat, end: nat): V
    requires begin <= end
    decreases end - begin
  {
    if begin == end then start else op(Fold(op, element, start, begin, end - 1), element(end - 1))
  }

  function Accumulate<V>(op: (V, V) -> V, element: nat -> V, acc: Path, i: nat): Act<Path, V> {
    Act(acc, acc, acc, (x, _) => op(x, element(i)))
  }

  /** The functor called on a range: one accumulation per element. */
  function AccumulateRange<V>(op: (V, V) -> V, element: nat -> V, acc: Path, begin: nat, end: nat): seq<Act<Path, V>>
    requires begin <= end
    decreases end - begin
  {
    if begin == end then []
    else AccumulateRange(op, element, acc, begin, end - 1) + [Accumulate(op, element, acc, end - 1)]
  }

  /** `split`: a fresh accumulator. */
  function SplitOff<V>(unit: V, acc: Path, mine: Path): Act<Path, V> {
    Act(mine, acc, acc, (_, _) => unit)
  }

  /** `join`: the accumulator takes in one that was split off. */
  function JoinInto<V>(op: (V, V) -> V, acc: Path, mine: Path): Act<Path, V> {
    Act(acc, acc, mine, op)
  }

  /** The reduction of `s` into `acc` by the call at `path`. */
  function Reduce<V>(
    op: (V, V) -> V, unit: V, element: nat -> V, s: Space, base: nat, acc: Path, path: Path): Program<Path, V>
    requires IsRange(s) && base >= 1
    decreases s.end - s.begin
  {
    SplitPointIsMidpoint(s, base);
    if CanSplit(s, base) then
      var p, mine := SplitPoint(s), path + [true];
      Then(ForkJoin.Do([SplitOff(unit, acc, mine)]),
           Then(Both(Reduce(op, unit, element, Space(p, s.end), base, mine, mine),
                     Reduce(op, unit, element, Space(s.begin, p), base, acc, path + [false])),
                ForkJoin.Do([JoinInto(op, acc, mine)])))
    else ForkJoin.Do(AccumulateRange(op, element, acc, s.begin, s.end))
  }

  /** The accumulators the call at `path` may touch: its own and those split off below it. */
  predicate Uses(acc: Path, path: Path, l: Path) {
    l == acc || path < l
  }

  function Region(acc: Path, path: Path): Path -> bool {
    (l: Path) => Uses(acc, path, l)
  }

  ghost predicate Associative<V(!new)>(op: (V, V) -> V) {
    forall x, y, z :: op(op(x, y), z) == op(x, op(y, z))
  }

  ghost predicate LeftUnit<V(!new)>(op: (V, V) -> V, unit: V) {
    forall x :: op(unit, x) == x
  }

  // ---------------------------------------------------------------- folds

  /** Joining a fold that started from the unit is folding on. */
  lemma {:induction false} JoinContinuesFold<V(!new)>(
    op: (V, V) -> V, unit: V, element: nat -> V, x: V, begin: nat, end: nat)
    requires Associative(op) && LeftUnit(op, unit) && begin < end
    ensures op(x, Fold(op, element, unit, begin, end)) == Fold(op, element, x, begin, end)
    decreases end - begin
  {
    var e := element(end - 1);
    if begin < end - 1 {
      JoinContinuesFold(op, unit, element, x, begin, end - 1);
      var f := Fold(op, element, unit, begin, end - 1);
      assert op(op(x, f), e) == op(x, op(f, e));
    } else {
      assert Fold(op, element, unit, begin, begin) == unit;
      assert Fold(op, element, x, begin, begin) == x;
      assert op(unit, e) == e;
    }
  }

  lemma {:induction false} FoldSplits<V(!new)>(op: (V, V) -> V, element: nat -> V, x: V, begin: nat, mid: nat, end: nat)
    requires begin <= mid <= end
    ensures Fold(op, element, Fold(op, element, x, begin, mid), mid, end) == Fold(op, element, x, begin, end)
    decreases end - mid
  {
    if mid < end {
      FoldSplits(op, element, x, begin, mid, end - 1);
    }
  }

  // ---------------------------------------------------------------- footprints

  lemma SerialOfSplit<V(!new)>(op: (V, V) -> V, unit: V, element: nat -> V, s: Space, base: nat, acc: Path, path: Path)
    requires IsRange(s) && base >= 1 && CanSplit(s, base)
    ensures var p, mine := SplitPoint(s), path + [true];
            && s.begin < p < s.end
            && var right := Serial(Reduce(op, unit, element, Space(p, s.end), base, mine, mine));
               var left := Serial(Reduce(op, unit, element, Space(s.begin, p), base, acc, path + [false]));
               Serial(Reduce(op, unit, element, s, base, acc, path)) ==
                 [SplitOff(unit, acc, mine)] + (right + left + [JoinInto(op, acc, mine)])
  {
    SplitPointIsMidpoint(s, base);
    var p, mine := SplitPoint(s), path + [true];
    var r := Reduce(op, unit, element, Space(p, s.end), base, mine, mine);
    var l := Reduce(op, unit, element, Space(s.begin, p), base, acc, path + [false]);
    var start, join := ForkJoin.Do([SplitOff(unit, acc, mine)]), ForkJoin.Do([JoinInto(op, acc, mine)]);
    assert Reduce(op, unit, element, s, base, acc, path) == Then(start, Then(Both(r, l), join));
    assert Serial(Both(r, l)) == Serial(r) + Serial(l);
    assert Serial(Then(Both(r, l), join)) == Serial(Both(r, l)) + Serial(join);
  }

  lemma {:induction false} RangeStaysInside<V(!new)>(
    op: (V, V) -> V, element: nat -> V, acc: Path, path: Path, begin: nat, end: nat)
    requires begin <= end
    ensures AllWithin(AccumulateRange(op, element, acc, begin, end), Region(acc, path))
    decreases end - begin
  {
    if begin < end {
      RangeStaysInside(op, element, acc, path, begin, end - 1);
    }
  }

  lemma {:induction false} ReduceStaysInside<V(!new)>(
    op: (V, V) -> V, unit: V, element: nat -> V, s: Space, base: nat, acc: Path, path: Path)
    requires IsRange(s) && base >= 1
    ensures AllWithin(Serial(Reduce(op, unit, element, s, base, acc, path)), Region(acc, path))
    decreases s.end - s.begin
  {
    SplitPointIsMidpoint(s, base);
    if CanSplit(s, base) {
      var p, mine := SplitPoint(s), path + [true];
      var right := Serial(Reduce(op, unit, element, Space(p, s.end), base, mine, mine));
      var left := Serial(Reduce(op, unit, element, Space(s.begin, p), base, acc, path + [false]));
      ReduceStaysInside(op, unit, element, Space(p, s.end), base, mine, mine);
      ReduceStaysInside(op, unit, element, Space(s.begin, p), base, acc, path + [false]);
      WithinWider(right, Region(mine, mine), Region(acc, path));
      WithinWider(left, Region(acc, path + [false]), Region(acc, path));
      WithinConcat(right, left, Region(acc, path));
      var start, join := [SplitOff(unit, acc, mine)], [JoinInto(op, acc, mine)];
      WithinConcat(right + left, join, Region(acc, path));
      WithinConcat(start, right + left + join, Region(acc, path));
      SerialOfSplit(op, unit, element, s, base, acc, path);
    } else {
      RangeStaysInside(op, element, acc, path, s.begin, s.end);
    }
  }

  /** The two halves of a split use different accumulators. */
  lemma HalvesAreDisjoint(acc: Path, path: Path, l: Path)
    requires acc <= path
    ensures !(Uses(path + [true], path + [true], l) && Uses(acc, path + [false], l))
  {
    if Uses(path + [true], path + [true], l) {
      assert l[|path|] == true;
    }
    if path + [false] < l {
      assert l[|path|] == false;
    }
  }

  lemma {:induction false} ReduceIsRaceFree<V(!new)>(
    op: (V, V) -> V, unit: V, element: nat -> V, s: Space, base: nat, acc: Path, path: Path)
    requires IsRange(s) && base >= 1 && acc <= path
    ensures RaceFree(Reduce(op, unit, element, s, base, acc, path))
    decreases s.end - s.begin
  {
    SplitPointIsMidpoint(s, base);
    if CanSplit(s, base) {
      var p, mine := SplitPoint(s), path + [true];
      var right, left := Space(p, s.end), Space(s.begin, p);
      ReduceIsRaceFree(op, unit, element, right, base, mine, mine);
      ReduceIsRaceFree(op, unit, element, left, base, acc, path + [false]);
      ReduceStaysInside(op, unit, element, right, base, mine, mine);
      ReduceStaysInside(op, unit, element, left, base, acc, path + [false]);
      forall l: Path
        ensures !(Uses(mine, mine, l) && Uses(acc, path + [false], l))
      {
        HalvesAreDisjoint(acc, path, l);
      }
      DisjointRegions(Serial(Reduce(op, unit, element, right, base, mine, mine)),
                      Serial(Reduce(op, unit, element, left, base, acc, path + [false])),
                      Region(mine, mine), Region(acc, path + [false]));
    }
  }

  // ---------------------------------------------------------------- the result

  lemma {:induction false} RangeFolds<V(!new)>(
    op: (V, V) -> V, element: nat -> V, acc: Path, begin: nat, end: nat, m: Memory<Path, V>)
    requires begin <= end && Total(m)
    ensures Run(AccumulateRange(op, element, acc, begin, end), m)[acc] == Fold(op, element, m[acc], begin, end)
    decreases end - begin
  {
    if begin < end {
      var before, last := AccumulateRange(op, element, acc, begin, end - 1), [Accumulate(op, element, acc, end - 1)];
      RangeFolds(op, element, acc, begin, end - 1, m);
      RunConcat(before, last, m);
      var m1 := Run(before, m);
      assert Run(last, m1) == Run([], Exec(last[0], m1));
    }
  }

  /** One call on a range that is split: split off, run both halves, join. */
  lemma SplitCallRuns<V(!new)>(
    op: (V, V) -> V, unit: V, element: nat -> V, s: Space, base: nat, acc: Path, path: Path, m: Memory<Path, V>)
    returns (m1: Memory<Path, V>, m2: Memory<Path, V>, m3: Memory<Path, V>)
    requires IsRange(s) && base >= 1 && acc <= path && CanSplit(s, base) && Total(m)
    ensures var p, mine := SplitPoint(s), path + [true];
            && s.begin < p < s.end
            && Total(m1) && Total(m2) && Total(m3)
            && m1[mine] == unit && m1[acc] == m[acc]
            && m2 == Run(Serial(Reduce(op, unit, element, Space(p, s.end), base, mine, mine)), m1)
            && m3 == Run(Serial(Reduce(op, unit, element, Space(s.begin, p), base, acc, path + [false])), m2)
            && Run(Serial(Reduce(op, unit, element, s, base, acc, path)), m)[acc] == op(m3[acc], m3[mine])
  {
    SplitPointIsMidpoint(s, base);
    var p, mine := SplitPoint(s), path + [true];
    assert acc != mine by { assert |acc| <= |path| < |mine|; }
    var right := Serial(Reduce(op, unit, element, Space(p, s.end), base, mine, mine));
    var left := Serial(Reduce(op, unit, element, Space(s.begin, p), base, acc, path + [false]));
    var start, join := [SplitOff(unit, acc, mine)], [JoinInto(op, acc, mine)];
    m1 := Exec(start[0], m);
    m2 := Run(right, m1);
    m3 := Run(left, m2);
    assert Run(start, m) == Run([], m1) == m1;
    RunConcat(start, right + left + join, m);
    RunConcat(right + left, join, m1);
    RunConcat(right, left, m1);
    assert Run(join, m3) == Run([], Exec(join[0], m3));
    SerialOfSplit(op, unit, element, s, base, acc, path);
  }

  /** Serially, a reduction leaves the sequential fold in its accumulator. */
  lemma {:induction false} SerialReduceFolds<V(!new)>(
    op: (V, V) -> V, unit: V, element: nat -> V, s: Space, base: nat, acc: Path, path: Path, m: Memory<Path, V>)
    requires Associative(op) && LeftUnit(op, unit) && IsRange(s) && base >= 1 && acc <= path && Total(m)
    ensures Run(Serial(Reduce(op, unit, element, s, base, acc, path)), m)[acc] ==
              Fold(op, element, m[acc], s.begin, s.end)
    decreases s.end - s.begin
  {
    SplitPointIsMidpoint(s, base);
    if CanSplit(s, base) {
      var p, mine := SplitPoint(s), path + [true];
      var right, left := Space(p, s.end), Space(s.begin, p);
      var m1, m2, m3 := SplitCallRuns(op, unit, element, s, base, acc, path, m);
      SerialReduceFolds(op, unit, element, right, base, mine, mine, m1);
      SerialReduceFolds(op, unit, element, left, base, acc, path + [false], m2);
      ReduceStaysInside(op, unit, element, right, base, mine, mine);
      ReduceStaysInside(op, unit, element, left, base, acc, path + [false]);
      HalvesAreDisjoint(acc, path, acc);
      HalvesAreDisjoint(acc, path, mine);
      RunFrame(Serial(Reduce(op, unit, element, right, base, mine, mine)), m1, Region(mine, mine), acc);
      RunFrame(Serial(Reduce(op, unit, element, left, base, acc, path + [false])), m2,
               Region(acc, path + [false]), mine);
      JoinContinuesFold(op, unit, element, m3[acc], p, s.end);
      FoldSplits(op, element, m[acc], s.begin, p, s.end);
    } else {
      RangeFolds(op, element, acc, s.begin, s.end, m);
    }
  }

  /**
   Under every schedule the reduction is the sequential left-to-right fold.  Associativity of the join and a left unit
   from the split are all it takes; commutativity is not needed.
   */
  lemma ParallelReduceIsFold<V(!new)>(
    op: (V, V) -> V, unit: V, element: nat -> V, s: Space, base: nat, tr: seq<Act<Path, V>>, m: Memory<Path, V>)
    requires Associative(op) && LeftUnit(op, unit) && IsRange(s) && base >= 1 && Total(m)
    requires Trace(Reduce(op, unit, element, s, base, [], []), tr)
    ensures Run(tr, m)[[]] == Fold(op, element, m[[]], s.begin, s.end)
  {
    ReduceIsRaceFree(op, unit, element, s, base, [], []);
    EveryScheduleIsSerial(Reduce(op, unit, element, s, base, [], []), tr, m);
    SerialReduceFolds(op, unit, element, s, base, [], [], m);
  }

  // ---------------------------------------------------------------- which elements, and in which order

  function Append(): (seq<nat>, seq<nat>) -> seq<nat> {
    (x, y) => x + y
  }

  function Single(): nat -> seq<nat> {
    (i: nat) => [i]
  }

  /** The indices from `begin` to `end - 1`, in order. */
  function Indices(begin: nat, end: nat): seq<nat>
    requires begin <= end
  {
    seq(end - begin, k requires 0 <= k < end - begin => begin + k)
  }

  lemma {:induction false} FoldListsIndices(x: seq<nat>, begin: nat, end: nat)
    requires begin <= end
    ensures Fold(Append(), Single(), x, begin, end) == x + Indices(begin, end)
    decreases end - begin
  {
    if begin < end {
      FoldListsIndices(x, begin, end - 1);
      assert Indices(begin, end) == Indices(begin, end - 1) + [end - 1];
      assert x + Indices(begin, end - 1) + [end - 1] == x + Indices(begin, end);
    }
  }

  /**
   Reducing the lists of single indices by appending gives the list of all indices: under every schedule each element of
   the range is used once, in order, and nothing else.
   */
  lemma EveryScheduleUsesEachElementOnce(s: Space, base: nat, tr: seq<Act<Path, seq<nat>>>, m: Memory<Path, seq<nat>>)
    requires IsRange(s) && base >= 1 && Total(m)
    requires Trace(Reduce(Append(), [], Single(), s, base, [], []), tr)
    ensures Run(tr, m)[[]] == m[[]] + Indices(s.begin, s.end)
  {
    assert Associative(Append()) by {
      forall x: seq<nat>, y: seq<nat>, z: seq<nat>
        ensures Append()(Append()(x, y), z) == Append()(x, Append()(y, z))
      {
        assert (x + y) + z == x + (y + z);
      }
    }
    assert LeftUnit(Append(), []) by {
      forall x: seq<nat>
        ensures Append()([], x) == x
      {
        assert [] + x == x;
      }
    }
    ParallelReduceIsFold(Append(), [], Single(), s, base, tr, m);
    FoldListsIndices(m[[]], s.begin, s.end);
  }
}
