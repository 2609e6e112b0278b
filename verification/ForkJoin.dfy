/**
 Fork-join programs over a shared memory, and why a schedule cannot be seen from outside.

 A program is a tree of sequential pieces, joined one after the other or side by side.  Its traces are all
 interleavings of its memory operations that respect the joins, a superset of what any scheduling of spawned tasks
 and waits can produce.  If pieces that run side by side never touch what the other one writes, every trace ends in the
 memory of the serial execution.
 */
module ForkJoin {

  /** One memory operation: `dst := f(src1, src2)`. */
  datatype Act<L, !V> = Act(dst: L, src1: L, src2: L, f: (V, V) -> V)

  datatype Program<L, !V> =
    | Do(acts: seq<Act<L, V>>)
    | Then(first: Program<L, V>, second: Program<L, V>)
    | Both(left: Program<L, V>, right: Program<L, V>)

  /** A memory has a value at every location. */
  type Memory<!L(!new), V> = imap<L, V>

  ghost predicate Total<L(!new), V(!new)>(m: Memory<L, V>) {
    forall l :: l in m
  }

  ghost function Exec<L(!new), V(!new)>(a: Act<L, V>, m: Memory<L, V>): (m': Memory<L, V>)
    requires Total(m)
    ensures Total(m')
  {
    m[a.dst := a.f(m[a.src1], m[a.src2])]
  }

  ghost function Run<L(!new), V(!new)>(tr: seq<Act<L, V>>, m: Memory<L, V>): (m': Memory<L, V>)
    requires Total(m)
    ensures Total(m')
  {
    if tr == [] then m else Run(tr[1..], Exec(tr[0], m))
  }

  /** `tr` is a shuffle of `a` and `b`. */
  ghost predicate Interleaves<L, V>(tr: seq<Act<L, V>>, a: seq<Act<L, V>>, b: seq<Act<L, V>>)
    decreases |tr|
  {
    if tr == [] then a == [] && b == []
    else
      || (a != [] && tr[0] == a[0] && Interleaves(tr[1..], a[1..], b))
      || (b != [] && tr[0] == b[0] && Interleaves(tr[1..], a, b[1..]))
  }

  /** Number of nodes, the termination measure of `Trace`. */
  ghost function Size<L, V>(p: Program<L, V>): (n: nat)
    ensures n > 0
  {
    match p
    case Do(_) => 1
    case Then(q, r) => 1 + Size(q) + Size(r)
    case Both(q, r) => 1 + Size(q) + Size(r)
  }

  ghost predicate InSequence<L(!new), V(!new)>(p: Program<L, V>, q: Program<L, V>, tr: seq<Act<L, V>>, k: nat)
    decreases Size(p) + Size(q)
  {
    k <= |tr| && Trace(p, tr[..k]) && Trace(q, tr[k..])
  }

  ghost predicate SideBySide<L(!new), V(!new)>(
    p: Program<L, V>, q: Program<L, V>, tr: seq<Act<L, V>>, a: seq<Act<L, V>>, b: seq<Act<L, V>>)
    decreases Size(p) + Size(q)
  {
    Trace(p, a) && Trace(q, b) && Interleaves(tr, a, b)
  }

  /** `tr` is a possible order of the memory operations of `p`. */
  ghost predicate Trace<L(!new), V(!new)>(p: Program<L, V>, tr: seq<Act<L, V>>)
    decreases Size(p)
  {
    match p
    case Do(acts) => tr == acts
    case Then(q, r) => exists k: nat :: InSequence(q, r, tr, k)
    case Both(q, r) => exists a, b :: SideBySide(q, r, tr, a, b)
  }

  /** The serial execution: left before right. */
  function Serial<L, V>(p: Program<L, V>): seq<Act<L, V>> {
    match p
    case Do(acts) => acts
    case Then(q, r) => Serial(q) + Serial(r)
    case Both(q, r) => Serial(q) + Serial(r)
  }

  ghost predicate Independent<L, V>(x: Act<L, V>, y: Act<L, V>) {
    && x.dst != y.dst && x.dst != y.src1 && x.dst != y.src2
    && y.dst != x.src1 && y.dst != x.src2
  }

  ghost predicate AllIndependent<L(!new), V(!new)>(a: seq<Act<L, V>>, b: seq<Act<L, V>>) {
    forall x, y :: x in a && y in b ==> Independent(x, y)
  }

  ghost predicate RaceFree<L(!new), V(!new)>(p: Program<L, V>) {
    match p
    case Do(_) => true
    case Then(q, r) => RaceFree(q) && RaceFree(r)
    case Both(q, r) => RaceFree(q) && RaceFree(r) && AllIndependent(Serial(q), Serial(r))
  }

  // ---------------------------------------------------------------- shuffles

  lemma {:induction false} RunConcat<L(!new), V(!new)>(a: seq<Act<L, V>>, b: seq<Act<L, V>>, m: Memory<L, V>)
    requires Total(m)
    ensures Run(a + b, m) == Run(b, Run(a, m))
  {
    if a == [] {
      assert a + b == b;
    } else {
      assert (a + b)[1..] == a[1..] + b;
      RunConcat(a[1..], b, Exec(a[0], m));
    }
  }

  lemma Commute<L(!new), V(!new)>(x: Act<L, V>, y: Act<L, V>, m: Memory<L, V>)
    requires Total(m) && Independent(x, y)
    ensures Exec(x, Exec(y, m)) == Exec(y, Exec(x, m))
  {
    var xy, yx := Exec(x, Exec(y, m)), Exec(y, Exec(x, m));
    assert forall l :: xy[l] == yx[l];
  }

  lemma {:induction false} MovePast<L(!new), V(!new)>(y: Act<L, V>, a: seq<Act<L, V>>, m: Memory<L, V>)
    requires Total(m) && forall x :: x in a ==> Independent(x, y)
    ensures Run(a, Exec(y, m)) == Exec(y, Run(a, m))
  {
    if a != [] {
      Commute(a[0], y, m);
      MovePast(y, a[1..], Exec(a[0], m));
    }
  }

  /** A shuffle of independent traces has the effect of one after the other. */
  lemma {:induction false} ShuffleIsSerial<L(!new), V(!new)>(
    tr: seq<Act<L, V>>, a: seq<Act<L, V>>, b: seq<Act<L, V>>, m: Memory<L, V>)
    requires Total(m) && Interleaves(tr, a, b) && AllIndependent(a, b)
    ensures Run(tr, m) == Run(b, Run(a, m))
    decreases |tr|
  {
    if tr != [] {
      if a != [] && tr[0] == a[0] && Interleaves(tr[1..], a[1..], b) {
        ShuffleIsSerial(tr[1..], a[1..], b, Exec(a[0], m));
      } else {
        ShuffleIsSerial(tr[1..], a, b[1..], Exec(b[0], m));
        MovePast(b[0], a, m);
      }
    }
  }

  lemma {:induction false} ShuffleBag<L(!new), V(!new)>(tr: seq<Act<L, V>>, a: seq<Act<L, V>>, b: seq<Act<L, V>>)
    requires Interleaves(tr, a, b)
    ensures multiset(tr) == multiset(a) + multiset(b)
    decreases |tr|
  {
    if tr != [] {
      assert tr == [tr[0]] + tr[1..];
      if a != [] && tr[0] == a[0] && Interleaves(tr[1..], a[1..], b) {
        assert a == [a[0]] + a[1..];
        ShuffleBag(tr[1..], a[1..], b);
      } else {
        assert b == [b[0]] + b[1..];
        ShuffleBag(tr[1..], a, b[1..]);
      }
    }
  }

  // ---------------------------------------------------------------- programs

  /** Every schedule performs the operations of the serial execution, each as often. */
  lemma {:induction false} TraceIsPermutation<L(!new), V(!new)>(p: Program<L, V>, tr: seq<Act<L, V>>)
    requires Trace(p, tr)
    ensures multiset(tr) == multiset(Serial(p))
    decreases p
  {
    match p {
      case Do(_) =>
      case Then(q, r) =>
        var k: nat :| InSequence(q, r, tr, k);
        TraceIsPermutation(q, tr[..k]);
        TraceIsPermutation(r, tr[k..]);
        assert tr == tr[..k] + tr[k..];
      case Both(q, r) =>
        var a, b :| SideBySide(q, r, tr, a, b);
        TraceIsPermutation(q, a);
        TraceIsPermutation(r, b);
        ShuffleBag(tr, a, b);
    }
  }

  /** Determinacy: a race-free program ends in the same memory under every schedule. */
  lemma {:induction false} EveryScheduleIsSerial<L(!new), V(!new)>(
    p: Program<L, V>, tr: seq<Act<L, V>>, m: Memory<L, V>)
    requires Total(m) && RaceFree(p) && Trace(p, tr)
    ensures Run(tr, m) == Run(Serial(p), m)
    decreases p
  {
    match p {
      case Do(_) =>
      case Then(q, r) =>
        var k: nat :| InSequence(q, r, tr, k);
        assert tr == tr[..k] + tr[k..];
        RunConcat(tr[..k], tr[k..], m);
        EveryScheduleIsSerial(q, tr[..k], m);
        EveryScheduleIsSerial(r, tr[k..], Run(tr[..k], m));
        RunConcat(Serial(q), Serial(r), m);
      case Both(q, r) =>
        var a, b :| SideBySide(q, r, tr, a, b);
        SideBySideIndependent(q, r, a, b);
        ShuffleIsSerial(tr, a, b, m);
        EveryScheduleIsSerial(q, a, m);
        EveryScheduleIsSerial(r, b, Run(a, m));
        RunConcat(Serial(q), Serial(r), m);
    }
  }

  lemma SideBySideIndependent<L(!new), V(!new)>(
    q: Program<L, V>, r: Program<L, V>, a: seq<Act<L, V>>, b: seq<Act<L, V>>)
    requires Trace(q, a) && Trace(r, b) && AllIndependent(Serial(q), Serial(r))
    ensures AllIndependent(a, b)
  {
    TraceIsPermutation(q, a);
    TraceIsPermutation(r, b);
    forall x, y | x in a && y in b
      ensures Independent(x, y)
    {
      assert x in multiset(a) && y in multiset(b);
      assert x in multiset(Serial(q)) && y in multiset(Serial(r));
    }
  }

  /** The serial execution is itself a possible schedule. */
  lemma {:induction false} SerialIsTrace<L(!new), V(!new)>(p: Program<L, V>)
    ensures Trace(p, Serial(p))
    decreases p
  {
    match p {
      case Do(_) =>
      case Then(q, r) =>
        SerialIsTrace(q);
        SerialIsTrace(r);
        var tr := Serial(q) + Serial(r);
        assert tr[..|Serial(q)|] == Serial(q) && tr[|Serial(q)|..] == Serial(r);
        assert InSequence(q, r, tr, |Serial(q)|);
      case Both(q, r) =>
        SerialIsTrace(q);
        SerialIsTrace(r);
        ConcatInterleaves(Serial(q), Serial(r));
        assert SideBySide(q, r, Serial(q) + Serial(r), Serial(q), Serial(r));
    }
  }

  lemma {:induction false} ConcatInterleaves<L(!new), V(!new)>(a: seq<Act<L, V>>, b: seq<Act<L, V>>)
    ensures Interleaves(a + b, a, b)
    decreases |a| + |b|
  {
    var tr := a + b;
    if a != [] {
      ConcatInterleaves(a[1..], b);
      assert tr[1..] == a[1..] + b;
    } else if b != [] {
      ConcatInterleaves(a, b[1..]);
      assert tr[1..] == a + b[1..];
    }
  }

  // ---------------------------------------------------------------- frames

  /** `a` reads and writes only locations in `region`. */
  ghost predicate Within<L(!new), V(!new)>(a: Act<L, V>, region: L -> bool) {
    region(a.dst) && region(a.src1) && region(a.src2)
  }

  ghost predicate AllWithin<L(!new), V(!new)>(tr: seq<Act<L, V>>, region: L -> bool) {
    forall x :: x in tr ==> Within(x, region)
  }

  /** What lies outside the region is left alone. */
  lemma {:induction false} RunFrame<L(!new), V(!new)>(tr: seq<Act<L, V>>, m: Memory<L, V>, region: L -> bool, l: L)
    requires Total(m) && AllWithin(tr, region) && !region(l)
    ensures Run(tr, m)[l] == m[l]
  {
    if tr != [] {
      assert Within(tr[0], region);
      assert forall x :: x in tr[1..] ==> x in tr;
      RunFrame(tr[1..], Exec(tr[0], m), region, l);
    }
  }

  lemma DisjointRegions<L(!new), V(!new)>(a: seq<Act<L, V>>, b: seq<Act<L, V>>, r: L -> bool, s: L -> bool)
    requires AllWithin(a, r) && AllWithin(b, s) && forall l :: !(r(l) && s(l))
    ensures AllIndependent(a, b)
  {
    forall x, y | x in a && y in b
      ensures Independent(x, y)
    {
      assert Within(x, r) && Within(y, s);
    }
  }

  lemma WithinWider<L(!new), V(!new)>(tr: seq<Act<L, V>>, r: L -> bool, s: L -> bool)
    requires AllWithin(tr, r) && forall l :: r(l) ==> s(l)
    ensures AllWithin(tr, s)
  {
    forall x | x in tr
      ensures Within(x, s)
    {
      assert Within(x, r);
    }
  }

  lemma WithinConcat<L(!new), V(!new)>(a: seq<Act<L, V>>, b: seq<Act<L, V>>, r: L -> bool)
    requires AllWithin(a, r) && AllWithin(b, r)
    ensures AllWithin(a + b, r)
  {
  }
}
