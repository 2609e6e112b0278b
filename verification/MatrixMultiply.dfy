/**
 Divide-and-conquer matrix multiplication with tasks (examples/cxx/matmult.cpp).

 `C(i,j) += sum` is two memory operations, a load into a register of the running call and a store, so calls that ran
 side by side on the same element would lose updates.  Calls are named by the path of quadrants leading to them.
 */
module MatrixMultiply {
  import opened ForkJoin
  import opened MatrixViews

  datatype Loc = Cell(x: nat) | Register(path: seq<nat>, x: nat)

  function AddTo(sum: real): (real, real) -> real {
    (c, _) => c + sum
  }

  function Copy(): (real, real) -> real {
    (t, _) => t
  }

  function Update(path: seq<nat>, x: nat, sum: real): seq<Act<Loc, real>> {
    [Act(Register(path, x), Cell(x), Cell(x), AddTo(sum)), Act(Cell(x), Register(path, x), Register(path, x), Copy())]
  }

  /** The first `n` elements of row `i`. */
  function RowActs(
    a: Vector, va: View, b: Vector, vb: View, vc: View, path: seq<nat>, i: nat, n: nat): seq<Act<Loc, real>> {
    if n == 0 then []
    else RowActs(a, va, b, vb, vc, path, i, n - 1) +
         Update(path, Index(vc, i, n - 1), Dot(a, va, b, vb, i, n - 1, va.dim))
  }

  /** The first `n` rows of the base case. */
  function KernelActs(a: Vector, va: View, b: Vector, vb: View, vc: View, path: seq<nat>, n: nat): seq<Act<Loc, real>> {
    if n == 0 then []
    else KernelActs(a, va, b, vb, vc, path, n - 1) + RowActs(a, va, b, vb, vc, path, n - 1, vc.dim)
  }

  /**
   The quadrant operations of one phase: quadrant (lower, right) of C takes in quadrant (lower, second) of A times
   quadrant (second, right) of B.  Three are spawned, the fourth runs on the calling thread, then all are waited for.
   */
  function Phase(
    a: Vector, va: View, b: Vector, vb: View, vc: View, base: nat, path: seq<nat>, second: bool): Program<Loc, real>
    requires va.dim == vb.dim == vc.dim > base
    decreases va.dim, 0
  {
    Both(Sub(a, va, b, vb, vc, base, path, second, false, false),
         Both(Sub(a, va, b, vb, vc, base, path, second, false, true),
              Both(Sub(a, va, b, vb, vc, base, path, second, true, false),
                   Sub(a, va, b, vb, vc, base, path, second, true, true))))
  }

  function Sub(
    a: Vector, va: View, b: Vector, vb: View, vc: View, base: nat, path: seq<nat>, second: bool, lower: bool,
    right: bool): Program<Loc, real>
    requires va.dim == vb.dim == vc.dim > base
    decreases va.dim / 2, 2
  {
    Multiply(a, Quadrant(va, lower, second), b, Quadrant(vb, second, right), Quadrant(vc, lower, right), base,
             path + [Number(lower, right) + if second then 4 else 0])
  }

  /** `dgemm_op`. */
  function Multiply(a: Vector, va: View, b: Vector, vb: View, vc: View, base: nat, path: seq<nat>): Program<Loc, real>
    requires va.dim == vb.dim == vc.dim
    decreases va.dim, 1
  {
    if va.dim <= base then ForkJoin.Do(KernelActs(a, va, b, vb, vc, path, vc.dim))
    else Then(Phase(a, va, b, vb, vc, base, path, false), Phase(a, va, b, vb, vc, base, path, true))
  }

  /** Position within its half of position `k`. */
  function Offset(half: nat, k: nat): nat {
    if k >= half then k - half else k
  }

  /** What the calls add to element (i, j): the products that the halved dimensions reach. */
  function Added(a: Vector, va: View, b: Vector, vb: View, base: nat, i: nat, j: nat): real
    decreases va.dim, 0
  {
    var half := va.dim / 2;
    if va.dim <= base then Dot(a, va, b, vb, i, j, va.dim)
    else if i >= 2 * half || j >= 2 * half then 0.0
    else
      AddedBy(a, va, b, vb, base, false, i >= half, j >= half, Offset(half, i), Offset(half, j)) +
      AddedBy(a, va, b, vb, base, true, i >= half, j >= half, Offset(half, i), Offset(half, j))
  }

  /** What one quadrant operation adds to element (i, j) of its quadrant. */
  function AddedBy(
    a: Vector, va: View, b: Vector, vb: View, base: nat, second: bool, lower: bool, right: bool, i: nat, j: nat): real
    requires va.dim > base
    decreases va.dim / 2, 1
  {
    Added(a, Quadrant(va, lower, second), b, Quadrant(vb, second, right), base, i, j)
  }

  // ---------------------------------------------------------------- footprints

  ghost function Region(v: View): Loc -> bool {
    (l: Loc) => InView(v, l.x)
  }

  lemma {:induction false} RowStaysInside(
    a: Vector, va: View, b: Vector, vb: View, vc: View, path: seq<nat>, i: nat, n: nat)
    requires i < vc.dim && n <= vc.dim
    ensures AllWithin(RowActs(a, va, b, vb, vc, path, i, n), Region(vc))
  {
    if n > 0 {
      RowStaysInside(a, va, b, vb, vc, path, i, n - 1);
      assert InView(vc, Index(vc, i, n - 1));
    }
  }

  lemma {:induction false} KernelStaysInside(a: Vector, va: View, b: Vector, vb: View, vc: View, path: seq<nat>, n: nat)
    requires n <= vc.dim
    ensures AllWithin(KernelActs(a, va, b, vb, vc, path, n), Region(vc))
  {
    if n > 0 {
      KernelStaysInside(a, va, b, vb, vc, path, n - 1);
      RowStaysInside(a, va, b, vb, vc, path, n - 1, vc.dim);
    }
  }

  lemma QuadrantRegion(v: View, lower: bool, right: bool)
    ensures forall l :: Region(Quadrant(v, lower, right))(l) ==> Region(v)(l)
  {
    forall l | Region(Quadrant(v, lower, right))(l)
      ensures Region(v)(l)
    {
      var _, _ := InQuadrant(v, lower, right, l.x);
    }
  }

  lemma {:induction false} MultiplyStaysInside(
    a: Vector, va: View, b: Vector, vb: View, vc: View, base: nat, path: seq<nat>)
    requires va.dim == vb.dim == vc.dim
    ensures AllWithin(Serial(Multiply(a, va, b, vb, vc, base, path)), Region(vc))
    decreases va.dim, 1
  {
    if va.dim <= base {
      KernelStaysInside(a, va, b, vb, vc, path, vc.dim);
    } else {
      PhaseStaysInside(a, va, b, vb, vc, base, path, false);
      PhaseStaysInside(a, va, b, vb, vc, base, path, true);
    }
  }

  lemma {:induction false} SubStaysInside(
    a: Vector, va: View, b: Vector, vb: View, vc: View, base: nat, path: seq<nat>, second: bool, lower: bool,
    right: bool)
    requires va.dim == vb.dim == vc.dim > base
    ensures var s := Serial(Sub(a, va, b, vb, vc, base, path, second, lower, right));
            AllWithin(s, Region(Quadrant(vc, lower, right))) && AllWithin(s, Region(vc))
    decreases va.dim / 2, 2
  {
    var s := Sub(a, va, b, vb, vc, base, path, second, lower, right);
    MultiplyStaysInside(a, Quadrant(va, lower, second), b, Quadrant(vb, second, right), Quadrant(vc, lower, right),
                        base,
                        path + [Number(lower, right) + if second then 4 else 0]);
    QuadrantRegion(vc, lower, right);
    WithinWider(Serial(s), Region(Quadrant(vc, lower, right)), Region(vc));
  }

  lemma SerialOfPhase(a: Vector, va: View, b: Vector, vb: View, vc: View, base: nat, path: seq<nat>, second: bool)
    requires va.dim == vb.dim == vc.dim > base
    ensures Serial(Phase(a, va, b, vb, vc, base, path, second)) ==
            Serial(Sub(a, va, b, vb, vc, base, path, second, false, false)) +
            (Serial(Sub(a, va, b, vb, vc, base, path, second, false, true)) +
             (Serial(Sub(a, va, b, vb, vc, base, path, second, true, false)) +
              Serial(Sub(a, va, b, vb, vc, base, path, second, true, true))))
  {
    var s2 := Sub(a, va, b, vb, vc, base, path, second, false, true);
    var s3 := Sub(a, va, b, vb, vc, base, path, second, true, false);
    var s4 := Sub(a, va, b, vb, vc, base, path, second, true, true);
    assert Serial(Both(s3, s4)) == Serial(s3) + Serial(s4);
    assert Serial(Both(s2, Both(s3, s4))) == Serial(s2) + Serial(Both(s3, s4));
  }

  lemma {:induction false} PhaseStaysInside(
    a: Vector, va: View, b: Vector, vb: View, vc: View, base: nat, path: seq<nat>, second: bool)
    requires va.dim == vb.dim == vc.dim > base
    ensures AllWithin(Serial(Phase(a, va, b, vb, vc, base, path, second)), Region(vc))
    decreases va.dim, 0
  {
    SubStaysInside(a, va, b, vb, vc, base, path, second, false, false);
    SubStaysInside(a, va, b, vb, vc, base, path, second, false, true);
    SubStaysInside(a, va, b, vb, vc, base, path, second, true, false);
    SubStaysInside(a, va, b, vb, vc, base, path, second, true, true);
    SerialOfPhase(a, va, b, vb, vc, base, path, second);
  }

  /** Two quadrant operations of a phase never meet. */
  lemma SubsAreIndependent(
    a: Vector, va: View, b: Vector, vb: View, vc: View, base: nat, path: seq<nat>, second: bool,
    lower: bool, right: bool, lower': bool, right': bool)
    requires va.dim == vb.dim == vc.dim > base && Proper(vc) && (lower, right) != (lower', right')
    ensures AllIndependent(Serial(Sub(a, va, b, vb, vc, base, path, second, lower, right)),
                           Serial(Sub(a, va, b, vb, vc, base, path, second, lower', right')))
  {
    SubStaysInside(a, va, b, vb, vc, base, path, second, lower, right);
    SubStaysInside(a, va, b, vb, vc, base, path, second, lower', right');
    var r, s := Region(Quadrant(vc, lower, right)), Region(Quadrant(vc, lower', right'));
    forall l: Loc
      ensures !(r(l) && s(l))
    {
      if r(l) {
        QuadrantsAreDisjoint(vc, lower, right, lower', right', l.x);
      }
    }
    DisjointRegions(Serial(Sub(a, va, b, vb, vc, base, path, second, lower, right)),
                    Serial(Sub(a, va, b, vb, vc, base, path, second, lower', right')), r, s);
  }

  lemma IndependentOfTwo<L(!new), V(!new)>(x: seq<Act<L, V>>, y: seq<Act<L, V>>, z: seq<Act<L, V>>)
    requires AllIndependent(x, y) && AllIndependent(x, z)
    ensures AllIndependent(x, y + z)
  {
  }

  lemma {:induction false} PhaseIsRaceFree(
    a: Vector, va: View, b: Vector, vb: View, vc: View, base: nat, path: seq<nat>, second: bool)
    requires va.dim == vb.dim == vc.dim > base && Proper(vc)
    ensures RaceFree(Phase(a, va, b, vb, vc, base, path, second))
    decreases va.dim, 0
  {
    var s1 := Sub(a, va, b, vb, vc, base, path, second, false, false);
    var s2 := Sub(a, va, b, vb, vc, base, path, second, false, true);
    var s3 := Sub(a, va, b, vb, vc, base, path, second, true, false);
    var s4 := Sub(a, va, b, vb, vc, base, path, second, true, true);
    SubIsRaceFree(a, va, b, vb, vc, base, path, second, false, false);
    SubIsRaceFree(a, va, b, vb, vc, base, path, second, false, true);
    SubIsRaceFree(a, va, b, vb, vc, base, path, second, true, false);
    SubIsRaceFree(a, va, b, vb, vc, base, path, second, true, true);
    SubsAreIndependent(a, va, b, vb, vc, base, path, second, true, false, true, true);
    SubsAreIndependent(a, va, b, vb, vc, base, path, second, false, true, true, false);
    SubsAreIndependent(a, va, b, vb, vc, base, path, second, false, true, true, true);
    SubsAreIndependent(a, va, b, vb, vc, base, path, second, false, false, false, true);
    SubsAreIndependent(a, va, b, vb, vc, base, path, second, false, false, true, false);
    SubsAreIndependent(a, va, b, vb, vc, base, path, second, false, false, true, true);
    IndependentOfTwo(Serial(s2), Serial(s3), Serial(s4));
    IndependentOfTwo(Serial(s1), Serial(s3), Serial(s4));
    IndependentOfTwo(Serial(s1), Serial(s2), Serial(s3) + Serial(s4));
    assert RaceFree(Both(s3, s4));
    assert Serial(Both(s3, s4)) == Serial(s3) + Serial(s4);
    assert RaceFree(Both(s2, Both(s3, s4)));
    assert Serial(Both(s2, Both(s3, s4))) == Serial(s2) + (Serial(s3) + Serial(s4));
  }

  lemma {:induction false} SubIsRaceFree(
    a: Vector, va: View, b: Vector, vb: View, vc: View, base: nat, path: seq<nat>, second: bool, lower: bool,
    right: bool)
    requires va.dim == vb.dim == vc.dim > base && Proper(vc)
    ensures RaceFree(Sub(a, va, b, vb, vc, base, path, second, lower, right))
    decreases va.dim / 2, 2
  {
    MultiplyIsRaceFree(a, Quadrant(va, lower, second), b, Quadrant(vb, second, right), Quadrant(vc, lower, right), base,
                       path + [Number(lower, right) + if second then 4 else 0]);
  }

  lemma {:induction false} MultiplyIsRaceFree(
    a: Vector, va: View, b: Vector, vb: View, vc: View, base: nat, path: seq<nat>)
    requires va.dim == vb.dim == vc.dim && Proper(vc)
    ensures RaceFree(Multiply(a, va, b, vb, vc, base, path))
    decreases va.dim, 1
  {
    if va.dim > base {
      PhaseIsRaceFree(a, va, b, vb, vc, base, path, false);
      PhaseIsRaceFree(a, va, b, vb, vc, base, path, true);
    }
  }

  // ---------------------------------------------------------------- effects

  ghost predicate Effect(
    a: Vector, va: View, b: Vector, vb: View, vc: View, base: nat, m: Memory<Loc, real>, m': Memory<Loc, real>)
    requires Total(m) && Total(m')
  {
    && (forall i: nat, j: nat {:trigger m'[Cell(Index(vc, i, j))]} :: i < vc.dim && j < vc.dim ==>
          m'[Cell(Index(vc, i, j))] == m[Cell(Index(vc, i, j))] + Added(a, va, b, vb, base, i, j))
    && (forall x: nat {:trigger m'[Cell(x)]} :: !InView(vc, x) ==> m'[Cell(x)] == m[Cell(x)])
  }

  lemma UpdateEffect(path: seq<nat>, x: nat, sum: real, m: Memory<Loc, real>)
    requires Total(m)
    ensures var m' := Run(Update(path, x, sum), m);
            && m'[Cell(x)] == m[Cell(x)] + sum
            && forall y: nat {:trigger m'[Cell(y)]} :: y != x ==> m'[Cell(y)] == m[Cell(y)]
  {
    var u := Update(path, x, sum);
    var m1 := Exec(u[0], m);
    var m2 := Exec(u[1], m1);
    assert u[1..] == [u[1]] && u[1..][1..] == [];
    assert Run(u[1..], m1) == Run(u[1..][1..], m2) == m2;
  }

  /** Row `i` has its first `n` elements updated, and no cell outside the row changed. */
  ghost predicate RowUpdated(
    a: Vector, va: View, b: Vector, vb: View, vc: View, i: nat, n: nat, m: Memory<Loc, real>, m': Memory<Loc, real>)
    requires Total(m) && Total(m')
  {
    && (forall j: nat {:trigger m'[Cell(Index(vc, i, j))]} :: j < vc.dim ==>
          m'[Cell(Index(vc, i, j))] ==
              m[Cell(Index(vc, i, j))] + if j < n then Dot(a, va, b, vb, i, j, va.dim) else 0.0)
    && (forall x: nat {:trigger m'[Cell(x)]} :: (forall j: nat :: j < vc.dim ==> x != Index(vc, i, j)) ==>
          m'[Cell(x)] == m[Cell(x)])
  }

  lemma {:induction false} RowEffect(
    a: Vector, va: View, b: Vector, vb: View, vc: View, path: seq<nat>, i: nat, n: nat, m: Memory<Loc, real>)
    requires Proper(vc) && i < vc.dim && n <= vc.dim && Total(m)
    ensures RowUpdated(a, va, b, vb, vc, i, n, m, Run(RowActs(a, va, b, vb, vc, path, i, n), m))
  {
    if n > 0 {
      var before := RowActs(a, va, b, vb, vc, path, i, n - 1);
      var x, sum := Index(vc, i, n - 1), Dot(a, va, b, vb, i, n - 1, va.dim);
      RowEffect(a, va, b, vb, vc, path, i, n - 1, m);
      RunConcat(before, Update(path, x, sum), m);
      UpdateEffect(path, x, sum, Run(before, m));
    }
  }

  /** A cell of another row is not in row `r`. */
  lemma OtherRow(v: View, r: nat, i: nat, j: nat)
    requires Proper(v) && i != r && j < v.dim
    ensures forall k: nat :: k < v.dim ==> Index(v, i, j) != Index(v, r, k)
  {
    forall k: nat | k < v.dim
      ensures Index(v, i, j) != Index(v, r, k)
    {
      if Index(v, i, j) == Index(v, r, k) {
        IndexIsInjective(v, i, j, r, k);
      }
    }
  }

  /** The first `n` rows are updated, and no cell outside the view changed. */
  ghost predicate RowsUpdated(
    a: Vector, va: View, b: Vector, vb: View, vc: View, n: nat, m: Memory<Loc, real>, m': Memory<Loc, real>)
    requires Total(m) && Total(m')
  {
    && (forall i: nat, j: nat {:trigger m'[Cell(Index(vc, i, j))]} :: i < vc.dim && j < vc.dim ==>
          m'[Cell(Index(vc, i, j))] ==
              m[Cell(Index(vc, i, j))] + if i < n then Dot(a, va, b, vb, i, j, va.dim) else 0.0)
    && (forall x: nat {:trigger m'[Cell(x)]} :: !InView(vc, x) ==> m'[Cell(x)] == m[Cell(x)])
  }

  lemma OneMoreRow(
    a: Vector, va: View, b: Vector, vb: View, vc: View, n: nat,
    m: Memory<Loc, real>, m1: Memory<Loc, real>, m': Memory<Loc, real>)
    requires Proper(vc) && n < vc.dim && Total(m) && Total(m1) && Total(m')
    requires RowsUpdated(a, va, b, vb, vc, n, m, m1) && RowUpdated(a, va, b, vb, vc, n, vc.dim, m1, m')
    ensures RowsUpdated(a, va, b, vb, vc, n + 1, m, m')
  {
    forall i: nat, j: nat {:trigger Index(vc, i, j)} | i < vc.dim && j < vc.dim
      ensures m'[Cell(Index(vc, i, j))] ==
                m[Cell(Index(vc, i, j))] + if i < n + 1 then Dot(a, va, b, vb, i, j, va.dim) else 0.0
    {
      if i != n {
        OtherRow(vc, n, i, j);
        assert m'[Cell(Index(vc, i, j))] == m1[Cell(Index(vc, i, j))];
      }
    }
    forall x: nat {:trigger Cell(x)} | !InView(vc, x)
      ensures m'[Cell(x)] == m[Cell(x)]
    {
      assert forall j: nat :: j < vc.dim ==> x != Index(vc, n, j);
      assert m'[Cell(x)] == m1[Cell(x)];
    }
  }

  lemma KernelStep(
    a: Vector, va: View, b: Vector, vb: View, vc: View, path: seq<nat>, n: nat, m: Memory<Loc, real>,
    m1: Memory<Loc, real>)
    returns (m2: Memory<Loc, real>)
    requires Proper(vc) && n < vc.dim && Total(m) && Total(m1) && RowsUpdated(a, va, b, vb, vc, n, m, m1)
    ensures m2 == Run(RowActs(a, va, b, vb, vc, path, n, vc.dim), m1)
    ensures Total(m2) && RowsUpdated(a, va, b, vb, vc, n + 1, m, m2)
  {
    RowEffect(a, va, b, vb, vc, path, n, vc.dim, m1);
    m2 := Run(RowActs(a, va, b, vb, vc, path, n, vc.dim), m1);
    OneMoreRow(a, va, b, vb, vc, n, m, m1, m2);
  }

  lemma KernelConcat(
    a: Vector, va: View, b: Vector, vb: View, vc: View, path: seq<nat>, n: nat, m: Memory<Loc, real>)
    requires n > 0 && Total(m)
    ensures Run(KernelActs(a, va, b, vb, vc, path, n), m) ==
            Run(RowActs(a, va, b, vb, vc, path, n - 1, vc.dim), Run(KernelActs(a, va, b, vb, vc, path, n - 1), m))
  {
    RunConcat(KernelActs(a, va, b, vb, vc, path, n - 1), RowActs(a, va, b, vb, vc, path, n - 1, vc.dim), m);
  }

  lemma {:induction false} KernelEffect(
    a: Vector, va: View, b: Vector, vb: View, vc: View, path: seq<nat>, n: nat, m: Memory<Loc, real>)
    returns (m': Memory<Loc, real>)
    requires Proper(vc) && n <= vc.dim && Total(m)
    ensures m' == Run(KernelActs(a, va, b, vb, vc, path, n), m)
    ensures Total(m') && RowsUpdated(a, va, b, vb, vc, n, m, m')
  {
    if n == 0 {
      m' := m;
    } else {
      var m1 := KernelEffect(a, va, b, vb, vc, path, n - 1, m);
      m' := KernelStep(a, va, b, vb, vc, path, n - 1, m, m1);
      KernelConcat(a, va, b, vb, vc, path, n, m);
    }
  }

  /** The cells of memory hold the array `c`. */
  ghost predicate Holds(m: Memory<Loc, real>, c: seq<real>)
    requires Total(m)
  {
    forall x :: 0 <= x < |c| ==> m[Cell(x)] == c[x]
  }

  /**
   The base case as a task performs the three-loop product: memory ends up holding what the loops leave in C's array.
   */
  lemma KernelIsThreeLoopProduct(
    a: seq<real>, va: View, b: seq<real>, vb: View, vc: View, path: seq<nat>,
    before: seq<real>, after: seq<real>, m: Memory<Loc, real>)
    requires Proper(vc) && Total(m) && Holds(m, before) && AddsProduct(a, va, b, vb, vc, before, after)
    ensures Holds(Run(KernelActs(Contents(a), va, Contents(b), vb, vc, path, vc.dim), m), after)
  {
    var m' := KernelEffect(Contents(a), va, Contents(b), vb, vc, path, vc.dim, m);
    forall x | 0 <= x < |after|
      ensures m'[Cell(x)] == after[x]
    {
      SameCell(a, va, b, vb, vc, before, after, m, m', x);
    }
  }

  lemma SameCell(
    a: seq<real>, va: View, b: seq<real>, vb: View, vc: View, before: seq<real>, after: seq<real>,
    m: Memory<Loc, real>, m': Memory<Loc, real>, x: nat)
    requires Total(m) && Total(m') && Holds(m, before) && AddsProduct(a, va, b, vb, vc, before, after) && x < |after|
    requires RowsUpdated(Contents(a), va, Contents(b), vb, vc, vc.dim, m, m')
    ensures m'[Cell(x)] == after[x]
  {
    if InView(vc, x) {
      var i: nat, j: nat :| i < vc.dim && j < vc.dim && x == Index(vc, i, j);
      assert m'[Cell(Index(vc, i, j))] ==
          m[Cell(Index(vc, i, j))] + Dot(Contents(a), va, Contents(b), vb, i, j, va.dim);
    } else {
      assert m'[Cell(x)] == m[Cell(x)];
    }
  }

  /** A quadrant operation takes memory `m` to `m'`. */
  ghost predicate SubEffect(
    a: Vector, va: View, b: Vector, vb: View, vc: View, base: nat, second: bool, lower: bool, right: bool,
    m: Memory<Loc, real>, m': Memory<Loc, real>)
    requires Total(m) && Total(m')
  {
    Effect(a, Quadrant(va, lower, second), b, Quadrant(vb, second, right), Quadrant(vc, lower, right), base, m, m')
  }

  /** The four quadrant operations of a phase, one after the other. */
  ghost predicate PhaseSteps(
    a: Vector, va: View, b: Vector, vb: View, vc: View, base: nat, second: bool,
    m0: Memory<Loc, real>, m1: Memory<Loc, real>, m2: Memory<Loc, real>, m3: Memory<Loc, real>, m4: Memory<Loc, real>)
  {
    && Total(m0) && Total(m1) && Total(m2) && Total(m3) && Total(m4)
    && SubEffect(a, va, b, vb, vc, base, second, false, false, m0, m1)
    && SubEffect(a, va, b, vb, vc, base, second, false, true, m1, m2)
    && SubEffect(a, va, b, vb, vc, base, second, true, false, m2, m3)
    && SubEffect(a, va, b, vb, vc, base, second, true, true, m3, m4)
  }

  ghost predicate PhaseEffect(
    a: Vector, va: View, b: Vector, vb: View, vc: View, base: nat, second: bool, m: Memory<Loc, real>,
    m': Memory<Loc, real>)
    requires Total(m) && Total(m') && va.dim > base
  {
    && (forall lower: bool, right: bool, i: nat, j: nat {:trigger m'[Cell(Index(Quadrant(vc, lower, right), i, j))]} ::
          i < vc.dim / 2 && j < vc.dim / 2 ==>
            m'[Cell(Index(Quadrant(vc, lower, right), i, j))] ==
              m[Cell(Index(Quadrant(vc, lower, right), i, j))] +
                  AddedBy(a, va, b, vb, base, second, lower, right, i, j))
    && (forall x: nat {:trigger m'[Cell(x)]} ::
          (forall lower: bool, right: bool :: !InView(Quadrant(vc, lower, right), x)) ==> m'[Cell(x)] == m[Cell(x)])
  }

  lemma PhaseCombines(
    a: Vector, va: View, b: Vector, vb: View, vc: View, base: nat, second: bool,
    m0: Memory<Loc, real>, m1: Memory<Loc, real>, m2: Memory<Loc, real>, m3: Memory<Loc, real>, m4: Memory<Loc, real>)
    requires Proper(vc) && va.dim > base && PhaseSteps(a, va, b, vb, vc, base, second, m0, m1, m2, m3, m4)
    ensures PhaseEffect(a, va, b, vb, vc, base, second, m0, m4)
  {
    forall lower: bool, right: bool, i: nat, j: nat {:trigger Index(Quadrant(vc, lower, right), i, j)}
      | i < vc.dim / 2 && j < vc.dim / 2
      ensures m4[Cell(Index(Quadrant(vc, lower, right), i, j))] ==
                m0[Cell(Index(Quadrant(vc, lower, right), i, j))] +
                    AddedBy(a, va, b, vb, base, second, lower, right, i, j)
    {
      PhaseCell(a, va, b, vb, vc, base, second, m0, m1, m2, m3, m4, lower, right, i, j);
    }
  }

  lemma PhaseCell(
    a: Vector, va: View, b: Vector, vb: View, vc: View, base: nat, second: bool,
    m0: Memory<Loc, real>, m1: Memory<Loc, real>, m2: Memory<Loc, real>, m3: Memory<Loc, real>, m4: Memory<Loc, real>,
    lower: bool, right: bool, i: nat, j: nat)
    requires Proper(vc) && va.dim > base && PhaseSteps(a, va, b, vb, vc, base, second, m0, m1, m2, m3, m4)
    requires i < vc.dim / 2 && j < vc.dim / 2
    ensures m4[Cell(Index(Quadrant(vc, lower, right), i, j))] ==
              m0[Cell(Index(Quadrant(vc, lower, right), i, j))] +
                  AddedBy(a, va, b, vb, base, second, lower, right, i, j)
  {
    var x := Index(Quadrant(vc, lower, right), i, j);
    assert InView(Quadrant(vc, lower, right), x);
    if (lower, right) != (false, false) {
      QuadrantsAreDisjoint(vc, lower, right, false, false, x);
      assert m1[Cell(x)] == m0[Cell(x)];
    }
    if (lower, right) != (false, true) {
      QuadrantsAreDisjoint(vc, lower, right, false, true, x);
      assert m2[Cell(x)] == m1[Cell(x)];
    }
    if (lower, right) != (true, false) {
      QuadrantsAreDisjoint(vc, lower, right, true, false, x);
      assert m3[Cell(x)] == m2[Cell(x)];
    }
    if (lower, right) != (true, true) {
      QuadrantsAreDisjoint(vc, lower, right, true, true, x);
      assert m4[Cell(x)] == m3[Cell(x)];
    }
  }

  /** Beyond the two halves, left over by an odd dimension, no quadrant reaches. */
  lemma OutsideQuadrants(v: View, i: nat, j: nat, lower: bool, right: bool)
    requires Proper(v) && i < v.dim && j < v.dim && (i >= 2 * (v.dim / 2) || j >= 2 * (v.dim / 2))
    ensures !InView(Quadrant(v, lower, right), Index(v, i, j))
  {
    if InView(Quadrant(v, lower, right), Index(v, i, j)) {
      var p, q := InQuadrant(v, lower, right, Index(v, i, j));
      IndexIsInjective(v, i, j, Shift(v, lower, p), Shift(v, right, q));
    }
  }

  lemma QuadrantOf(v: View, i: nat, j: nat)
    requires i < 2 * (v.dim / 2) && j < 2 * (v.dim / 2)
    ensures var half := v.dim / 2;
            && Offset(half, i) < half && Offset(half, j) < half
            && Index(v, i, j) == Index(Quadrant(v, i >= half, j >= half), Offset(half, i), Offset(half, j))
  {
    var half := v.dim / 2;
    QuadrantIndex(v, i >= half, j >= half, Offset(half, i), Offset(half, j));
  }

  lemma AddedInside(a: Vector, va: View, b: Vector, vb: View, base: nat, i: nat, j: nat)
    requires va.dim > base && i < 2 * (va.dim / 2) && j < 2 * (va.dim / 2)
    ensures var half := va.dim / 2;
            Added(a, va, b, vb, base, i, j) ==
              AddedBy(a, va, b, vb, base, false, i >= half, j >= half, Offset(half, i), Offset(half, j)) +
              AddedBy(a, va, b, vb, base, true, i >= half, j >= half, Offset(half, i), Offset(half, j))
  {
  }

  /** What two phases add at an element of a quadrant. */
  lemma TwoPhasesInside(
    a: Vector, va: View, b: Vector, vb: View, vc: View, base: nat,
    m: Memory<Loc, real>, m1: Memory<Loc, real>, m2: Memory<Loc, real>, i: nat, j: nat)
    requires va.dim == vb.dim == vc.dim > base && Total(m) && Total(m1) && Total(m2)
    requires PhaseEffect(a, va, b, vb, vc, base, false, m, m1) && PhaseEffect(a, va, b, vb, vc, base, true, m1, m2)
    requires i < 2 * (vc.dim / 2) && j < 2 * (vc.dim / 2)
    ensures m2[Cell(Index(vc, i, j))] == m[Cell(Index(vc, i, j))] + Added(a, va, b, vb, base, i, j)
  {
    var half := vc.dim / 2;
    var lower, right, p, q := i >= half, j >= half, Offset(half, i), Offset(half, j);
    QuadrantOf(vc, i, j);
    AddedInside(a, va, b, vb, base, i, j);
    PhaseAdds(a, va, b, vb, vc, base, false, m, m1, lower, right, p, q);
    PhaseAdds(a, va, b, vb, vc, base, true, m1, m2, lower, right, p, q);
  }

  lemma PhaseAdds(
    a: Vector, va: View, b: Vector, vb: View, vc: View, base: nat, second: bool,
    m: Memory<Loc, real>, m': Memory<Loc, real>, lower: bool, right: bool, p: nat, q: nat)
    requires Total(m) && Total(m') && va.dim > base && PhaseEffect(a, va, b, vb, vc, base, second, m, m')
    requires p < vc.dim / 2 && q < vc.dim / 2
    ensures var x := Cell(Index(Quadrant(vc, lower, right), p, q));
            m'[x] == m[x] + AddedBy(a, va, b, vb, base, second, lower, right, p, q)
  {
  }

  /** What no quadrant covers is left alone by both phases. */
  lemma TwoPhasesOutside(
    a: Vector, va: View, b: Vector, vb: View, vc: View, base: nat,
    m: Memory<Loc, real>, m1: Memory<Loc, real>, m2: Memory<Loc, real>, x: nat)
    requires va.dim == vb.dim == vc.dim > base && Total(m) && Total(m1) && Total(m2)
    requires PhaseEffect(a, va, b, vb, vc, base, false, m, m1) && PhaseEffect(a, va, b, vb, vc, base, true, m1, m2)
    requires forall lower: bool, right: bool :: !InView(Quadrant(vc, lower, right), x)
    ensures m2[Cell(x)] == m[Cell(x)]
  {
    assert m1[Cell(x)] == m[Cell(x)];
  }

  /** Two phases, with the wait between them, add both halves of every product. */
  lemma TwoPhases(
    a: Vector, va: View, b: Vector, vb: View, vc: View, base: nat,
    m: Memory<Loc, real>, m1: Memory<Loc, real>, m2: Memory<Loc, real>)
    requires va.dim == vb.dim == vc.dim > base && Proper(vc) && Total(m) && Total(m1) && Total(m2)
    requires PhaseEffect(a, va, b, vb, vc, base, false, m, m1) && PhaseEffect(a, va, b, vb, vc, base, true, m1, m2)
    ensures Effect(a, va, b, vb, vc, base, m, m2)
  {
    forall i: nat, j: nat {:trigger Index(vc, i, j)} | i < vc.dim && j < vc.dim
      ensures m2[Cell(Index(vc, i, j))] == m[Cell(Index(vc, i, j))] + Added(a, va, b, vb, base, i, j)
    {
      if i < 2 * (vc.dim / 2) && j < 2 * (vc.dim / 2) {
        TwoPhasesInside(a, va, b, vb, vc, base, m, m1, m2, i, j);
      } else {
        forall lower: bool, right: bool
          ensures !InView(Quadrant(vc, lower, right), Index(vc, i, j))
        {
          OutsideQuadrants(vc, i, j, lower, right);
        }
        TwoPhasesOutside(a, va, b, vb, vc, base, m, m1, m2, Index(vc, i, j));
      }
    }
    forall x: nat {:trigger Cell(x)} | !InView(vc, x)
      ensures m2[Cell(x)] == m[Cell(x)]
    {
      forall lower: bool, right: bool
        ensures !InView(Quadrant(vc, lower, right), x)
      {
        if InView(Quadrant(vc, lower, right), x) {
          var _, _ := InQuadrant(vc, lower, right, x);
        }
      }
      TwoPhasesOutside(a, va, b, vb, vc, base, m, m1, m2, x);
    }
  }

  lemma {:induction false} SerialPhase(
    a: Vector, va: View, b: Vector, vb: View, vc: View, base: nat, path: seq<nat>, second: bool, m: Memory<Loc, real>)
    requires va.dim == vb.dim == vc.dim > base && Proper(vc) && Total(m)
    ensures PhaseEffect(a, va, b, vb, vc, base, second, m, Run(Serial(Phase(a, va, b, vb, vc, base, path, second)), m))
    decreases va.dim, 0
  {
    var s1 := Serial(Sub(a, va, b, vb, vc, base, path, second, false, false));
    var s2 := Serial(Sub(a, va, b, vb, vc, base, path, second, false, true));
    var s3 := Serial(Sub(a, va, b, vb, vc, base, path, second, true, false));
    var s4 := Serial(Sub(a, va, b, vb, vc, base, path, second, true, true));
    var m1 := Run(s1, m);
    var m2 := Run(s2, m1);
    var m3 := Run(s3, m2);
    SerialSub(a, va, b, vb, vc, base, path, second, false, false, m);
    SerialSub(a, va, b, vb, vc, base, path, second, false, true, m1);
    SerialSub(a, va, b, vb, vc, base, path, second, true, false, m2);
    SerialSub(a, va, b, vb, vc, base, path, second, true, true, m3);
    SerialOfPhase(a, va, b, vb, vc, base, path, second);
    RunConcat(s1, s2 + (s3 + s4), m);
    RunConcat(s2, s3 + s4, m1);
    RunConcat(s3, s4, m2);
    PhaseCombines(a, va, b, vb, vc, base, second, m, m1, m2, m3, Run(s4, m3));
  }

  lemma {:induction false} SerialSub(
    a: Vector, va: View, b: Vector, vb: View, vc: View, base: nat, path: seq<nat>, second: bool, lower: bool,
    right: bool,
    m: Memory<Loc, real>)
    requires va.dim == vb.dim == vc.dim > base && Proper(vc) && Total(m)
    ensures SubEffect(a, va, b, vb, vc, base, second, lower, right, m,
                      Run(Serial(Sub(a, va, b, vb, vc, base, path, second, lower, right)), m))
    decreases va.dim / 2, 2
  {
    SerialMultiply(a, Quadrant(va, lower, second), b, Quadrant(vb, second, right), Quadrant(vc, lower, right), base,
                   path + [Number(lower, right) + if second then 4 else 0], m);
  }

  lemma {:induction false} SerialMultiply(
    a: Vector, va: View, b: Vector, vb: View, vc: View, base: nat, path: seq<nat>, m: Memory<Loc, real>)
    requires va.dim == vb.dim == vc.dim && Proper(vc) && Total(m)
    ensures Effect(a, va, b, vb, vc, base, m, Run(Serial(Multiply(a, va, b, vb, vc, base, path)), m))
    decreases va.dim, 1
  {
    if va.dim <= base {
      var _ := KernelEffect(a, va, b, vb, vc, path, vc.dim, m);
    } else {
      var p1 := Serial(Phase(a, va, b, vb, vc, base, path, false));
      var p2 := Serial(Phase(a, va, b, vb, vc, base, path, true));
      SerialPhase(a, va, b, vb, vc, base, path, false, m);
      SerialPhase(a, va, b, vb, vc, base, path, true, Run(p1, m));
      RunConcat(p1, p2, m);
      TwoPhases(a, va, b, vb, vc, base, m, Run(p1, m), Run(p2, Run(p1, m)));
    }
  }

  // ---------------------------------------------------------------- when the products are all there

  /** Every dimension that gets halved is even. */
  predicate HalvesEvenly(dim: nat, base: nat) {
    dim <= base || (dim % 2 == 0 && HalvesEvenly(dim / 2, base))
  }

  lemma {:induction false} SumAgrees(f: nat -> real, g: nat -> real, n: nat)
    requires forall k: nat :: k < n ==> f(k) == g(k)
    ensures Sum(f, n) == Sum(g, n)
  {
    if n > 0 {
      SumAgrees(f, g, n - 1);
    }
  }

  lemma {:induction false} SumSplits(f: nat -> real, g: nat -> real, half: nat, n: nat)
    requires forall k: nat :: k < n ==> f(half + k) == g(k)
    ensures Sum(f, half + n) == Sum(f, half) + Sum(g, n)
  {
    if n > 0 {
      SumSplits(f, g, half, n - 1);
      assert f(half + (n - 1)) == g(n - 1);
    }
  }

  /** The products of the whole row are those of its first half and those of its second half. */
  lemma TermOfHalves(
    a: Vector, va: View, b: Vector, vb: View, lower: bool, right: bool, second: bool, i: nat, j: nat, k: nat)
    requires va.dim == vb.dim
    ensures Term(a, va, b, vb, Shift(va, lower, i), Shift(vb, right, j))(Shift(va, second, k)) ==
            Term(a, Quadrant(va, lower, second), b, Quadrant(vb, second, right), i, j)(k)
  {
    QuadrantIndex(va, lower, second, i, k);
    QuadrantIndex(vb, second, right, k, j);
  }

  lemma DotOfHalves(a: Vector, va: View, b: Vector, vb: View, lower: bool, right: bool, i: nat, j: nat)
    requires va.dim == vb.dim && va.dim % 2 == 0
    ensures var half := va.dim / 2;
            Dot(a, va, b, vb, Shift(va, lower, i), Shift(vb, right, j), va.dim) ==
            Dot(a, Quadrant(va, lower, false), b, Quadrant(vb, false, right), i, j, half) +
            Dot(a, Quadrant(va, lower, true), b, Quadrant(vb, true, right), i, j, half)
  {
    var half := va.dim / 2;
    var f := Term(a, va, b, vb, Shift(va, lower, i), Shift(vb, right, j));
    var g := Term(a, Quadrant(va, lower, false), b, Quadrant(vb, false, right), i, j);
    var h := Term(a, Quadrant(va, lower, true), b, Quadrant(vb, true, right), i, j);
    forall k: nat | k < half
      ensures f(k) == g(k) && f(half + k) == h(k)
    {
      TermOfHalves(a, va, b, vb, lower, right, false, i, j, k);
      TermOfHalves(a, va, b, vb, lower, right, true, i, j, k);
    }
    SumAgrees(f, g, half);
    SumSplits(f, h, half, half);
  }

  lemma {:induction false} EvenHalvesAddEverything(a: Vector, va: View, b: Vector, vb: View, base: nat, i: nat, j: nat)
    requires va.dim == vb.dim && i < va.dim && j < va.dim && HalvesEvenly(va.dim, base)
    ensures Added(a, va, b, vb, base, i, j) == Dot(a, va, b, vb, i, j, va.dim)
    decreases va.dim
  {
    if va.dim > base {
      var half := va.dim / 2;
      var lower, right, p, q := i >= half, j >= half, Offset(half, i), Offset(half, j);
      EvenHalvesAddEverything(a, Quadrant(va, lower, false), b, Quadrant(vb, false, right), base, p, q);
      EvenHalvesAddEverything(a, Quadrant(va, lower, true), b, Quadrant(vb, true, right), base, p, q);
      DotOfHalves(a, va, b, vb, lower, right, p, q);
    }
  }

  /** How many products reach element (0, 0). */
  function Covered(dim: nat, base: nat): (n: nat)
    ensures n <= dim
    ensures n == dim <==> HalvesEvenly(dim, base)
  {
    if dim <= base then dim else 2 * Covered(dim / 2, base)
  }

  function Ones(): Vector {
    (x: nat) => 1.0
  }

  lemma {:induction false} SumOfOnes(va: View, vb: View, n: nat)
    ensures Dot(Ones(), va, Ones(), vb, 0, 0, n) == n as real
  {
    if n > 0 {
      SumOfOnes(va, vb, n - 1);
    }
  }

  /** On matrices of ones the calls count the products that reach element (0, 0). */
  lemma {:induction false} OnesAreCounted(va: View, vb: View, base: nat)
    requires va.dim == vb.dim
    ensures Added(Ones(), va, Ones(), vb, base, 0, 0) == Covered(va.dim, base) as real
    decreases va.dim
  {
    if va.dim <= base {
      SumOfOnes(va, vb, va.dim);
    } else {
      OnesAreCounted(Quadrant(va, false, false), Quadrant(vb, false, false), base);
      OnesAreCounted(Quadrant(va, false, true), Quadrant(vb, true, false), base);
    }
  }

  /**
   Exactly when the recursion multiplies: the calls add the full product, for all matrices and elements, if and only
   if every dimension that gets halved is even.
   */
  lemma MultipliesExactlyWhenEven(va: View, vb: View, base: nat)
    requires va.dim == vb.dim
    ensures HalvesEvenly(va.dim, base) <==>
            forall a: Vector, b: Vector, i: nat, j: nat :: i < va.dim && j < va.dim ==>
              Added(a, va, b, vb, base, i, j) == Dot(a, va, b, vb, i, j, va.dim)
  {
    if HalvesEvenly(va.dim, base) {
      forall a: Vector, b: Vector, i: nat, j: nat | i < va.dim && j < va.dim
        ensures Added(a, va, b, vb, base, i, j) == Dot(a, va, b, vb, i, j, va.dim)
      {
        EvenHalvesAddEverything(a, va, b, vb, base, i, j);
      }
    } else {
      OnesAreCounted(va, vb, base);
      SumOfOnes(va, vb, va.dim);
      assert 0 < va.dim;
      assert Added(Ones(), va, Ones(), vb, base, 0, 0) != Dot(Ones(), va, Ones(), vb, 0, 0, va.dim);
    }
  }

  /**
   Under every schedule of the quadrant tasks, C ends up as C + A * B on its view and unchanged elsewhere, provided the
   halved dimensions are even.
   */
  lemma EveryScheduleMultiplies(
    a: Vector, va: View, b: Vector, vb: View, vc: View, base: nat, tr: seq<Act<Loc, real>>, m: Memory<Loc, real>)
    requires va.dim == vb.dim == vc.dim && Proper(vc) && HalvesEvenly(va.dim, base) && Total(m)
    requires Trace(Multiply(a, va, b, vb, vc, base, []), tr)
    ensures var m' := Run(tr, m);
            && (forall i: nat, j: nat {:trigger m'[Cell(Index(vc, i, j))]} :: i < vc.dim && j < vc.dim ==>
                  m'[Cell(Index(vc, i, j))] == m[Cell(Index(vc, i, j))] + Dot(a, va, b, vb, i, j, va.dim))
            && (forall x: nat {:trigger m'[Cell(x)]} :: !InView(vc, x) ==> m'[Cell(x)] == m[Cell(x)])
  {
    EveryScheduleAdds(a, va, b, vb, vc, base, tr, m);
    forall i: nat, j: nat {:trigger Index(vc, i, j)} | i < vc.dim && j < vc.dim
      ensures Added(a, va, b, vb, base, i, j) == Dot(a, va, b, vb, i, j, va.dim)
    {
      EvenHalvesAddEverything(a, va, b, vb, base, i, j);
    }
  }

  /** Whatever the dimension, the result does not depend on the schedule. */
  lemma EveryScheduleAdds(
    a: Vector, va: View, b: Vector, vb: View, vc: View, base: nat, tr: seq<Act<Loc, real>>, m: Memory<Loc, real>)
    requires va.dim == vb.dim == vc.dim && Proper(vc) && Total(m)
    requires Trace(Multiply(a, va, b, vb, vc, base, []), tr)
    ensures Effect(a, va, b, vb, vc, base, m, Run(tr, m))
  {
    MultiplyIsRaceFree(a, va, b, vb, vc, base, []);
    EveryScheduleIsSerial(Multiply(a, va, b, vb, vc, base, []), tr, m);
    SerialMultiply(a, va, b, vb, vc, base, [], m);
  }
}
