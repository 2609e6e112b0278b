/** Strided views into a row-major matrix and the base-case product (examples/cxx/matmult.cpp). */
module MatrixViews {

  /** `divisible_matrix`: a square window of `dim` rows, `stride` elements apart, of a vector. */
  datatype View = View(dim: nat, stride: nat, start: nat)

  /** The address computed by the element access operators. */
  function Index(v: View, i: nat, j: nat): nat {
    v.start + i * v.stride + j
  }

  /** Rows do not overlap. */
  predicate Proper(v: View) {
    v.dim <= v.stride
  }

  /** Every element of the view lies in a vector of `length` elements. */
  predicate Fits(v: View, length: nat) {
    v.dim == 0 || Index(v, v.dim - 1, v.dim - 1) < length
  }

  /** Quadrants are numbered 1 and 2 in the upper half, 3 and 4 in the lower half. */
  function Split(v: View, quadrant: nat): View {
    var half := v.dim / 2;
    View(half, v.stride,
         v.start + (if quadrant == 1 then 0
                    else if quadrant == 2 then half
                    else if quadrant == 3 then half * v.stride
                    else half * v.stride + half))
  }

  function Number(lower: bool, right: bool): nat {
    if lower then (if right then 4 else 3) else if right then 2 else 1
  }

  function Quadrant(v: View, lower: bool, right: bool): View {
    Split(v, Number(lower, right))
  }

  /** Position in the whole view of position `k` in the first or second half. */
  function Shift(v: View, second: bool, k: nat): nat {
    if second then v.dim / 2 + k else k
  }

  lemma QuadrantIndex(v: View, lower: bool, right: bool, i: nat, j: nat)
    ensures Index(Quadrant(v, lower, right), i, j) == Index(v, Shift(v, lower, i), Shift(v, right, j))
  {
    var half := v.dim / 2;
    assert (half + i) * v.stride == half * v.stride + i * v.stride;
  }

  lemma RowsApart(v: View, i: nat, i': nat)
    requires i < i'
    ensures i * v.stride + v.stride <= i' * v.stride
  {
    RowStarts(v.stride, i, i');
  }

  lemma {:induction false} RowStarts(stride: nat, i: nat, i': nat)
    requires i < i'
    ensures i * stride + stride <= i' * stride
    decreases i'
  {
    assert i' * stride == (i' - 1) * stride + stride;
    if i < i' - 1 {
      RowStarts(stride, i, i' - 1);
    }
  }

  lemma IndexIsInjective(v: View, i: nat, j: nat, i': nat, j': nat)
    requires j < v.stride && j' < v.stride && Index(v, i, j) == Index(v, i', j')
    ensures i == i' && j == j'
  {
    if i < i' {
      RowsApart(v, i, i');
    } else if i' < i {
      RowsApart(v, i', i);
    }
  }

  lemma IndexIsMonotone(v: View, i: nat, j: nat, i': nat, j': nat)
    requires i <= i' && j <= j'
    ensures Index(v, i, j) <= Index(v, i', j')
  {
    if i < i' {
      RowsApart(v, i, i');
    }
  }

  /** A quadrant is a proper view that stays inside the vector. */
  lemma QuadrantIsSafe(v: View, lower: bool, right: bool, length: nat)
    requires Proper(v) && Fits(v, length)
    ensures Proper(Quadrant(v, lower, right)) && Fits(Quadrant(v, lower, right), length)
  {
    var half := v.dim / 2;
    if half > 0 {
      QuadrantIndex(v, lower, right, half - 1, half - 1);
      IndexIsMonotone(v, Shift(v, lower, half - 1), Shift(v, right, half - 1), v.dim - 1, v.dim - 1);
    }
  }

  ghost predicate InView(v: View, x: nat) {
    exists i: nat, j: nat :: i < v.dim && j < v.dim && x == Index(v, i, j)
  }

  /** An element of a quadrant is the element of the view at the shifted position. */
  lemma InQuadrant(v: View, lower: bool, right: bool, x: nat) returns (i: nat, j: nat)
    requires InView(Quadrant(v, lower, right), x)
    ensures i < v.dim / 2 && j < v.dim / 2
    ensures x == Index(v, Shift(v, lower, i), Shift(v, right, j))
    ensures InView(v, x)
  {
    i, j :| i < v.dim / 2 && j < v.dim / 2 && x == Index(Quadrant(v, lower, right), i, j);
    QuadrantIndex(v, lower, right, i, j);
  }

  lemma QuadrantsAreDisjoint(v: View, lower: bool, right: bool, lower': bool, right': bool, x: nat)
    requires Proper(v) && (lower, right) != (lower', right')
    requires InView(Quadrant(v, lower, right), x)
    ensures !InView(Quadrant(v, lower', right'), x)
  {
    if InView(Quadrant(v, lower', right'), x) {
      var i, j := InQuadrant(v, lower, right, x);
      var i', j' := InQuadrant(v, lower', right', x);
      IndexIsInjective(v, Shift(v, lower, i), Shift(v, right, j), Shift(v, lower', i'), Shift(v, right', j'));
    }
  }

  // ---------------------------------------------------------------- products

  type Vector = nat -> real

  function At(a: Vector, v: View, i: nat, j: nat): real {
    a(Index(v, i, j))
  }

  function Sum(f: nat -> real, n: nat): real {
    if n == 0 then 0.0 else Sum(f, n - 1) + f(n - 1)
  }

  /** The k-th product of row `i` and column `j`. */
  function Term(a: Vector, va: View, b: Vector, vb: View, i: nat, j: nat): nat -> real {
    (k: nat) => At(a, va, i, k) * At(b, vb, k, j)
  }

  /** The sum of the first `n` products of row `i` and column `j`. */
  function Dot(a: Vector, va: View, b: Vector, vb: View, i: nat, j: nat, n: nat): real {
    Sum(Term(a, va, b, vb, i, j), n)
  }

  /** The contents of an array as a vector. */
  function Contents(a: seq<real>): Vector {
    (x: nat) => if x < |a| then a[x] else 0.0
  }

  /** `after` is `before` with the product of A and B added to the view of C, and nothing else changed. */
  ghost predicate AddsProduct(
    a: seq<real>, va: View, b: seq<real>, vb: View, vc: View, before: seq<real>, after: seq<real>) {
    && |after| == |before|
    && (forall i: nat, j: nat {:trigger Index(vc, i, j)} :: i < vc.dim && j < vc.dim ==>
          Index(vc, i, j) < |before| &&
          after[Index(vc, i, j)] == before[Index(vc, i, j)] + Dot(Contents(a), va, Contents(b), vb, i, j, va.dim))
    && (forall x :: 0 <= x < |before| && !InView(vc, x) ==> after[x] == before[x])
  }

  /** Cells of rows before `i`, and of row `i` before column `j`, have been updated. */
  predicate Done(i: nat, j: nat, r: nat, s: nat) {
    r < i || (r == i && s < j)
  }

  ghost predicate Progress(
    a: seq<real>, va: View, b: seq<real>, vb: View, vc: View, before: seq<real>, after: seq<real>, i: nat, j: nat)
    requires Fits(vc, |before|)
  {
    && |after| == |before|
    && (forall r: nat, s: nat {:trigger Index(vc, r, s)} :: r < vc.dim && s < vc.dim ==>
          Index(vc, r, s) < |before| &&
          after[Index(vc, r, s)] ==
            before[Index(vc, r, s)] +
                if Done(i, j, r, s) then Dot(Contents(a), va, Contents(b), vb, r, s, va.dim) else 0.0)
    && (forall x :: 0 <= x < |before| && !InView(vc, x) ==> after[x] == before[x])
  }

  lemma ProgressStart(a: seq<real>, va: View, b: seq<real>, vb: View, vc: View, c: seq<real>)
    requires Fits(vc, |c|)
    ensures Progress(a, va, b, vb, vc, c, c, 0, 0)
  {
    forall r: nat, s: nat {:trigger Index(vc, r, s)} | r < vc.dim && s < vc.dim
      ensures Index(vc, r, s) < |c|
    {
      IndexIsMonotone(vc, r, s, vc.dim - 1, vc.dim - 1);
    }
  }

  lemma ProgressStep(
    a: seq<real>, va: View, b: seq<real>, vb: View, vc: View, before: seq<real>, after: seq<real>, i: nat, j: nat)
    requires Fits(vc, |before|) && Proper(vc)
    requires i < vc.dim && j < vc.dim && Progress(a, va, b, vb, vc, before, after, i, j)
    ensures var x := Index(vc, i, j);
            && x < |after|
            && var next := after[x := after[x] + Dot(Contents(a), va, Contents(b), vb, i, j, va.dim)];
               Progress(a, va, b, vb, vc, before, next, i, j + 1)
  {
    var x := Index(vc, i, j);
    var next := after[x := after[x] + Dot(Contents(a), va, Contents(b), vb, i, j, va.dim)];
    forall r: nat, s: nat {:trigger Index(vc, r, s)} | r < vc.dim && s < vc.dim
      ensures next[Index(vc, r, s)] ==
                before[Index(vc, r, s)] +
                if Done(i, j + 1, r, s) then Dot(Contents(a), va, Contents(b), vb, r, s, va.dim) else 0.0
    {
      if Index(vc, r, s) == x {
        IndexIsInjective(vc, r, s, i, j);
      } else {
        assert Done(i, j + 1, r, s) <==> Done(i, j, r, s);
      }
    }
  }

  lemma ProgressRow(
    a: seq<real>, va: View, b: seq<real>, vb: View, vc: View, before: seq<real>, after: seq<real>, i: nat)
    requires Fits(vc, |before|) && Progress(a, va, b, vb, vc, before, after, i, vc.dim)
    ensures Progress(a, va, b, vb, vc, before, after, i + 1, 0)
  {
    forall r: nat, s: nat {:trigger Index(vc, r, s)} | r < vc.dim && s < vc.dim
      ensures Done(i + 1, 0, r, s) <==> Done(i, vc.dim, r, s)
    {
    }
  }

  /** The inner loop: row `i` of A times column `j` of B. */
  method RowTimesColumn(a: array<real>, va: View, b: array<real>, vb: View, i: nat, j: nat) returns (sum: real)
    requires va.dim == vb.dim && i < va.dim && j < va.dim && Fits(va, a.Length) && Fits(vb, b.Length)
    ensures sum == Dot(Contents(a[..]), va, Contents(b[..]), vb, i, j, va.dim)
  {
    sum := 0.0;
    for k := 0 to va.dim
      invariant sum == Dot(Contents(a[..]), va, Contents(b[..]), vb, i, j, k)
    {
      IndexIsMonotone(va, i, k, va.dim - 1, va.dim - 1);
      IndexIsMonotone(vb, k, j, vb.dim - 1, vb.dim - 1);
      sum := sum + a[Index(va, i, k)] * b[Index(vb, k, j)];
    }
  }

  /** The three-loop product: C += A * B on the view of C, nothing else changes. */
  method ThreeLoopProduct(a: array<real>, va: View, b: array<real>, vb: View, c: array<real>, vc: View)
    requires va.dim == vb.dim == vc.dim && Proper(vc)
    requires Fits(va, a.Length) && Fits(vb, b.Length) && Fits(vc, c.Length)
    requires c != a && c != b
    modifies c
    ensures AddsProduct(a[..], va, b[..], vb, vc, old(c[..]), c[..])
  {
    ghost var A, B, before := a[..], b[..], c[..];
    ProgressStart(A, va, B, vb, vc, before);
    for i := 0 to va.dim
      invariant a[..] == A && b[..] == B
      invariant Progress(A, va, B, vb, vc, before, c[..], i, 0)
    {
      for j := 0 to va.dim
        invariant a[..] == A && b[..] == B
        invariant Progress(A, va, B, vb, vc, before, c[..], i, j)
      {
        var sum := RowTimesColumn(a, va, b, vb, i, j);
        ghost var was := c[..];
        ProgressStep(A, va, B, vb, vc, before, was, i, j);
        var x := Index(vc, i, j);
        c[x] := c[x] + sum;
        assert c[..] == was[x := was[x] + sum];
      }
      ProgressRow(A, va, B, vb, vc, before, c[..], i);
    }
  }
}
