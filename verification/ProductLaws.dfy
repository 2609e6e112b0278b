/**
 What the product of two views is, without saying how it is summed: it is linear in each factor, an identity as either
 factor gives the other one, and a row with a single entry picks a row of B.  Carried through the three loops and
 through every schedule of the tasks (examples/cxx/matmult.cpp).
 */
module ProductLaws {
  import opened ForkJoin
  import opened MatrixViews
  import opened MatrixMultiply

  function Plus(a: Vector, a': Vector): Vector {
    (x: nat) => a(x) + a'(x)
  }

  function Times(c: real, a: Vector): Vector {
    (x: nat) => c * a(x)
  }

  /** Ones on the diagonal of the view and zeros beside it. */
  ghost predicate Identity(a: Vector, v: View) {
    forall i: nat, j: nat {:trigger Index(v, i, j)} :: i < v.dim && j < v.dim ==>
      At(a, v, i, j) == if i == j then 1.0 else 0.0
  }

  ghost predicate Zero(a: Vector, v: View) {
    forall i: nat, j: nat {:trigger Index(v, i, j)} :: i < v.dim && j < v.dim ==> At(a, v, i, j) == 0.0
  }

  // ---------------------------------------------------------------- linear in each factor

  lemma {:induction false} DotAddsLeft(a: Vector, a': Vector, va: View, b: Vector, vb: View, i: nat, j: nat, n: nat)
    ensures Dot(Plus(a, a'), va, b, vb, i, j, n) == Dot(a, va, b, vb, i, j, n) + Dot(a', va, b, vb, i, j, n)
  {
    if n > 0 {
      DotAddsLeft(a, a', va, b, vb, i, j, n - 1);
    }
  }

  lemma {:induction false} DotAddsRight(a: Vector, va: View, b: Vector, b': Vector, vb: View, i: nat, j: nat, n: nat)
    ensures Dot(a, va, Plus(b, b'), vb, i, j, n) == Dot(a, va, b, vb, i, j, n) + Dot(a, va, b', vb, i, j, n)
  {
    if n > 0 {
      DotAddsRight(a, va, b, b', vb, i, j, n - 1);
    }
  }

  lemma Scaled(c: real, x: real, y: real, s: real)
    ensures c * s + (c * x) * y == c * (s + x * y)
    ensures c * s + x * (c * y) == c * (s + x * y)
  {
  }

  lemma {:induction false} DotScalesLeft(c: real, a: Vector, va: View, b: Vector, vb: View, i: nat, j: nat, n: nat)
    ensures Dot(Times(c, a), va, b, vb, i, j, n) == c * Dot(a, va, b, vb, i, j, n)
  {
    if n > 0 {
      DotScalesLeft(c, a, va, b, vb, i, j, n - 1);
      Scaled(c, At(a, va, i, n - 1), At(b, vb, n - 1, j), Dot(a, va, b, vb, i, j, n - 1));
    }
  }

  lemma {:induction false} DotScalesRight(c: real, a: Vector, va: View, b: Vector, vb: View, i: nat, j: nat, n: nat)
    ensures Dot(a, va, Times(c, b), vb, i, j, n) == c * Dot(a, va, b, vb, i, j, n)
  {
    if n > 0 {
      DotScalesRight(c, a, va, b, vb, i, j, n - 1);
      Scaled(c, At(a, va, i, n - 1), At(b, vb, n - 1, j), Dot(a, va, b, vb, i, j, n - 1));
    }
  }

  // ---------------------------------------------------------------- single entries

  /** If row `i` of A has no entry beside column `q`, the product picks row `q` of B. */
  lemma {:induction false} SingleEntryLeft(a: Vector, va: View, b: Vector, vb: View, i: nat, j: nat, n: nat, q: nat)
    requires forall k: nat :: k < n && k != q ==> At(a, va, i, k) == 0.0
    ensures Dot(a, va, b, vb, i, j, n) == if q < n then At(a, va, i, q) * At(b, vb, q, j) else 0.0
  {
    if n > 0 {
      SingleEntryLeft(a, va, b, vb, i, j, n - 1, q);
    }
  }

  /** If column `j` of B has no entry beside row `q`, the product picks column `q` of A. */
  lemma {:induction false} SingleEntryRight(a: Vector, va: View, b: Vector, vb: View, i: nat, j: nat, n: nat, q: nat)
    requires forall k: nat :: k < n && k != q ==> At(b, vb, k, j) == 0.0
    ensures Dot(a, va, b, vb, i, j, n) == if q < n then At(a, va, i, q) * At(b, vb, q, j) else 0.0
  {
    if n > 0 {
      SingleEntryRight(a, va, b, vb, i, j, n - 1, q);
    }
  }

  lemma TimesIdentity(a: Vector, va: View, b: Vector, vb: View, i: nat, j: nat)
    requires va.dim == vb.dim && i < va.dim && j < va.dim
    ensures Identity(b, vb) ==> Dot(a, va, b, vb, i, j, va.dim) == At(a, va, i, j)
    ensures Identity(a, va) ==> Dot(a, va, b, vb, i, j, va.dim) == At(b, vb, i, j)
    ensures Zero(a, va) || Zero(b, vb) ==> Dot(a, va, b, vb, i, j, va.dim) == 0.0
  {
    if Identity(b, vb) || Zero(b, vb) {
      forall k: nat | k < va.dim && k != j
        ensures At(b, vb, k, j) == 0.0
      {
        var _ := Index(vb, k, j);
      }
      var _ := Index(vb, j, j);
      SingleEntryRight(a, va, b, vb, i, j, va.dim, j);
    }
    if Identity(a, va) || Zero(a, va) {
      forall k: nat | k < va.dim && k != i
        ensures At(a, va, i, k) == 0.0
      {
        var _ := Index(va, i, k);
      }
      var _ := Index(va, i, i);
      SingleEntryLeft(a, va, b, vb, i, j, va.dim, i);
    }
  }

  // ---------------------------------------------------------------- through the loops and through every schedule

  /** Multiplying an array by the identity adds it, on either side; multiplying by zero changes nothing. */
  lemma LoopsRespectIdentity(
    a: seq<real>, va: View, b: seq<real>, vb: View, vc: View, before: seq<real>, after: seq<real>, i: nat, j: nat)
    requires va.dim == vb.dim == vc.dim && AddsProduct(a, va, b, vb, vc, before, after) && i < vc.dim && j < vc.dim
    ensures var x := Index(vc, i, j);
            && x < |before| && x < |after|
            && (Identity(Contents(b), vb) ==> after[x] == before[x] + At(Contents(a), va, i, j))
            && (Identity(Contents(a), va) ==> after[x] == before[x] + At(Contents(b), vb, i, j))
            && (Zero(Contents(a), va) || Zero(Contents(b), vb) ==> after[x] == before[x])
  {
    TimesIdentity(Contents(a), va, Contents(b), vb, i, j);
  }

  /**
   Under every schedule C ends as C + A if B is the identity on its view, as C + B if A is, and as it was if either is
   zero.
   */
  lemma EveryScheduleRespectsIdentity(
    a: Vector, va: View, b: Vector, vb: View, vc: View, base: nat, tr: seq<Act<Loc, real>>, m: Memory<Loc, real>,
    i: nat, j: nat)
    requires va.dim == vb.dim == vc.dim && Proper(vc) && HalvesEvenly(va.dim, base) && Total(m)
    requires Trace(Multiply(a, va, b, vb, vc, base, []), tr) && i < vc.dim && j < vc.dim
    ensures var x := Cell(Index(vc, i, j));
            && (Identity(b, vb) ==> Run(tr, m)[x] == m[x] + At(a, va, i, j))
            && (Identity(a, va) ==> Run(tr, m)[x] == m[x] + At(b, vb, i, j))
            && (Zero(a, va) || Zero(b, vb) ==> Run(tr, m)[x] == m[x])
  {
    EveryScheduleMultiplies(a, va, b, vb, vc, base, tr, m);
    TimesIdentity(a, va, b, vb, i, j);
  }
}
