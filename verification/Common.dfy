/** Shared vocabulary: options, machine words and weighted counts over sequences. */
module Common {

  datatype Option<+T> = None | Some(value: T)

  /** The number of values of a 32-bit machine word. */
  const WORD := 0x1_0000_0000

  /** Value of `x` once stored in a 32-bit unsigned word. */
  function Wrap32(x: int): (r: nat)
    ensures r < WORD
    ensures 0 <= x < WORD ==> r == x
  {
    x % WORD
  }

  /** Sum of the weights of the elements of `s`. */
  function Total<T>(s: seq<T>, w: T -> nat): nat {
    if s == [] then 0 else w(s[0]) + Total(s[1..], w)
  }

  /** Replacing one element changes the total by the difference of the two weights. */
  lemma {:induction false} TotalUpdate<T>(s: seq<T>, i: nat, x: T, w: T -> nat)
    requires i < |s|
    ensures Total(s[i := x], w) + w(s[i]) == Total(s, w) + w(x)
  {
    if i == 0 {
      assert s[i := x][1..] == s[1..];
    } else {
      TotalUpdate(s[1..], i - 1, x, w);
      assert s[i := x][1..] == s[1..][i - 1 := x];
    }
  }

  /** Totals agree when all weights do. */
  lemma {:induction false} TotalSame<S, T>(s: seq<S>, t: seq<T>, v: S -> nat, w: T -> nat)
    requires |s| == |t| && forall i :: 0 <= i < |s| ==> v(s[i]) == w(t[i])
    ensures Total(s, v) == Total(t, w)
  {
    if s != [] {
      TotalSame(s[1..], t[1..], v, w);
    }
  }

  /** A weight never exceeds the total it is part of. */
  lemma {:induction false} TotalAtLeast<T>(s: seq<T>, i: nat, w: T -> nat)
    requires i < |s|
    ensures w(s[i]) <= Total(s, w)
  {
    if i > 0 {
      TotalAtLeast(s[1..], i - 1, w);
    }
  }

  function Sum(s: seq<nat>): nat {
    if s == [] then 0 else s[0] + Sum(s[1..])
  }

  lemma {:induction false} SumUpdate(s: seq<nat>, i: nat, x: nat)
    requires i < |s|
    ensures Sum(s[i := x]) + s[i] == Sum(s) + x
  {
    if i == 0 {
      assert s[i := x][1..] == s[1..];
    } else {
      SumUpdate(s[1..], i - 1, x);
      assert s[i := x][1..] == s[1..][i - 1 := x];
    }
  }

  lemma {:induction false} TotalSnoc<T>(s: seq<T>, x: T, w: T -> nat)
    ensures Total(s + [x], w) == Total(s, w) + w(x)
  {
    if s == [] {
      assert (s + [x])[1..] == [];
    } else {
      TotalSnoc(s[1..], x, w);
      assert (s + [x])[1..] == s[1..] + [x];
    }
  }

  /** A sum gets smaller when one term does and no term grows. */
  lemma {:induction false} SumDrops(a: seq<nat>, b: seq<nat>, k: nat)
    requires |a| == |b| && k < |b| && a[k] < b[k] && forall i :: 0 <= i < |b| ==> a[i] <= b[i]
    ensures Sum(a) < Sum(b)
  {
    if k > 0 {
      SumDrops(a[1..], b[1..], k - 1);
    } else {
      SumDoesNotGrow(a[1..], b[1..]);
    }
  }

  lemma {:induction false} SumDoesNotGrow(a: seq<nat>, b: seq<nat>)
    requires |a| == |b| && forall i :: 0 <= i < |b| ==> a[i] <= b[i]
    ensures Sum(a) <= Sum(b)
  {
    if a != [] {
      SumDoesNotGrow(a[1..], b[1..]);
    }
  }

  /** Union of the bags of the elements of `s`. */
  function BagOf<S, T(==)>(s: seq<S>, f: S -> multiset<T>): multiset<T> {
    if s == [] then multiset{} else f(s[0]) + BagOf(s[1..], f)
  }

  lemma BagShift<T>(a: multiset<T>, b: multiset<T>, b': multiset<T>, x: multiset<T>, y: multiset<T>)
    requires b' + x == b + y
    ensures (a + b') + x == (a + b) + y
  {
    assert (a + b') + x == a + (b' + x);
    assert (a + b) + y == a + (b + y);
  }

  /** Replacing one element exchanges its bag for the new one. */
  lemma {:induction false} BagUpdate<S, T>(s: seq<S>, i: nat, x: S, f: S -> multiset<T>)
    requires i < |s|
    ensures BagOf(s[i := x], f) + f(s[i]) == BagOf(s, f) + f(x)
  {
    if i == 0 {
      assert s[i := x][1..] == s[1..];
    } else {
      BagUpdate(s[1..], i - 1, x, f);
      assert s[i := x][1..] == s[1..][i - 1 := x];
      BagShift(f(s[0]), BagOf(s[1..], f), BagOf(s[1..][i - 1 := x], f), f(s[i]), f(x));
    }
  }

  function RemoveAt<T>(q: seq<T>, i: nat): seq<T>
    requires i < |q|
  {
    q[..i] + q[i + 1..]
  }

  lemma RemoveAtBag<T>(q: seq<T>, i: nat)
    requires i < |q|
    ensures multiset(q) == multiset(RemoveAt(q, i)) + multiset{q[i]}
  {
    assert q == q[..i] + ([q[i]] + q[i + 1..]);
  }

  lemma {:induction false} BagSnoc<S, T>(s: seq<S>, x: S, f: S -> multiset<T>)
    ensures BagOf(s + [x], f) == BagOf(s, f) + f(x)
  {
    if s == [] {
      assert (s + [x])[1..] == [];
    } else {
      BagSnoc(s[1..], x, f);
      assert (s + [x])[1..] == s[1..] + [x];
    }
  }

  lemma {:induction false} SubsetSize<T>(a: set<T>, b: set<T>)
    requires a <= b
    ensures |a| <= |b|
  {
    if a != {} {
      var x :| x in a;
      SubsetSize(a - {x}, b - {x});
    }
  }

  function Reversed<T>(s: seq<T>): seq<T> {
    if s == [] then [] else Reversed(s[1..]) + [s[0]]
  }

  // ---------------------------------------------------------------- subsequences

  /** `a` is `b` with some elements left out. */
  predicate Subsequence<T(==)>(a: seq<T>, b: seq<T>)
    decreases |b|
  {
    a == [] || (b != [] && ((a[0] == b[0] && Subsequence(a[1..], b[1..])) || Subsequence(a, b[1..])))
  }

  lemma {:induction false} SubsequenceSame<T>(a: seq<T>)
    ensures Subsequence(a, a)
  {
    if a != [] {
      SubsequenceSame(a[1..]);
    }
  }

  lemma {:induction false} SubsequenceChain<T>(a: seq<T>, b: seq<T>, c: seq<T>)
    requires Subsequence(a, b) && Subsequence(b, c)
    ensures Subsequence(a, c)
    decreases |c|
  {
    if a != [] && b != [] {
      if b[0] == c[0] && Subsequence(b[1..], c[1..]) {
        if a[0] == b[0] && Subsequence(a[1..], b[1..]) {
          SubsequenceChain(a[1..], b[1..], c[1..]);
        } else {
          SubsequenceChain(a, b[1..], c[1..]);
        }
      } else {
        SubsequenceChain(a, b, c[1..]);
      }
    }
  }

  lemma {:induction false} SubsequenceBehind<T>(front: seq<T>, a: seq<T>, b: seq<T>)
    requires Subsequence(a, b)
    ensures Subsequence(front + a, front + b)
  {
    if front == [] {
      assert front + a == a && front + b == b;
    } else {
      SubsequenceBehind(front[1..], a, b);
      assert (front + a)[1..] == front[1..] + a && (front + b)[1..] == front[1..] + b;
    }
  }

  lemma {:induction false} SubsequenceBefore<T>(a: seq<T>, b: seq<T>, back: seq<T>)
    requires Subsequence(a, b)
    ensures Subsequence(a + back, b + back)
    decreases |b|
  {
    if b == [] {
      SubsequenceSame(back);
      assert a + back == back && b + back == back;
    } else {
      assert (b + back)[1..] == b[1..] + back;
      if a != [] && a[0] == b[0] && Subsequence(a[1..], b[1..]) {
        SubsequenceBefore(a[1..], b[1..], back);
        assert (a + back)[1..] == a[1..] + back;
      } else {
        SubsequenceBefore(a, b[1..], back);
      }
    }
  }

  lemma {:induction false} SubsequenceRemoved<T>(a: seq<T>, i: nat)
    requires i < |a|
    ensures Subsequence(RemoveAt(a, i), a)
  {
    if i == 0 {
      SubsequenceSame(a[1..]);
      assert RemoveAt(a, 0) == a[1..];
    } else {
      SubsequenceRemoved(a[1..], i - 1);
      assert RemoveAt(a, i)[1..] == RemoveAt(a[1..], i - 1);
    }
  }
}
