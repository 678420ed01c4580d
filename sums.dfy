/**
 * Exact sums over reals: sums of a function over 0..n-1, of a sequence, and
 * of a sequence read at a list of indices (the measure of a node's children).
 */
module Sums {

  /** f(0) + ... + f(n-1). */
  function SumF(n: nat, f: nat -> real): real
  {
    if n == 0 then 0.0 else SumF(n - 1, f) + f(n - 1)
  }

  lemma {:induction false} SumFExt(n: nat, f: nat -> real, g: nat -> real)
    requires forall i: nat :: i < n ==> f(i) == g(i)
    ensures SumF(n, f) == SumF(n, g)
  {
    if n > 0 { SumFExt(n - 1, f, g); }
  }

  lemma {:induction false} SumFZero(n: nat, f: nat -> real)
    requires forall i: nat :: i < n ==> f(i) == 0.0
    ensures SumF(n, f) == 0.0
  {
    if n > 0 { SumFZero(n - 1, f); }
  }

  /** f read from offset d on. */
  function Shift(f: nat -> real, d: nat): nat -> real
  {
    (k: nat) => f(d + k)
  }

  lemma {:induction false} SumFSplit(a: nat, b: nat, f: nat -> real)
    ensures SumF(a + b, f) == SumF(a, f) + SumF(b, Shift(f, a))
  {
    if b > 0 { SumFSplit(a, b - 1, f); }
  }

  /** SumFSplit with the cut at a inside [0, n). */
  lemma SumFSplitAt(n: nat, a: nat, f: nat -> real)
    requires a <= n
    ensures SumF(n, f) == SumF(a, f) + SumF(n - a, Shift(f, a))
  {
    SumFSplit(a, n - a, f);
  }

  lemma {:induction false} SumFAdd(n: nat, f: nat -> real, g: nat -> real, h: nat -> real)
    requires forall i: nat :: i < n ==> h(i) == f(i) + g(i)
    ensures SumF(n, h) == SumF(n, f) + SumF(n, g)
  {
    if n > 0 { SumFAdd(n - 1, f, g, h); }
  }

  /** Row i of a double-indexed term, as a function of the column. */
  function Curry(F: (nat, nat) -> real, i: nat): nat -> real
  {
    (j: nat) => F(i, j)
  }

  function Flip(F: (nat, nat) -> real): (nat, nat) -> real
  {
    (j: nat, i: nat) => F(i, j)
  }

  /** The row totals of F over b columns, as a function of the row. */
  function Outer(F: (nat, nat) -> real, b: nat): nat -> real
  {
    (i: nat) => SumF(b, Curry(F, i))
  }

  /** Exchanging the order of a finite double sum. */
  lemma {:induction false} Fubini(a: nat, b: nat, F: (nat, nat) -> real)
    ensures SumF(a, Outer(F, b)) == SumF(b, Outer(Flip(F), a))
  {
    if a > 0 {
      Fubini(a - 1, b, F);
      SumFAdd(b, Outer(Flip(F), a - 1), Curry(F, a - 1), Outer(Flip(F), a));
    } else {
      SumFZero(b, Outer(Flip(F), a));
    }
  }

  /** s[p], or 0 outside the sequence. */
  function At(s: seq<real>, p: nat): real
  {
    if p < |s| then s[p] else 0.0
  }

  function Sum(s: seq<real>): real
  {
    if |s| == 0 then 0.0 else Sum(s[..|s| - 1]) + s[|s| - 1]
  }

  /** The sum of s read at every index listed in idx, in order. */
  function SumAt(s: seq<real>, idx: seq<nat>): real
  {
    if |idx| == 0 then 0.0 else SumAt(s, idx[..|idx| - 1]) + At(s, idx[|idx| - 1])
  }

  /** The entries of s as a function of the position, 0 past the end. */
  function Entries(s: seq<real>): nat -> real
  {
    (p: nat) => At(s, p)
  }

  lemma {:induction false} SumAsSumF(s: seq<real>)
    ensures Sum(s) == SumF(|s|, Entries(s))
  {
    if |s| > 0 {
      var s' := s[..|s| - 1];
      SumAsSumF(s');
      SumFExt(|s'|, Entries(s'), Entries(s));
    }
  }

  lemma SumSnoc(s: seq<real>, x: real)
    ensures Sum(s + [x]) == Sum(s) + x
  {
    assert (s + [x])[..|s|] == s;
  }

  lemma {:induction false} SumConcat(a: seq<real>, b: seq<real>)
    ensures Sum(a + b) == Sum(a) + Sum(b)
  {
    if |b| > 0 {
      var b' := b[..|b| - 1];
      assert (a + b)[..|a + b| - 1] == a + b';
      SumConcat(a, b');
    } else {
      assert a + b == a;
    }
  }

  lemma {:induction false} SumAtConcat(s: seq<real>, a: seq<nat>, b: seq<nat>)
    ensures SumAt(s, a + b) == SumAt(s, a) + SumAt(s, b)
  {
    if |b| > 0 {
      var b' := b[..|b| - 1];
      assert (a + b)[..|a + b| - 1] == a + b';
      SumAtConcat(s, a, b');
    } else {
      assert a + b == a;
    }
  }

  lemma SumAtSnoc(s: seq<real>, idx: seq<nat>, x: nat)
    ensures SumAt(s, idx + [x]) == SumAt(s, idx) + At(s, x)
  {
    assert (idx + [x])[..|idx|] == idx;
  }

  /** A sum over indices only sees the listed entries. */
  lemma {:induction false} SumAtFrame(s: seq<real>, t: seq<real>, idx: seq<nat>)
    requires forall k :: 0 <= k < |idx| ==> At(s, idx[k]) == At(t, idx[k])
    ensures SumAt(s, idx) == SumAt(t, idx)
  {
    if |idx| > 0 {
      SumAtFrame(s, t, idx[..|idx| - 1]);
    }
  }

  ghost predicate Distinct(idx: seq<nat>)
  {
    forall a, b :: 0 <= a < b < |idx| ==> idx[a] != idx[b]
  }

  /** Changing one entry that is listed exactly once moves the sum by the change. */
  lemma {:induction false} SumAtUpdate(s: seq<real>, idx: seq<nat>, y: nat, v: real)
    requires Distinct(idx) && y < |s|
    ensures SumAt(s[y := v], idx) == SumAt(s, idx) + (if y in idx then v - s[y] else 0.0)
  {
    if |idx| > 0 {
      var idx' := idx[..|idx| - 1];
      assert Distinct(idx');
      SumAtUpdate(s, idx', y, v);
      assert y in idx <==> y in idx' || y == idx[|idx| - 1];
      if y == idx[|idx| - 1] {
        assert y !in idx';
      }
    }
  }
}
