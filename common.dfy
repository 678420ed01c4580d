/**
 * Shared vocabulary of the multiscale transport model: the error kinds the
 * C++ code raises as exceptions, the numeric tolerance, and a handful of
 * integer facts the index arithmetic of the decomposition relies on.
 */
module Common {

  /** The two exceptions thrown by the core: the index safety guard of an
      internal DataNode and the exhausted x-child scan of propagate. */
  datatype Error = ConstructionError | MassConservationViolation

  datatype Result<T> = Ok(value: T) | Err(error: Error)

  /** The source's tolerance `__EPS__` (1e-13); the proofs use only EPS > 0. */
  const EPS: real := 0.0000000000001

  lemma MulAtLeast(d: int, n: int)
    requires d >= 1 && n > 0
    ensures d * n >= n
  {
  }

  /** Monotonicity of multiplication by a non-negative factor. */
  lemma MulMono(a: int, b: int, n: int)
    requires a <= b && n >= 0
    ensures a * n <= b * n
  {
    if a < b && n > 0 {
      assert (b - a) * n == b * n - a * n;
      MulAtLeast(b - a, n);
    }
  }

  function Sq(n: nat): nat
  {
    n * n
  }

  lemma SquareMono(a: nat, b: nat)
    requires a <= b
    ensures Sq(a) <= Sq(b)
  {
    MulMono(a, b, a);
    MulMono(a, b, b);
  }

  /** Euclidean division undoes a row-major layout. */
  lemma DivMod(a: nat, b: nat, n: nat)
    requires b < n
    ensures (a * n + b) / n == a && (a * n + b) % n == b
  {
    var x := a * n + b;
    var q, m := x / n, x % n;
    assert x == q * n + m;
    if q < a {
      assert (a - q) * n == a * n - q * n;
      MulAtLeast(a - q, n);
    } else if q > a {
      assert (q - a) * n == q * n - a * n;
      MulAtLeast(q - a, n);
    }
  }

  lemma MulSucc(a: nat, b: nat)
    ensures (a + 1) * b == a * b + b
  {
  }

  /** Row-major positions with columns below n name distinct cells. */
  lemma RowMajorInjective(r1: nat, c1: nat, r2: nat, c2: nat, n: nat)
    requires c1 < n && c2 < n
    ensures r1 * n + c1 == r2 * n + c2 ==> r1 == r2 && c1 == c2
  {
    DivMod(r1, c1, n);
    DivMod(r2, c2, n);
  }

  /** Cells (r0 + k, c0 + l) of a block of width w inside an n-wide grid have distinct positions. */
  lemma CellInjective(r0: nat, c0: nat, k1: nat, l1: nat, k2: nat, l2: nat, w: nat, n: nat)
    requires c0 + w <= n && l1 < w && l2 < w
    ensures c0 + l1 + (r0 + k1) * n == c0 + l2 + (r0 + k2) * n ==> k1 == k2 && l1 == l2
  {
    RowMajorInjective(r0 + k1, c0 + l1, r0 + k2, c0 + l2, n);
  }

  /** The first position of row i in a row-major layout of width n, counted without multiplying. */
  function RowStart(i: nat, n: nat): nat
  {
    if i == 0 then 0 else RowStart(i - 1, n) + n
  }

  lemma {:induction false} RowStartIsProduct(i: nat, n: nat)
    ensures RowStart(i, n) == i * n
  {
    if i > 0 {
      RowStartIsProduct(i - 1, n);
      MulSucc(i - 1, n);
    }
  }

  lemma {:induction false} RowStartMono(i: nat, k: nat, n: nat)
    requires i <= k
    ensures RowStart(i, n) <= RowStart(k, n)
  {
    if i < k {
      RowStartMono(i, k - 1, n);
    }
  }

  /** A position r*n + c with r, c < n lies in an n*n grid. */
  lemma GridBound(r: nat, c: nat, n: nat)
    requires r < n && c < n
    ensures r * n + c < n * n
  {
    MulMono(r, n - 1, n);
    assert (n - 1) * n == n * n - n;
  }

  /** Integer quotient by repeated subtraction; equal to a / d (QuotIsDiv). */
  function Quot(a: nat, d: nat): nat
    requires d >= 1
    decreases a
  {
    if a < d then 0 else 1 + Quot(a - d, d)
  }

  /** Remainder by repeated subtraction; equal to a % d (QuotIsDiv). */
  function Rem(a: nat, d: nat): nat
    requires d >= 1
    decreases a
  {
    if a < d then a else Rem(a - d, d)
  }

  lemma {:induction false} QuotRem(a: nat, d: nat)
    requires d >= 1
    ensures Quot(a, d) * d + Rem(a, d) == a && Rem(a, d) < d
  {
    if a >= d {
      QuotRem(a - d, d);
      assert (1 + Quot(a - d, d)) * d == Quot(a - d, d) * d + d;
    }
  }

  /** A row-major position q*d + r with r < d has quotient q and remainder r. */
  lemma {:induction false} QuotOfRowMajor(q: nat, r: nat, d: nat)
    requires r < d
    ensures Quot(q * d + r, d) == q && Rem(q * d + r, d) == r
  {
    if q > 0 {
      assert q * d + r - d == (q - 1) * d + r;
      QuotOfRowMajor(q - 1, r, d);
    }
  }

  lemma QuotIsDiv(a: nat, d: nat)
    requires d >= 1
    ensures Quot(a, d) == a / d && Rem(a, d) == a % d
  {
    QuotRem(a, d);
    DivMod(Quot(a, d), Rem(a, d), d);
  }

  /** A position below p*q splits into a row below p and a column below q. */
  lemma SplitPosition(t: nat, p: nat, q: nat) returns (a: nat, b: nat)
    requires t < p * q
    ensures a < p && b < q && t == a * q + b
  {
    a, b := t / q, t % q;
    if a >= p {
      MulMono(p, a, q);
    }
  }

}
