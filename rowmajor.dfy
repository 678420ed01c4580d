/**
 * The push order shared by every double loop of the constructor: an outer
 * index a = 0 .. rows-1 and an inner index b = 0 .. cols-1 append f(a, b),
 * so that element (a, b) lands at position a*cols + b.
 */
module RowMajor {
  import opened Common
  import opened Sums

  /** f(a, 0), ..., f(a, m-1): the first m pushes of outer step a. */
  function Row<T>(f: (nat, nat) -> T, a: nat, m: nat): seq<T>
  {
    if m == 0 then [] else Row(f, a, m - 1) + [f(a, m - 1)]
  }

  /** All pushes of outer steps 0 .. m-1, each of cols inner steps. */
  function Rows<T>(f: (nat, nat) -> T, cols: nat, m: nat): seq<T>
  {
    if m == 0 then [] else Rows(f, cols, m - 1) + Row(f, m - 1, cols)
  }

  lemma {:induction false} RowAt<T>(f: (nat, nat) -> T, a: nat, m: nat)
    ensures |Row(f, a, m)| == m
    ensures forall b :: 0 <= b < m ==> Row(f, a, m)[b] == f(a, b)
  {
    if m > 0 {
      RowAt(f, a, m - 1);
    }
  }

  lemma RowSnoc<T>(f: (nat, nat) -> T, a: nat, m: nat, x: T)
    requires x == f(a, m)
    ensures Row(f, a, m) + [x] == Row(f, a, m + 1)
  {
  }

  lemma RowsSnoc<T>(f: (nat, nat) -> T, cols: nat, m: nat, row: seq<T>)
    requires row == Row(f, m, cols)
    ensures Rows(f, cols, m) + row == Rows(f, cols, m + 1)
  {
  }

  lemma {:induction false} RowSize<T>(f: (nat, nat) -> T, a: nat, m: nat)
    ensures |Row(f, a, m)| == m
  {
    if m > 0 {
      RowSize(f, a, m - 1);
    }
  }

  lemma {:induction false} RowsLength<T>(f: (nat, nat) -> T, cols: nat, m: nat)
    ensures |Rows(f, cols, m)| == RowStart(m, cols)
  {
    if m > 0 {
      RowsLength(f, cols, m - 1);
      RowSize(f, m - 1, cols);
    }
  }

  lemma RowsSize<T>(f: (nat, nat) -> T, cols: nat, m: nat)
    ensures |Rows(f, cols, m)| == m * cols
  {
    RowsLength(f, cols, m);
    RowStartIsProduct(m, cols);
  }

  /** Element (a, b) sits at position RowStart(a, cols) + b. */
  lemma {:induction false} RowsAtStart<T>(f: (nat, nat) -> T, cols: nat, m: nat, a: nat, b: nat)
    requires a < m && b < cols
    ensures RowStart(a, cols) + b < |Rows(f, cols, m)|
    ensures Rows(f, cols, m)[RowStart(a, cols) + b] == f(a, b)
  {
    var prev, row := Rows(f, cols, m - 1), Row(f, m - 1, cols);
    var p := RowStart(a, cols) + b;
    assert Rows(f, cols, m) == prev + row;
    RowsLength(f, cols, m - 1);
    RowSize(f, m - 1, cols);
    if a < m - 1 {
      RowsAtStart(f, cols, m - 1, a, b);
      assert p < |prev|;
      assert (prev + row)[p] == prev[p];
    } else {
      RowAt(f, m - 1, cols);
      assert p == |prev| + b;
      assert (prev + row)[p] == row[b];
    }
  }

  /** Element (a, b) sits at position a*cols + b. */
  lemma RowsAt<T>(f: (nat, nat) -> T, cols: nat, m: nat, a: nat, b: nat)
    requires a < m && b < cols
    ensures a * cols + b < |Rows(f, cols, m)|
    ensures Rows(f, cols, m)[a * cols + b] == f(a, b)
  {
    RowsAtStart(f, cols, m, a, b);
    RowStartIsProduct(a, cols);
  }

  /** Every position is some element (a, b). */
  lemma RowsSplit<T>(f: (nat, nat) -> T, cols: nat, m: nat, p: nat) returns (a: nat, b: nat)
    requires p < |Rows(f, cols, m)|
    ensures a < m && b < cols && p == a * cols + b
    ensures Rows(f, cols, m)[p] == f(a, b)
  {
    RowsSize(f, cols, m);
    a, b := SplitPosition(p, m, cols);
    RowsAt(f, cols, m, a, b);
  }

  /** The values s lists at the positions of outer step a, as a function of the inner index. */
  function RowValues(s: seq<real>, f: (nat, nat) -> nat, a: nat): nat -> real
  {
    (b: nat) => At(s, f(a, b))
  }

  /** The total of each outer step's values, as a function of the outer index. */
  function RowTotals(s: seq<real>, f: (nat, nat) -> nat, cols: nat): nat -> real
  {
    (a: nat) => SumF(cols, RowValues(s, f, a))
  }

  lemma {:induction false} SumAtRow(s: seq<real>, f: (nat, nat) -> nat, a: nat, m: nat)
    ensures SumAt(s, Row(f, a, m)) == SumF(m, RowValues(s, f, a))
  {
    if m > 0 {
      SumAtRow(s, f, a, m - 1);
      SumAtSnoc(s, Row(f, a, m - 1), f(a, m - 1));
    }
  }

  /** The positions of outer step m - 1 add their row's total. */
  lemma SumAtRowsStep(s: seq<real>, f: (nat, nat) -> nat, cols: nat, m: nat)
    requires m > 0
    ensures SumAt(s, Rows(f, cols, m)) == SumAt(s, Rows(f, cols, m - 1)) + RowTotals(s, f, cols)(m - 1)
  {
    SumAtConcat(s, Rows(f, cols, m - 1), Row(f, m - 1, cols));
    SumAtRow(s, f, m - 1, cols);
  }

  /** Adding up the values listed at the positions Rows(f, ..) names, outer step by outer step. */
  lemma {:induction false} SumAtRows(s: seq<real>, f: (nat, nat) -> nat, cols: nat, m: nat)
    ensures SumAt(s, Rows(f, cols, m)) == SumF(m, RowTotals(s, f, cols))
  {
    if m == 0 {
      assert Rows(f, cols, m) == [];
    } else {
      SumAtRows(s, f, cols, m - 1);
      SumAtRowsStep(s, f, cols, m);
    }
  }
}
