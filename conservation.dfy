/**
 * Mass conservation of the coarsening pass: the measures of the parent
 * level add up to the measures of the finer level, because every parent
 * carries the total of its children and the children of all parents tile
 * the S x S grid exactly once.
 */
module Conservation {
  import opened Common
  import opened Sums
  import opened Grouping
  import opened RowMajor
  import opened Decomposition

  // ---------------------------------------------------------------------
  // Totals of a level laid out row by row.

  function MeasureValues(f: (nat, nat) -> DataNode, a: nat): nat -> real
  {
    (b: nat) => f(a, b).measure
  }

  function MeasureTotals(f: (nat, nat) -> DataNode, cols: nat): nat -> real
  {
    (a: nat) => SumF(cols, MeasureValues(f, a))
  }

  lemma MeasuresConcat(u: seq<DataNode>, v: seq<DataNode>)
    ensures Measures(u + v) == Measures(u) + Measures(v)
  {
  }

  lemma {:induction false} TotalRow(f: (nat, nat) -> DataNode, a: nat, m: nat)
    ensures TotalMeasure(Row(f, a, m)) == SumF(m, MeasureValues(f, a))
  {
    if m > 0 {
      TotalRow(f, a, m - 1);
      MeasuresConcat(Row(f, a, m - 1), [f(a, m - 1)]);
      SumSnoc(Measures(Row(f, a, m - 1)), f(a, m - 1).measure);
    }
  }

  lemma {:induction false} TotalRows(f: (nat, nat) -> DataNode, cols: nat, m: nat)
    ensures TotalMeasure(Rows(f, cols, m)) == SumF(m, MeasureTotals(f, cols))
  {
    if m == 0 {
      assert Rows(f, cols, m) == [];
    } else {
      TotalRows(f, cols, m - 1);
      MeasuresConcat(Rows(f, cols, m - 1), Row(f, m - 1, cols));
      SumConcat(Measures(Rows(f, cols, m - 1)), Measures(Row(f, m - 1, cols)));
      TotalRow(f, m - 1, cols);
    }
  }

  // ---------------------------------------------------------------------
  // Summing group by group, and row by row.

  /** The total of h over group j of the partition of S. */
  function GroupTerm(S: nat, cs: nat, h: nat -> real): nat -> real
    requires cs >= 2
  {
    (j: nat) => SumF(GroupSize(S, cs, j), Shift(h, j * cs))
  }

  lemma GroupTermShift(S: nat, cs: nat, h: nat -> real, j: nat)
    requires cs >= 2 && S >= 2 * cs
    ensures Shift(GroupTerm(S, cs, h), 1)(j) == GroupTerm(S - cs, cs, Shift(h, cs))(j)
  {
    MulSucc(j, cs);
    SumFExt(GroupSize(S - cs, cs, j), Shift(h, (1 + j) * cs), Shift(Shift(h, cs), j * cs));
  }

  lemma GroupTermFirst(S: nat, cs: nat, h: nat -> real)
    requires cs >= 2
    ensures SumF(1, GroupTerm(S, cs, h)) == SumF(Groups(S, cs)[0], h)
  {
    assert SumF(1, GroupTerm(S, cs, h)) == GroupTerm(S, cs, h)(0);
    SumFExt(Groups(S, cs)[0], Shift(h, 0 * cs), h);
  }

  lemma GroupTermRest(S: nat, cs: nat, h: nat -> real)
    requires cs >= 2 && S >= 2 * cs
    ensures |Groups(S, cs)| == 1 + |Groups(S - cs, cs)|
    ensures SumF(|Groups(S - cs, cs)|, Shift(GroupTerm(S, cs, h), 1))
         == SumF(|Groups(S - cs, cs)|, GroupTerm(S - cs, cs, Shift(h, cs)))
  {
    var m := |Groups(S - cs, cs)|;
    forall j: nat | j < m
      ensures Shift(GroupTerm(S, cs, h), 1)(j) == GroupTerm(S - cs, cs, Shift(h, cs))(j)
    {
      GroupTermShift(S, cs, h, j);
    }
    SumFExt(m, Shift(GroupTerm(S, cs, h), 1), GroupTerm(S - cs, cs, Shift(h, cs)));
  }

  /** Adding up group totals over the partition of S adds up h over [0, S). */
  lemma {:induction false} GroupedSum(S: nat, cs: nat, h: nat -> real)
    requires cs >= 2
    ensures SumF(|Groups(S, cs)|, GroupTerm(S, cs, h)) == SumF(S, h)
    decreases S
  {
    if S >= 2 * cs {
      GroupedSum(S - cs, cs, Shift(h, cs));
      GroupedSumStep(S, cs, h);
    } else {
      GroupedSumSingle(S, cs, h);
    }
  }

  /** The first group, then the groups of the rest. */
  lemma GroupedSumStep(S: nat, cs: nat, h: nat -> real)
    requires cs >= 2 && S >= 2 * cs
    requires SumF(|Groups(S - cs, cs)|, GroupTerm(S - cs, cs, Shift(h, cs))) == SumF(S - cs, Shift(h, cs))
    ensures SumF(|Groups(S, cs)|, GroupTerm(S, cs, h)) == SumF(S, h)
  {
    var n, gt := |Groups(S, cs)|, GroupTerm(S, cs, h);
    GroupTermFirst(S, cs, h);
    GroupTermRest(S, cs, h);
    SumFSplitAt(n, 1, gt);
    SumFSplitAt(S, cs, h);
    assert Groups(S, cs)[0] == cs;
  }

  lemma GroupedSumSingle(S: nat, cs: nat, h: nat -> real)
    requires cs >= 2 && S < 2 * cs
    ensures SumF(|Groups(S, cs)|, GroupTerm(S, cs, h)) == SumF(S, h)
  {
    GroupTermFirst(S, cs, h);
    assert Groups(S, cs) == [S];
  }

  /** Row r of an S-wide grid stored row-major in ms. */
  function Col(ms: seq<real>, S: nat, r: nat): nat -> real
  {
    (q: nat) => At(ms, q + r * S)
  }

  function RowSum(ms: seq<real>, S: nat): nat -> real
  {
    (r: nat) => SumF(S, Col(ms, S, r))
  }

  lemma {:induction false} GridSum(ms: seq<real>, S: nat, m: nat)
    ensures SumF(m * S, Entries(ms)) == SumF(m, RowSum(ms, S))
  {
    if m > 0 {
      GridSum(ms, S, m - 1);
      MulSucc(m - 1, S);
      SumFSplit((m - 1) * S, S, Entries(ms));
      SumFExt(S, Shift(Entries(ms), (m - 1) * S), Col(ms, S, m - 1));
    }
  }

  // ---------------------------------------------------------------------
  // One coarsening pass.

  /** Child (k, l) of parent (a, b) read in ms, summed over l, as a function of (b, k). */
  function Quad(ms: seq<real>, S: nat, cs: nat, a: nat): (nat, nat) -> real
    requires cs >= 2
  {
    (b: nat, k: nat) => RowTotals(ms, ChildF(S, cs, a, b), GroupSize(S, cs, b))(k)
  }

  lemma ParentMeasureAsQuad(fine: seq<DataNode>, S: nat, cs: nat, a: nat, b: nat)
    requires cs >= 2
    ensures MeasureValues(ParentF(fine, S, cs), a)(b) == Outer(Quad(Measures(fine), S, cs, a), GroupSize(S, cs, a))(b)
  {
    var ms := Measures(fine);
    SumAtRows(ms, ChildF(S, cs, a, b), GroupSize(S, cs, b), GroupSize(S, cs, a));
    SumFExt(GroupSize(S, cs, a), Curry(Quad(ms, S, cs, a), b), RowTotals(ms, ChildF(S, cs, a, b), GroupSize(S, cs, b)));
  }

  lemma QuadInner(ms: seq<real>, S: nat, cs: nat, a: nat, b: nat, k: nat)
    requires cs >= 2
    ensures Curry(Flip(Quad(ms, S, cs, a)), k)(b) == GroupTerm(S, cs, Col(ms, S, a * cs + k))(b)
  {
    var w := GroupSize(S, cs, b);
    SumFExt(w, RowValues(ms, ChildF(S, cs, a, b), k), Shift(Col(ms, S, a * cs + k), b * cs));
    calc {
      Curry(Flip(Quad(ms, S, cs, a)), k)(b);
      Quad(ms, S, cs, a)(b, k);
      RowTotals(ms, ChildF(S, cs, a, b), w)(k);
      SumF(w, RowValues(ms, ChildF(S, cs, a, b), k));
      SumF(w, Shift(Col(ms, S, a * cs + k), b * cs));
    }
  }

  lemma QuadColumn(ms: seq<real>, S: nat, cs: nat, a: nat, k: nat)
    requires cs >= 2
    ensures Outer(Flip(Quad(ms, S, cs, a)), |Groups(S, cs)|)(k) == Shift(RowSum(ms, S), a * cs)(k)
  {
    var n := |Groups(S, cs)|;
    forall b: nat | b < n
      ensures Curry(Flip(Quad(ms, S, cs, a)), k)(b) == GroupTerm(S, cs, Col(ms, S, a * cs + k))(b)
    {
      QuadInner(ms, S, cs, a, b, k);
    }
    SumFExt(n, Curry(Flip(Quad(ms, S, cs, a)), k), GroupTerm(S, cs, Col(ms, S, a * cs + k)));
    GroupedSum(S, cs, Col(ms, S, a * cs + k));
  }

  /** The parents of group row a carry the total of fine rows a*cs .. a*cs + g[a] - 1. */
  lemma ParentRowTotal(fine: seq<DataNode>, S: nat, cs: nat, a: nat)
    requires cs >= 2
    ensures MeasureTotals(ParentF(fine, S, cs), |Groups(S, cs)|)(a) == GroupTerm(S, cs, RowSum(Measures(fine), S))(a)
  {
    var ms := Measures(fine);
    var n := |Groups(S, cs)|;
    var F := Quad(ms, S, cs, a);
    forall b: nat | b < n
      ensures MeasureValues(ParentF(fine, S, cs), a)(b) == Outer(F, GroupSize(S, cs, a))(b)
    {
      ParentMeasureAsQuad(fine, S, cs, a, b);
    }
    SumFExt(n, MeasureValues(ParentF(fine, S, cs), a), Outer(F, GroupSize(S, cs, a)));
    Fubini(n, GroupSize(S, cs, a), F);
    forall k: nat | k < GroupSize(S, cs, a)
      ensures Outer(Flip(F), n)(k) == Shift(RowSum(ms, S), a * cs)(k)
    {
      QuadColumn(ms, S, cs, a, k);
    }
    SumFExt(GroupSize(S, cs, a), Outer(Flip(F), n), Shift(RowSum(ms, S), a * cs));
  }

  /** One coarsening pass conserves the total measure. */
  lemma ParentLevelConserves(fine: seq<DataNode>, S: nat, cs: nat)
    requires cs >= 2 && |fine| == S * S
    ensures TotalMeasure(ParentLevel(fine, S, cs)) == TotalMeasure(fine)
  {
    var ms := Measures(fine);
    var n := |Groups(S, cs)|;
    TotalRows(ParentF(fine, S, cs), n, n);
    forall a: nat | a < n
      ensures MeasureTotals(ParentF(fine, S, cs), n)(a) == GroupTerm(S, cs, RowSum(ms, S))(a)
    {
      ParentRowTotal(fine, S, cs, a);
    }
    SumFExt(n, MeasureTotals(ParentF(fine, S, cs), n), GroupTerm(S, cs, RowSum(ms, S)));
    GroupedSum(S, cs, RowSum(ms, S));
    GridSum(ms, S, S);
    SumAsSumF(ms);
  }
}
