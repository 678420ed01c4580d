/**
 * decomposeCost: one cost matrix per level of the two chains. The finest
 * matrix is the input cost; a coarser entry (i, j) is the average of the
 * finer costs over every pair (child of x-node i, child of y-node j).
 */
module CostHierarchy {
  import opened Decomposition

  /** c is an r x k matrix. */
  ghost predicate IsMatrix(c: seq<seq<real>>, r: nat, k: nat)
  {
    |c| == r && forall i :: 0 <= i < r ==> |c[i]| == k
  }

  /** Every node has a child, and every child index is below n. */
  ghost predicate ChildrenInto(nodes: seq<DataNode>, n: nat)
  {
    forall p :: 0 <= p < |nodes| ==>
      |nodes[p].children| > 0 && forall t :: 0 <= t < |nodes[p].children| ==> nodes[p].children[t] < n
  }

  /**
   * What decomposeCost relies on: a non-empty X chain, a Y chain at least
   * as deep, a finest cost matrix sized by the two finest levels, and
   * children that exist and index the next finer level.
   */
  ghost predicate CostReady(cost: seq<seq<real>>, Xc: seq<Level>, Yc: seq<Level>)
  {
    && |Xc| >= 1 && |Yc| >= |Xc|
    && IsMatrix(cost, |Xc[|Xc| - 1].nodes|, |Yc[|Xc| - 1].nodes|)
    && (forall l :: 0 <= l < |Xc| - 1 ==>
          ChildrenInto(Xc[l].nodes, |Xc[l + 1].nodes|) && ChildrenInto(Yc[l].nodes, |Yc[l + 1].nodes|))
  }

  /** c[x][y], or 0 outside the matrix. */
  function Entry(c: seq<seq<real>>, x: nat, y: nat): real
  {
    if x < |c| && y < |c[x]| then c[x][y] else 0.0
  }

  /** The costs from x to every y in ys, added up. */
  function LineSum(c: seq<seq<real>>, x: nat, ys: seq<nat>): real
  {
    if |ys| == 0 then 0.0 else LineSum(c, x, ys[..|ys| - 1]) + Entry(c, x, ys[|ys| - 1])
  }

  /** costSum: the costs of every pair in xs x ys, added up. */
  function CrossSum(c: seq<seq<real>>, xs: seq<nat>, ys: seq<nat>): real
  {
    if |xs| == 0 then 0.0 else CrossSum(c, xs[..|xs| - 1], ys) + LineSum(c, xs[|xs| - 1], ys)
  }

  /** One coarse entry: costSum divided by the x child count, then by the y child count. */
  function CoarseEntry(c: seq<seq<real>>, xs: seq<nat>, ys: seq<nat>): real
    requires |xs| > 0 && |ys| > 0
  {
    CrossSum(c, xs, ys) / (|xs| as real) / (|ys| as real)
  }

  ghost predicate HasChildren(nodes: seq<DataNode>)
  {
    forall p :: 0 <= p < |nodes| ==> |nodes[p].children| > 0
  }

  /** The first m entries of the coarse row of an x-node with children xs. */
  function CostRow(c: seq<seq<real>>, xs: seq<nat>, Y: seq<DataNode>, m: nat): seq<real>
    requires |xs| > 0 && m <= |Y| && HasChildren(Y)
  {
    if m == 0 then [] else CostRow(c, xs, Y, m - 1) + [CoarseEntry(c, xs, Y[m - 1].children)]
  }

  /** The first m rows of the coarse matrix of levels X, Y. */
  function CostRows(c: seq<seq<real>>, X: seq<DataNode>, Y: seq<DataNode>, m: nat): seq<seq<real>>
    requires m <= |X| && HasChildren(X) && HasChildren(Y)
  {
    if m == 0 then [] else CostRows(c, X, Y, m - 1) + [CostRow(c, X[m - 1].children, Y, |Y|)]
  }

  /** costChain[l]: the input cost at the finest level, each coarser one averaged from the next. */
  function CostLevel(cost: seq<seq<real>>, Xc: seq<Level>, Yc: seq<Level>, l: nat): seq<seq<real>>
    requires CostReady(cost, Xc, Yc) && l < |Xc|
    decreases |Xc| - l
  {
    if l == |Xc| - 1 then cost
    else CostRows(CostLevel(cost, Xc, Yc, l + 1), Xc[l].nodes, Yc[l].nodes, |Xc[l].nodes|)
  }

  // ---------------------------------------------------------------------
  // Shape and entries.

  lemma {:induction false} CostRowAt(c: seq<seq<real>>, xs: seq<nat>, Y: seq<DataNode>, m: nat)
    requires |xs| > 0 && m <= |Y| && HasChildren(Y)
    ensures |CostRow(c, xs, Y, m)| == m
    ensures forall j :: 0 <= j < m ==> CostRow(c, xs, Y, m)[j] == CoarseEntry(c, xs, Y[j].children)
  {
    if m > 0 {
      CostRowAt(c, xs, Y, m - 1);
    }
  }

  lemma {:induction false} CostRowsAt(c: seq<seq<real>>, X: seq<DataNode>, Y: seq<DataNode>, m: nat)
    requires m <= |X| && HasChildren(X) && HasChildren(Y)
    ensures IsMatrix(CostRows(c, X, Y, m), m, |Y|)
    ensures forall i, j :: 0 <= i < m && 0 <= j < |Y| ==>
              CostRows(c, X, Y, m)[i][j] == CoarseEntry(c, X[i].children, Y[j].children)
  {
    if m > 0 {
      CostRowsAt(c, X, Y, m - 1);
      CostRowAt(c, X[m - 1].children, Y, |Y|);
    }
  }

  /**
   * costChain[l] is |X_l| x |Y_l|; the finest is the input cost, and below
   * it entry (i, j) averages the next finer matrix over the child pairs.
   */
  lemma CostLevelShape(cost: seq<seq<real>>, Xc: seq<Level>, Yc: seq<Level>, l: nat)
    requires CostReady(cost, Xc, Yc) && l < |Xc|
    ensures IsMatrix(CostLevel(cost, Xc, Yc, l), |Xc[l].nodes|, |Yc[l].nodes|)
    ensures l == |Xc| - 1 ==> CostLevel(cost, Xc, Yc, l) == cost
    ensures l < |Xc| - 1 ==> forall i, j :: 0 <= i < |Xc[l].nodes| && 0 <= j < |Yc[l].nodes| ==>
              CostLevel(cost, Xc, Yc, l)[i][j] ==
              CoarseEntry(CostLevel(cost, Xc, Yc, l + 1), Xc[l].nodes[i].children, Yc[l].nodes[j].children)
  {
    if l < |Xc| - 1 {
      CostRowsAt(CostLevel(cost, Xc, Yc, l + 1), Xc[l].nodes, Yc[l].nodes, |Xc[l].nodes|);
    }
  }

  // ---------------------------------------------------------------------
  // Averages stay within the range of what they average.

  ghost predicate Within(c: seq<seq<real>>, lo: real, hi: real)
  {
    forall i, j :: 0 <= i < |c| && 0 <= j < |c[i]| ==> lo <= c[i][j] <= hi
  }

  /** Every pair of xs x ys names an entry of c. */
  ghost predicate PairsInside(c: seq<seq<real>>, xs: seq<nat>, ys: seq<nat>)
  {
    (forall t :: 0 <= t < |xs| ==> xs[t] < |c|) &&
    (forall t, u :: 0 <= t < |xs| && 0 <= u < |ys| ==> ys[u] < |c[xs[t]]|)
  }

  /** n copies of x added up, so that the bounds below stay linear. */
  function Scale(n: nat, x: real): real
  {
    if n == 0 then 0.0 else Scale(n - 1, x) + x
  }

  lemma {:induction false} ScaleIsProduct(n: nat, x: real)
    ensures Scale(n, x) == (n as real) * x
  {
    if n > 0 {
      ScaleIsProduct(n - 1, x);
    }
  }

  lemma {:induction false} LineSumBounds(c: seq<seq<real>>, x: nat, ys: seq<nat>, lo: real, hi: real)
    requires Within(c, lo, hi) && x < |c| && forall u :: 0 <= u < |ys| ==> ys[u] < |c[x]|
    ensures Scale(|ys|, lo) <= LineSum(c, x, ys) <= Scale(|ys|, hi)
  {
    if |ys| > 0 {
      LineSumBounds(c, x, ys[..|ys| - 1], lo, hi);
    }
  }

  lemma {:induction false} CrossSumBounds(c: seq<seq<real>>, xs: seq<nat>, ys: seq<nat>, L: real, H: real)
    requires forall t :: 0 <= t < |xs| ==> L <= LineSum(c, xs[t], ys) <= H
    ensures Scale(|xs|, L) <= CrossSum(c, xs, ys) <= Scale(|xs|, H)
  {
    if |xs| > 0 {
      CrossSumBounds(c, xs[..|xs| - 1], ys, L, H);
    }
  }

  lemma LineSumsBounds(c: seq<seq<real>>, xs: seq<nat>, ys: seq<nat>, lo: real, hi: real)
    requires Within(c, lo, hi) && PairsInside(c, xs, ys)
    ensures forall t :: 0 <= t < |xs| ==> Scale(|ys|, lo) <= LineSum(c, xs[t], ys) <= Scale(|ys|, hi)
  {
    forall t | 0 <= t < |xs|
      ensures Scale(|ys|, lo) <= LineSum(c, xs[t], ys) <= Scale(|ys|, hi)
    {
      LineSumBounds(c, xs[t], ys, lo, hi);
    }
  }

  /** q = s / a / b lies between lo and hi when s lies between a*(b*lo) and a*(b*hi). */
  lemma DivBounds(s: real, a: real, b: real, lo: real, hi: real)
    requires a > 0.0 && b > 0.0 && a * (b * lo) <= s <= a * (b * hi)
    ensures lo <= s / a / b <= hi
  {
    var q := s / a / b;
    assert q * b == s / a;
    assert a * (b * q) == s;
    assert a * (b * (q - lo)) >= 0.0;
    assert a * (b * (hi - q)) >= 0.0;
  }

  /** An average over n*m values, each between lo and hi, lies between lo and hi. */
  lemma AverageBounds(s: real, n: nat, m: nat, lo: real, hi: real)
    requires n > 0 && m > 0 && Scale(n, Scale(m, lo)) <= s <= Scale(n, Scale(m, hi))
    ensures lo <= s / (n as real) / (m as real) <= hi
  {
    ScaleIsProduct(m, lo);
    ScaleIsProduct(m, hi);
    ScaleIsProduct(n, Scale(m, lo));
    ScaleIsProduct(n, Scale(m, hi));
    DivBounds(s, n as real, m as real, lo, hi);
  }

  lemma CoarseEntryBounds(c: seq<seq<real>>, xs: seq<nat>, ys: seq<nat>, lo: real, hi: real)
    requires Within(c, lo, hi) && PairsInside(c, xs, ys) && |xs| > 0 && |ys| > 0
    ensures lo <= CoarseEntry(c, xs, ys) <= hi
  {
    LineSumsBounds(c, xs, ys, lo, hi);
    CrossSumBounds(c, xs, ys, Scale(|ys|, lo), Scale(|ys|, hi));
    AverageBounds(CrossSum(c, xs, ys), |xs|, |ys|, lo, hi);
  }

  /** When every finest cost lies in [lo, hi], so does every entry of every coarser cost matrix. */
  lemma {:induction false} CostLevelBounds(cost: seq<seq<real>>, Xc: seq<Level>, Yc: seq<Level>, l: nat, lo: real, hi: real)
    requires CostReady(cost, Xc, Yc) && l < |Xc| && Within(cost, lo, hi)
    ensures Within(CostLevel(cost, Xc, Yc, l), lo, hi)
    decreases |Xc| - l
  {
    if l < |Xc| - 1 {
      var fine := CostLevel(cost, Xc, Yc, l + 1);
      CostLevelBounds(cost, Xc, Yc, l + 1, lo, hi);
      CostLevelShape(cost, Xc, Yc, l + 1);
      CostLevelShape(cost, Xc, Yc, l);
      var X, Y := Xc[l].nodes, Yc[l].nodes;
      forall i, j | 0 <= i < |X| && 0 <= j < |Y|
        ensures lo <= CostLevel(cost, Xc, Yc, l)[i][j] <= hi
      {
        CoarseEntryBounds(fine, X[i].children, Y[j].children, lo, hi);
      }
    }
  }

  // ---------------------------------------------------------------------
  // The loops of decomposeCost.

  /** The two innermost loops: costSum over every child pair. */
  method PairCostSum(fine: seq<seq<real>>, xs: seq<nat>, ys: seq<nat>) returns (costSum: real)
    requires PairsInside(fine, xs, ys)
    ensures costSum == CrossSum(fine, xs, ys)
  {
    costSum := 0.0;
    for t := 0 to |xs|
      invariant costSum == CrossSum(fine, xs[..t], ys)
    {
      assert xs[..t + 1][..t] == xs[..t];
      ghost var base := costSum;
      for u := 0 to |ys|
        invariant costSum == base + LineSum(fine, xs[t], ys[..u])
      {
        assert ys[..u + 1][..u] == ys[..u];
        costSum := costSum + fine[xs[t]][ys[u]];
      }
      assert ys[..|ys|] == ys;
    }
    assert xs[..|xs|] == xs;
  }

  /** The loops over x-nodes i and y-nodes j that fill costChain[l] from costChain[l+1]. */
  method CoarsenCost(fine: seq<seq<real>>, X: seq<DataNode>, Y: seq<DataNode>, rows: nat, cols: nat)
    returns (coarse: seq<seq<real>>)
    requires IsMatrix(fine, rows, cols) && ChildrenInto(X, rows) && ChildrenInto(Y, cols)
    ensures coarse == CostRows(fine, X, Y, |X|)
  {
    coarse := [];
    for i := 0 to |X|
      invariant coarse == CostRows(fine, X, Y, i)
    {
      var xNodeChildren := X[i].children;
      var row: seq<real> := [];
      for j := 0 to |Y|
        invariant row == CostRow(fine, xNodeChildren, Y, j)
      {
        var yNodeChildren := Y[j].children;
        var costSum := PairCostSum(fine, xNodeChildren, yNodeChildren);
        row := row + [costSum / (|xNodeChildren| as real) / (|yNodeChildren| as real)];
      }
      coarse := coarse + [row];
    }
  }

  /** decomposeCost: costChain[depth-1] is the input cost, then levels depth-2 down to 0. */
  method DecomposeCost(cost: seq<seq<real>>, Xc: seq<Level>, Yc: seq<Level>) returns (costChain: seq<seq<seq<real>>>)
    requires CostReady(cost, Xc, Yc)
    ensures |costChain| == |Xc|
    ensures forall l :: 0 <= l < |Xc| ==> costChain[l] == CostLevel(cost, Xc, Yc, l)
  {
    var depth := |Xc|;
    var chain := new seq<seq<real>>[depth];
    chain[depth - 1] := cost;
    for l := depth - 1 downto 0
      invariant forall t :: l <= t < depth ==> chain[t] == CostLevel(cost, Xc, Yc, t)
    {
      CostLevelShape(cost, Xc, Yc, l + 1);
      var coarse := CoarsenCost(chain[l + 1], Xc[l].nodes, Yc[l].nodes, |Xc[l + 1].nodes|, |Yc[l + 1].nodes|);
      chain[l] := coarse;
    }
    costChain := chain[..];
  }
}
