/**
 * The transport plan on top of the two decomposition chains: every level of
 * a chain built from non-negative densities is non-negative, and the root
 * plan over the chains and their decomposed costs can be propagated as soon
 * as the X density has no more total mass than the Y density.
 */
module PlanProofs {
  import opened Common
  import opened Sums
  import opened Grouping
  import opened Decomposition
  import opened DecompositionProofs
  import opened ChainProofs
  import opened CostHierarchy
  import opened Plans
  import opened Propagation

  /** Every density value of a grid is non-negative. */
  ghost predicate NonNegativeGrid(X: seq<seq<real>>)
  {
    forall r, c :: 0 <= r < |X| && 0 <= c < |X[r]| ==> X[r][c] >= 0.0
  }

  lemma {:induction false} SumAtNonNegative(s: seq<real>, idx: seq<nat>)
    requires forall t :: 0 <= t < |idx| ==> At(s, idx[t]) >= 0.0
    ensures SumAt(s, idx) >= 0.0
  {
    if |idx| > 0 {
      SumAtNonNegative(s, idx[..|idx| - 1]);
    }
  }

  /** A level refining a non-negative level is non-negative. */
  lemma RefinesNonNegative(coarse: seq<DataNode>, fine: seq<DataNode>)
    requires Refines(coarse, fine) && NonNegative(fine)
    ensures NonNegative(coarse)
  {
    forall p | 0 <= p < |coarse|
      ensures coarse[p].measure >= 0.0
    {
      SumAtNonNegative(Measures(fine), coarse[p].children);
    }
  }

  /** Non-negative finest nodes make every level of a well-formed chain non-negative. */
  lemma {:induction false} ChainNonNegative(chain: seq<Level>, l: nat)
    requires WellFormedChain(chain) && l < |chain| && NonNegative(chain[|chain| - 1].nodes)
    ensures NonNegative(chain[l].nodes)
    decreases |chain| - l
  {
    if l < |chain| - 1 {
      ChainNonNegative(chain, l + 1);
      RefinesNonNegative(chain[l].nodes, chain[l + 1].nodes);
    }
  }

  /** Leaves of a non-negative density are non-negative. */
  lemma LeavesNonNegative(X: seq<seq<real>>, res: nat)
    requires IsGrid(X, res) && NonNegativeGrid(X)
    ensures NonNegative(Leaves(X, res))
  {
    LeavesShape(X, res);
    forall p | 0 <= p < |Leaves(X, res)|
      ensures Leaves(X, res)[p].measure >= 0.0
    {
      var i, j := SplitPosition(p, res, res);
      assert |X[j]| == res;
      assert X[j][i] >= 0.0;
    }
  }

  /** Every level of the chain of a non-negative density is non-negative. */
  lemma ChainLevelNonNegative(X: seq<seq<real>>, res: nat, cs: nat, l: nat)
    requires IsGrid(X, res) && res >= 1 && cs >= 2 && NonNegativeGrid(X)
    requires l < Depth(res, cs)
    ensures |Chain(X, res, cs)| == Depth(res, cs)
    ensures NonNegative(Chain(X, res, cs)[l].nodes)
  {
    ChainShape(X, res, cs);
    LeavesNonNegative(X, res);
    ChainNonNegative(Chain(X, res, cs), l);
  }

  /** The two coarsest levels of a chain with at least two levels. */
  lemma ChainTop(X: seq<seq<real>>, res: nat, cs: nat)
    requires IsGrid(X, res) && res >= 1 && cs >= 2 && Depth(res, cs) >= 2
    ensures |Chain(X, res, cs)| == Depth(res, cs)
    ensures WellFormedChain(Chain(X, res, cs))
    ensures Refines(Chain(X, res, cs)[0].nodes, Chain(X, res, cs)[1].nodes)
    ensures Chain(X, res, cs)[0].nodes[0].measure == TotalMeasure(Leaves(X, res))
  {
    ChainShape(X, res, cs);
  }

  /** A single root edge carrying the whole X mass into a Y root of no smaller mass is receivable. */
  lemma RootReceivable(Xc: seq<Level>, Yc: seq<Level>)
    requires WellFormedChain(Xc) && WellFormedChain(Yc)
    requires Xc[0].nodes[0].measure <= Yc[0].nodes[0].measure
    ensures Receivable([Transport(0, 0, Xc[0].nodes[0].measure)], Yc[0].nodes)
  {
    var plan := [Transport(0, 0, Xc[0].nodes[0].measure)];
    assert plan[..0] == [];
    assert InFlow(plan, 0) == Xc[0].nodes[0].measure;
  }

  /**
   * The root plan of two chains over res x res densities (res >= 2), with
   * the decomposed cost chain, a single edge carrying the root's measure
   * (the total X mass, ChainShape), satisfies what propagate needs, provided both
   * densities are non-negative and X has no more total mass than Y.
   */
  lemma RootCanPropagate(X: seq<seq<real>>, Y: seq<seq<real>>, res: nat, cs: nat,
                         cost: seq<seq<real>>, costChain: seq<seq<seq<real>>>)
    requires IsGrid(X, res) && IsGrid(Y, res) && res >= 2 && cs >= 2
    requires NonNegativeGrid(X) && NonNegativeGrid(Y)
    requires IsMatrix(cost, res * res, res * res)
    // what DecomposeCost returns for the two chains (CostReady always holds
    // here, by ChainsReadyForCost)
    requires CostReady(cost, Chain(X, res, cs), Chain(Y, res, cs))
    requires |costChain| == |Chain(X, res, cs)|
    requires forall l :: 0 <= l < |Chain(X, res, cs)| ==>
               costChain[l] == CostLevel(cost, Chain(X, res, cs), Chain(Y, res, cs), l)
    requires TotalMeasure(Leaves(X, res)) <= TotalMeasure(Leaves(Y, res))
    ensures Propagatable(Chain(X, res, cs), Chain(Y, res, cs), costChain, 0,
                         [Transport(0, 0, TotalMeasure(Leaves(X, res)))])
  {
    var Xc, Yc := Chain(X, res, cs), Chain(Y, res, cs);
    assert Depth(res, cs) >= 2;
    ChainTop(X, res, cs);
    ChainTop(Y, res, cs);
    ChainLevelNonNegative(X, res, cs, 0);
    ChainLevelNonNegative(X, res, cs, 1);
    ChainLevelNonNegative(Y, res, cs, 1);
    CostLevelShape(cost, Xc, Yc, 1);
    RootReceivable(Xc, Yc);
  }
}
