/**
 * What the finished DecompositionChain looks like: a single root, one
 * level per coarsening pass plus the leaves, each level partitioning the
 * next finer one, and the same total measure on every level.
 */
module ChainProofs {
  import opened Common
  import opened Sums
  import opened Grouping
  import opened Decomposition
  import opened DecompositionProofs
  import opened Conservation
  import opened CostHierarchy

  /** The levels built from an S x S level, finest first, ending in a single node. */
  lemma {:induction false} LevelsFromShape(nodes: seq<DataNode>, S: nat, cs: nat)
    requires S >= 1 && cs >= 2 && |nodes| == S * S && IndexedByPosition(nodes)
    ensures |LevelsFrom(nodes, S, cs)| == Depth(S, cs) == |Resolutions(S, cs)|
    ensures forall l :: 0 <= l < |LevelsFrom(nodes, S, cs)| ==>
              |LevelsFrom(nodes, S, cs)[l]| == Resolutions(S, cs)[l] * Resolutions(S, cs)[l]
    ensures |LevelsFrom(nodes, S, cs)[|LevelsFrom(nodes, S, cs)| - 1]| == 1
    ensures forall l :: 0 <= l < |LevelsFrom(nodes, S, cs)| ==>
              IndexedByPosition(LevelsFrom(nodes, S, cs)[l]) &&
              TotalMeasure(LevelsFrom(nodes, S, cs)[l]) == TotalMeasure(nodes)
    ensures forall l :: 0 <= l < |LevelsFrom(nodes, S, cs)| - 1 ==>
              Refines(LevelsFrom(nodes, S, cs)[l + 1], LevelsFrom(nodes, S, cs)[l]) &&
              Covers(LevelsFrom(nodes, S, cs)[l + 1], LevelsFrom(nodes, S, cs)[l])
    decreases S
  {
    if S > 1 {
      var L := LevelsFrom(nodes, S, cs);
      var P := ParentLevel(nodes, S, cs);
      var n := |Groups(S, cs)|;
      GroupsShrink(S, cs);
      ParentLevelPartitions(nodes, S, cs);
      ParentLevelConserves(nodes, S, cs);
      LevelsFromShape(P, n, cs);
      var rest := LevelsFrom(P, n, cs);
      assert L == [nodes] + rest;
      assert Resolutions(S, cs) == [S] + Resolutions(n, cs);
      LevelsFromHead(P, n, cs);
      forall l | 0 <= l < |L| - 1
        ensures Refines(L[l + 1], L[l]) && Covers(L[l + 1], L[l])
      {
        if l > 0 {
          assert L[l + 1] == rest[l] && L[l] == rest[l - 1];
        }
      }
    }
  }

  lemma SumSingle(x: real)
    ensures Sum([x]) == x
  {
    assert [x][..0] == [];
  }

  /** Reversing and numbering turns "each level refines into the previous one" into the chain's order. */
  lemma NumberedShape(L: seq<seq<DataNode>>, total: real)
    requires |L| >= 1 && |L[|L| - 1]| == 1
    requires forall l :: 0 <= l < |L| ==> IndexedByPosition(L[l]) && TotalMeasure(L[l]) == total
    requires forall l :: 0 <= l < |L| - 1 ==> Refines(L[l + 1], L[l]) && Covers(L[l + 1], L[l])
    ensures |Numbered(L)| == |L| && Numbered(L)[|L| - 1].nodes == L[0]
    ensures WellFormedChain(Numbered(L))
    ensures Numbered(L)[0].nodes[0].measure == total
    ensures forall l :: 0 <= l < |L| ==>
              Numbered(L)[l].level == l &&
              IndexedByPosition(Numbered(L)[l].nodes) &&
              TotalMeasure(Numbered(L)[l].nodes) == total
    ensures forall l :: 0 <= l < |L| - 1 ==> Covers(Numbered(L)[l].nodes, Numbered(L)[l + 1].nodes)
  {
    var C := Numbered(L);
    var d := |L|;
    forall l | 0 <= l < d - 1
      ensures Refines(C[l].nodes, C[l + 1].nodes) && Covers(C[l].nodes, C[l + 1].nodes)
    {
      var k := d - 2 - l;
      assert C[l].nodes == L[k + 1] && C[l + 1].nodes == L[k];
    }
    var root := C[0].nodes;
    assert root == [root[0]];
    SumSingle(root[0].measure);
  }

  /**
   * The chain of the constructor: level l is numbered l, level 0 is the
   * single root carrying the whole mass, the last level is the leaves, and
   * every level partitions the next finer one.
   */
  lemma ChainShape(X: seq<seq<real>>, res: nat, cs: nat)
    requires IsGrid(X, res) && res >= 1 && cs >= 2
    ensures |Chain(X, res, cs)| == Depth(res, cs)
    ensures WellFormedChain(Chain(X, res, cs))
    ensures Chain(X, res, cs)[|Chain(X, res, cs)| - 1].nodes == Leaves(X, res)
    ensures Chain(X, res, cs)[0].nodes[0].measure == TotalMeasure(Leaves(X, res))
    ensures forall l :: 0 <= l < |Chain(X, res, cs)| ==>
              Chain(X, res, cs)[l].level == l &&
              IndexedByPosition(Chain(X, res, cs)[l].nodes) &&
              TotalMeasure(Chain(X, res, cs)[l].nodes) == TotalMeasure(Leaves(X, res))
    ensures forall l :: 0 <= l < |Chain(X, res, cs)| - 1 ==>
              Covers(Chain(X, res, cs)[l].nodes, Chain(X, res, cs)[l + 1].nodes)
  {
    var leaves := Leaves(X, res);
    LeavesShape(X, res);
    LevelsFromShape(leaves, res, cs);
    LevelsFromHead(leaves, res, cs);
    NumberedShape(LevelsFrom(leaves, res, cs), TotalMeasure(leaves));
  }

  /**
   * With the safety bound at res*res - 1 or more (the gateway sets it to
   * res*res), the index guard never fires: every parent index is below the
   * square of the first coarse resolution, which is below res.
   */
  lemma GuardQuiet(res: nat, cs: nat, bound: int)
    requires res >= 1 && cs >= 2 && bound >= res * res - 1
    ensures res == 1 || Sq(|Groups(res, cs)|) <= bound + 1
  {
    if res > 1 {
      GroupsShrink(res, cs);
      SquareMono(|Groups(res, cs)|, res);
    }
  }

  /** A refining level lists, for every node, a non-empty set of children in range. */
  lemma RefinesChildrenInto(coarse: seq<DataNode>, fine: seq<DataNode>)
    requires Refines(coarse, fine)
    ensures ChildrenInto(coarse, |fine|)
  {
    forall p | 0 <= p < |coarse|
      ensures |coarse[p].children| > 0
    {
      assert ValidChildren(coarse[p].children, |fine|);
    }
  }

  /** Two chains built from r x r grids, with an r^2 x r^2 cost, are what decomposeCost expects. */
  lemma ChainsReadyForCost(X: seq<seq<real>>, Y: seq<seq<real>>, res: nat, cs: nat, cost: seq<seq<real>>)
    requires IsGrid(X, res) && IsGrid(Y, res) && res >= 1 && cs >= 2
    requires IsMatrix(cost, res * res, res * res)
    ensures CostReady(cost, Chain(X, res, cs), Chain(Y, res, cs))
  {
    var Xc, Yc := Chain(X, res, cs), Chain(Y, res, cs);
    ChainShape(X, res, cs);
    ChainShape(Y, res, cs);
    LeavesShape(X, res);
    LeavesShape(Y, res);
    forall l | 0 <= l < |Xc| - 1
      ensures ChildrenInto(Xc[l].nodes, |Xc[l + 1].nodes|) && ChildrenInto(Yc[l].nodes, |Yc[l + 1].nodes|)
    {
      RefinesChildrenInto(Xc[l].nodes, Xc[l + 1].nodes);
      RefinesChildrenInto(Yc[l].nodes, Yc[l + 1].nodes);
    }
  }

  /** With res = 8 and clusterSize = 2 the chain has four levels: 8, 4, 2, 1. */
  lemma DepthOfEight()
    ensures Depth(8, 2) == 4 && Resolutions(8, 2) == [8, 4, 2, 1]
  {
    assert Groups(2, 2) == [2];
    assert Groups(4, 2) == [2, 2];
    assert Groups(8, 2) == [2, 2, 2, 2];
  }
}
