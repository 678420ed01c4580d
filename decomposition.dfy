/**
 * DecompositionChain: the hierarchy of DataNodes built from an r x r density
 * grid. Nodes are values; a node's children are the indices of its children
 * in the next finer level, and every node's index equals its position in its
 * level, so an index plays the role of the C++ DataNode pointer.
 *
 * The spec functions below follow the push_back order of the constructor;
 * the methods follow its loops and are proved to build exactly those values.
 */
module Decomposition {
  import opened Common
  import opened Sums
  import opened Grouping
  import opened RowMajor

  /** A DataNode without its (floating, unused) center. Leaves have no children. */
  datatype DataNode = DataNode(measure: real, children: seq<nat>, index: int)

  /** A Decomposition: its level number and its nodes in construction order. */
  datatype Level = Level(level: nat, nodes: seq<DataNode>)

  function Measures(nodes: seq<DataNode>): (ms: seq<real>)
    ensures |ms| == |nodes|
    ensures forall p :: 0 <= p < |nodes| ==> ms[p] == nodes[p].measure
  {
    seq(|nodes|, p requires 0 <= p < |nodes| => nodes[p].measure)
  }

  function TotalMeasure(nodes: seq<DataNode>): real
  {
    Sum(Measures(nodes))
  }

  /** X is an r x r grid, X[j][i] the density at (j, i). */
  ghost predicate IsGrid(X: seq<seq<real>>, res: nat)
  {
    |X| == res && forall r :: 0 <= r < res ==> |X[r]| == res
  }

  ghost predicate IndexedByPosition(nodes: seq<DataNode>)
  {
    forall p :: 0 <= p < |nodes| ==> nodes[p].index == p
  }

  /** A child list: non-empty, in range of the finer level, no index twice. */
  ghost predicate ValidChildren(ch: seq<nat>, n: nat)
  {
    |ch| > 0 && (forall t :: 0 <= t < |ch| ==> ch[t] < n) && Distinct(ch)
  }

  /**
   * coarse is built from fine: every node has valid children, two nodes
   * never share a child, and a node's measure is its children's total.
   */
  ghost predicate Refines(coarse: seq<DataNode>, fine: seq<DataNode>)
  {
    && (forall p :: 0 <= p < |coarse| ==> ValidChildren(coarse[p].children, |fine|))
    && (forall p, q, c :: 0 <= p < q < |coarse| && c in coarse[p].children ==> c !in coarse[q].children)
    && (forall p :: 0 <= p < |coarse| ==> coarse[p].measure == SumAt(Measures(fine), coarse[p].children))
  }

  /** Some node of coarse lists fine index c among its children. */
  ghost predicate HasParent(coarse: seq<DataNode>, c: nat)
  {
    exists p :: 0 <= p < |coarse| && c in coarse[p].children
  }

  /** Every fine node is somebody's child. */
  ghost predicate Covers(coarse: seq<DataNode>, fine: seq<DataNode>)
  {
    forall c: nat :: c < |fine| ==> HasParent(coarse, c)
  }

  /** The shape every chain built by the constructor has: one root, each level refining into the next. */
  ghost predicate WellFormedChain(chain: seq<Level>)
  {
    && |chain| >= 1
    && |chain[0].nodes| == 1
    && (forall l :: 0 <= l < |chain| - 1 ==> Refines(chain[l].nodes, chain[l + 1].nodes))
  }

  // ---------------------------------------------------------------------
  // Leaves: for i, for j: push DataNode(X[j][i], (j, i), j + i*res).

  /** X[j][i], or 0 outside the grid. */
  function Cell(X: seq<seq<real>>, j: nat, i: nat): real
  {
    if j < |X| && i < |X[j]| then X[j][i] else 0.0
  }

  /** The leaf pushed at outer step i, inner step j. */
  function LeafF(X: seq<seq<real>>, res: nat): (nat, nat) -> DataNode
  {
    (i: nat, j: nat) => DataNode(Cell(X, j, i), [], j + i * res)
  }

  function Leaves(X: seq<seq<real>>, res: nat): seq<DataNode>
  {
    Rows(LeafF(X, res), res, res)
  }

  // ---------------------------------------------------------------------
  // One coarsening step over a fine level of scaled resolution S.

  /** The child pushed for parent (i, j) at outer step k, inner step l. */
  function ChildF(S: nat, cs: nat, i: nat, j: nat): (nat, nat) -> nat
  {
    (k: nat, l: nat) => ChildIndex(S, cs, i, j, k, l)
  }

  /** The children of parent (i, j): k over group i, l over group j. */
  function Children(S: nat, cs: nat, i: nat, j: nat): seq<nat>
    requires cs >= 2
  {
    Rows(ChildF(S, cs, i, j), GroupSize(S, cs, j), GroupSize(S, cs, i))
  }

  function ParentNode(fine: seq<DataNode>, S: nat, cs: nat, i: nat, j: nat): DataNode
    requires cs >= 2
  {
    var ch := Children(S, cs, i, j);
    DataNode(SumAt(Measures(fine), ch), ch, j + i * |Groups(S, cs)|)
  }

  /** The parent pushed at outer step i, inner step j. */
  function ParentF(fine: seq<DataNode>, S: nat, cs: nat): (nat, nat) -> DataNode
    requires cs >= 2
  {
    (i: nat, j: nat) => ParentNode(fine, S, cs, i, j)
  }

  /** parentDataNodes of one pass of the coarsening loop. */
  function ParentLevel(fine: seq<DataNode>, S: nat, cs: nat): seq<DataNode>
    requires cs >= 2
  {
    Rows(ParentF(fine, S, cs), |Groups(S, cs)|, |Groups(S, cs)|)
  }

  /** The levels in the order they are built: finest first, one root last. */
  function LevelsFrom(nodes: seq<DataNode>, S: nat, cs: nat): seq<seq<DataNode>>
    requires S >= 1 && cs >= 2
    decreases S
  {
    if S == 1 then [nodes]
    else
      GroupsShrink(S, cs);
      [nodes] + LevelsFrom(ParentLevel(nodes, S, cs), |Groups(S, cs)|, cs)
  }

  /** The scaled resolution of each built level, finest first. */
  function Resolutions(S: nat, cs: nat): seq<nat>
    requires S >= 1 && cs >= 2
    decreases S
  {
    if S == 1 then [1]
    else
      GroupsShrink(S, cs);
      [S] + Resolutions(|Groups(S, cs)|, cs)
  }

  /** Built levels reversed, so that level 0 is the last one built, and numbered. */
  function Numbered(built: seq<seq<DataNode>>): seq<Level>
  {
    seq(|built|, l requires 0 <= l < |built| => Level(l, built[|built| - 1 - l]))
  }

  /** The finished chain: the levels in build order, reversed and numbered. */
  function Chain(X: seq<seq<real>>, res: nat, cs: nat): seq<Level>
    requires res >= 1 && cs >= 2
  {
    Numbered(LevelsFrom(Leaves(X, res), res, cs))
  }

  // ---------------------------------------------------------------------
  // Facts the building loop needs.

  lemma {:induction false} LevelsFromHead(nodes: seq<DataNode>, S: nat, cs: nat)
    requires S >= 1 && cs >= 2
    ensures |LevelsFrom(nodes, S, cs)| >= 1 && LevelsFrom(nodes, S, cs)[0] == nodes
  {
  }

  lemma LevelsFromStep(nodes: seq<DataNode>, S: nat, cs: nat)
    requires S > 1 && cs >= 2
    ensures LevelsFrom(nodes, S, cs)[1..] == [ParentLevel(nodes, S, cs)] + LevelsFrom(ParentLevel(nodes, S, cs), |Groups(S, cs)|, cs)[1..]
  {
    LevelsFromHead(ParentLevel(nodes, S, cs), |Groups(S, cs)|, cs);
  }

  /** The bookkeeping of one pass: the built prefix grows by the new parent level. */
  lemma CoarsenStep(built: seq<seq<DataNode>>, nodes: seq<DataNode>, S: nat, cs: nat, full: seq<seq<DataNode>>)
    requires S > 1 && cs >= 2
    requires built + LevelsFrom(nodes, S, cs)[1..] == full
    ensures (built + [ParentLevel(nodes, S, cs)]) + LevelsFrom(ParentLevel(nodes, S, cs), |Groups(S, cs)|, cs)[1..] == full
  {
    LevelsFromStep(nodes, S, cs);
  }

  // ---------------------------------------------------------------------
  // The constructor, loop by loop.

  /** The guard of the internal-node constructor: an index above the bound throws. */
  function NewInternal(measure: real, children: seq<nat>, index: int, bound: int): (r: Result<DataNode>)
    ensures r.Err? <==> index > bound
    ensures r.Err? ==> r.error == ConstructionError
    ensures r.Ok? ==> r.value.measure == measure && r.value.children == children && r.value.index == index
  {
    if index > bound then Err(ConstructionError) else Ok(DataNode(measure, children, index))
  }

  /** The double loop that visits the grid and pushes one leaf per cell. */
  method BuildLeaves(X: seq<seq<real>>, res: nat) returns (nodes: seq<DataNode>)
    requires IsGrid(X, res)
    ensures nodes == Leaves(X, res)
  {
    nodes := [];
    for i := 0 to res
      invariant nodes == Rows(LeafF(X, res), res, i)
    {
      for j := 0 to res
        invariant nodes == Rows(LeafF(X, res), res, i) + Row(LeafF(X, res), i, j)
      {
        var leaf := DataNode(X[j][i], [], j + i * res);
        RowSnoc(LeafF(X, res), i, j, leaf);
        nodes := nodes + [leaf];
      }
    }
  }

  /** The innermost loop: appends the children (k, l), l = 0 .. g[j]-1, adding up their measures. */
  method GatherRun(dataNodes: seq<DataNode>, S: nat, cs: nat, i: nat, j: nat, k: nat,
                   measure0: real, children0: seq<nat>)
    returns (measure: real, children: seq<nat>)
    requires cs >= 2 && |dataNodes| == S * S
    requires i < |Groups(S, cs)| && j < |Groups(S, cs)| && k < Groups(S, cs)[i]
    requires measure0 == SumAt(Measures(dataNodes), children0)
    ensures children == children0 + Row(ChildF(S, cs, i, j), k, GroupSize(S, cs, j))
    ensures measure == SumAt(Measures(dataNodes), children)
  {
    ghost var ms := Measures(dataNodes);
    ghost var f := ChildF(S, cs, i, j);
    measure, children := measure0, children0;
    for l := 0 to Groups(S, cs)[j]
      invariant children == children0 + Row(f, k, l)
      invariant measure == SumAt(ms, children)
    {
      var index := ChildIndex(S, cs, i, j, k, l);
      ChildIndexInRange(S, cs, i, j, k, l);
      RowSnoc(f, k, l, index);
      SumAtSnoc(ms, children, index);
      measure := measure + dataNodes[index].measure;
      children := children + [index];
    }
  }

  /** Collects the children of parent (i, j) and sums their measures. */
  method GatherChildren(dataNodes: seq<DataNode>, S: nat, cs: nat, i: nat, j: nat)
    returns (measure: real, children: seq<nat>)
    requires cs >= 2 && |dataNodes| == S * S
    requires i < |Groups(S, cs)| && j < |Groups(S, cs)|
    ensures children == Children(S, cs, i, j)
    ensures measure == SumAt(Measures(dataNodes), children)
  {
    measure, children := 0.0, [];
    for k := 0 to Groups(S, cs)[i]
      invariant children == Rows(ChildF(S, cs, i, j), GroupSize(S, cs, j), k)
      invariant measure == SumAt(Measures(dataNodes), children)
    {
      measure, children := GatherRun(dataNodes, S, cs, i, j, k, measure, children);
    }
  }

  /**
   * f lists the parents of one pass: f(i, j) is the parent of group row i,
   * group column j. The builder methods are stated over such an f so that
   * their proofs never look inside a parent.
   */
  ghost predicate ListsParents(f: (nat, nat) -> DataNode, fine: seq<DataNode>, S: nat, cs: nat)
    requires cs >= 2
  {
    forall a: nat, b: nat {:trigger ParentNode(fine, S, cs, a, b)} :: ParentNode(fine, S, cs, a, b) == f(a, b)
  }

  lemma ParentFListsParents(fine: seq<DataNode>, S: nat, cs: nat)
    requires cs >= 2
    ensures ListsParents(ParentF(fine, S, cs), fine, S, cs)
  {
  }

  /** The parent of group row i, group column j, or the guard's error for its index j + base. */
  method BuildParentNode(dataNodes: seq<DataNode>, S: nat, cs: nat, i: nat, j: nat, base: nat, bound: int,
                         ghost f: (nat, nat) -> DataNode)
    returns (r: Result<DataNode>)
    requires cs >= 2 && |dataNodes| == S * S && ListsParents(f, dataNodes, S, cs)
    requires i < |Groups(S, cs)| && j < |Groups(S, cs)| && base == RowStart(i, |Groups(S, cs)|)
    ensures r.Ok? <==> j + base <= bound
    ensures r.Ok? ==> r.value == f(i, j)
    ensures r.Err? ==> r.error == ConstructionError
  {
    RowStartIsProduct(i, |Groups(S, cs)|);
    var measure, children := GatherChildren(dataNodes, S, cs, i, j);
    r := NewInternal(measure, children, j + i * |Groups(S, cs)|, bound);
    assert r.Ok? ==> r.value == ParentNode(dataNodes, S, cs, i, j);
  }

  /** The inner loop of one pass: the parents of group row i, whose indices start at base = i*n. */
  method BuildParentRow(dataNodes: seq<DataNode>, S: nat, cs: nat, i: nat, base: nat, bound: int,
                        ghost f: (nat, nat) -> DataNode)
    returns (r: Result<seq<DataNode>>)
    requires cs >= 2 && |dataNodes| == S * S && ListsParents(f, dataNodes, S, cs)
    requires i < |Groups(S, cs)| && base == RowStart(i, |Groups(S, cs)|)
    ensures r.Ok? <==> base + |Groups(S, cs)| <= bound + 1
    ensures r.Ok? ==> r.value == Row(f, i, |Groups(S, cs)|)
    ensures r.Err? ==> r.error == ConstructionError
  {
    var n := |Groups(S, cs)|;
    var row: seq<DataNode> := [];
    for j := 0 to n
      invariant row == Row(f, i, j)
      invariant j == 0 || base + j <= bound + 1
    {
      var node := BuildParentNode(dataNodes, S, cs, i, j, base, bound, f);
      if node.Err? {
        return Err(node.error);
      }
      RowSnoc(f, i, j, node.value);
      row := row + [node.value];
    }
    return Ok(row);
  }

  /** One pass of the coarsening loop over an f listing the parents. */
  method BuildParentRows(dataNodes: seq<DataNode>, S: nat, cs: nat, bound: int, ghost f: (nat, nat) -> DataNode)
    returns (r: Result<seq<DataNode>>)
    requires cs >= 2 && |dataNodes| == S * S && ListsParents(f, dataNodes, S, cs)
    ensures r.Ok? <==> RowStart(|Groups(S, cs)|, |Groups(S, cs)|) <= bound + 1
    ensures r.Ok? ==> r.value == Rows(f, |Groups(S, cs)|, |Groups(S, cs)|)
    ensures r.Err? ==> r.error == ConstructionError
  {
    var partitionInIndex := Groups(S, cs);
    var n := |partitionInIndex|;
    var parentDataNodes: seq<DataNode> := [];
    var base := 0;
    for i := 0 to n
      invariant parentDataNodes == Rows(f, n, i)
      invariant base == RowStart(i, n)
      invariant i == 0 || base <= bound + 1
    {
      var row := BuildParentRow(dataNodes, S, cs, i, base, bound, f);
      if row.Err? {
        RowStartMono(i + 1, n, n);
        return Err(row.error);
      }
      RowsSnoc(f, n, i, row.value);
      parentDataNodes := parentDataNodes + row.value;
      base := base + n;
    }
    return Ok(parentDataNodes);
  }

  /** One pass of the coarsening loop: every parent of the next coarser level, or the guard's error. */
  method BuildParents(dataNodes: seq<DataNode>, S: nat, cs: nat, bound: int)
    returns (r: Result<seq<DataNode>>)
    requires cs >= 2 && |dataNodes| == S * S
    ensures r.Ok? <==> |Groups(S, cs)| * |Groups(S, cs)| <= bound + 1
    ensures r.Ok? ==> r.value == ParentLevel(dataNodes, S, cs)
    ensures r.Err? ==> r.error == ConstructionError
  {
    ParentFListsParents(dataNodes, S, cs);
    RowStartIsProduct(|Groups(S, cs)|, |Groups(S, cs)|);
    r := BuildParentRows(dataNodes, S, cs, bound, ParentF(dataNodes, S, cs));
  }

  /** Reverses the built levels and numbers them, so that level 0 is the root. */
  method ReverseAndNumber(built: seq<seq<DataNode>>) returns (chain: seq<Level>)
    ensures chain == Numbered(built)
  {
    chain := [];
    var l := 0;
    while l < |built|
      invariant 0 <= l <= |built|
      invariant |chain| == l
      invariant forall t :: 0 <= t < l ==> chain[t] == Level(t, built[|built| - 1 - t])
    {
      chain := chain + [Level(l, built[|built| - 1 - l])];
      l := l + 1;
    }
  }

  /**
   * The coarsening loop of the constructor: passes until the scaled
   * resolution is 1. Fails exactly when a parent index of the first
   * (largest) pass exceeds the safety bound.
   */
  method CoarsenAll(leaves: seq<DataNode>, res: nat, cs: nat, bound: int)
    returns (r: Result<seq<seq<DataNode>>>)
    requires res >= 1 && cs >= 2 && |leaves| == Sq(res)
    ensures r.Ok? <==> res == 1 || Sq(|Groups(res, cs)|) <= bound + 1
    ensures r.Ok? ==> r.value == LevelsFrom(leaves, res, cs)
    ensures r.Err? ==> r.error == ConstructionError
  {
    var dataNodes := leaves;
    ghost var full := LevelsFrom(leaves, res, cs);
    LevelsFromHead(leaves, res, cs);
    ghost var n0 := |Groups(res, cs)|;
    var built: seq<seq<DataNode>> := [dataNodes];
    var scaledRes := res;
    while scaledRes != 1
      invariant scaledRes >= 1
      invariant |dataNodes| == Sq(scaledRes)
      invariant built + LevelsFrom(dataNodes, scaledRes, cs)[1..] == full
      invariant scaledRes != res ==> res > 1 && Sq(n0) <= bound + 1 && scaledRes <= n0
      decreases scaledRes
    {
      var partitionInIndex := Groups(scaledRes, cs);
      var n := |partitionInIndex|;
      GroupsShrink(scaledRes, cs);
      if scaledRes != res {
        SquareMono(n, n0);
      }
      var parents := BuildParents(dataNodes, scaledRes, cs, bound);
      if parents.Err? {
        return Err(parents.error);
      }
      RowsSize(ParentF(dataNodes, scaledRes, cs), n, n);
      CoarsenStep(built, dataNodes, scaledRes, cs, full);
      dataNodes := parents.value;
      scaledRes := n;
      built := built + [dataNodes];
    }
    assert built == full;
    return Ok(built);
  }

  /** The DecompositionChain constructor: leaves, coarsening passes, reversal. */
  method BuildChain(X: seq<seq<real>>, res: nat, cs: nat, bound: int) returns (r: Result<seq<Level>>)
    requires IsGrid(X, res) && res >= 1 && cs >= 2
    ensures r.Ok? <==> res == 1 || Sq(|Groups(res, cs)|) <= bound + 1
    ensures r.Ok? ==> r.value == Chain(X, res, cs)
    ensures r.Err? ==> r.error == ConstructionError
  {
    var dataNodes := BuildLeaves(X, res);
    RowsSize(LeafF(X, res), res, res);
    assert |dataNodes| == Sq(res);
    var built := CoarsenAll(dataNodes, res, cs, bound);
    if built.Err? {
      return Err(built.error);
    }
    var chain := ReverseAndNumber(built.value);
    return Ok(chain);
  }
}
