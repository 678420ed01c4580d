/**
 * What one coarsening pass of the DecompositionChain constructor guarantees:
 * the parent level partitions the finer level (children valid, disjoint and
 * covering), every node's index is its position, and each parent has
 * g[i]*g[j] children.
 */
module DecompositionProofs {
  import opened Common
  import opened Sums
  import opened Grouping
  import opened RowMajor
  import opened Decomposition

  // ---------------------------------------------------------------------
  // Positions inside a child list and inside a parent level.

  /** Every entry of a child list is some child (a, l) of that parent. */
  lemma ChildAt(S: nat, cs: nat, i: nat, j: nat, t: nat) returns (a: nat, l: nat)
    requires cs >= 2 && i < |Groups(S, cs)| && j < |Groups(S, cs)|
    requires t < |Children(S, cs, i, j)|
    ensures a < Groups(S, cs)[i] && l < Groups(S, cs)[j] && t == a * Groups(S, cs)[j] + l
    ensures Children(S, cs, i, j)[t] == ChildIndex(S, cs, i, j, a, l)
  {
    a, l := RowsSplit(ChildF(S, cs, i, j), GroupSize(S, cs, j), GroupSize(S, cs, i), t);
  }

  /** Parent (i, j) has g[i] * g[j] children. */
  lemma ChildCount(S: nat, cs: nat, i: nat, j: nat)
    requires cs >= 2 && i < |Groups(S, cs)| && j < |Groups(S, cs)|
    ensures |Children(S, cs, i, j)| == Groups(S, cs)[i] * Groups(S, cs)[j]
  {
    RowsSize(ChildF(S, cs, i, j), GroupSize(S, cs, j), GroupSize(S, cs, i));
  }

  /** Every node of a parent level is ParentNode(i, j), found at position i*n + j. */
  lemma ParentAt(fine: seq<DataNode>, S: nat, cs: nat, p: nat) returns (i: nat, j: nat)
    requires cs >= 2 && p < |ParentLevel(fine, S, cs)|
    ensures i < |Groups(S, cs)| && j < |Groups(S, cs)|
    ensures p == i * |Groups(S, cs)| + j
    ensures ParentLevel(fine, S, cs)[p] == ParentNode(fine, S, cs, i, j)
  {
    var n := |Groups(S, cs)|;
    i, j := RowsSplit(ParentF(fine, S, cs), n, n, p);
  }

  /** Parent (i, j) is a node of the parent level. */
  lemma ParentPosition(fine: seq<DataNode>, S: nat, cs: nat, i: nat, j: nat) returns (p: nat)
    requires cs >= 2 && i < |Groups(S, cs)| && j < |Groups(S, cs)|
    ensures p < |ParentLevel(fine, S, cs)| && ParentLevel(fine, S, cs)[p] == ParentNode(fine, S, cs, i, j)
  {
    var n := |Groups(S, cs)|;
    RowsAtStart(ParentF(fine, S, cs), n, n, i, j);
    p := RowStart(i, n) + j;
  }

  // ---------------------------------------------------------------------
  // The children of one parent.

  /** Child t of parent (i, j) lies in the S x S level and decodes back to group (i, j). */
  lemma ChildOwner(S: nat, cs: nat, i: nat, j: nat, t: nat)
    requires cs >= 2 && i < |Groups(S, cs)| && j < |Groups(S, cs)|
    requires t < |Children(S, cs, i, j)|
    ensures S >= 1
    ensures RowGroup(S, cs, Children(S, cs, i, j)[t]) == i
    ensures ColGroup(S, cs, Children(S, cs, i, j)[t]) == j
    ensures Children(S, cs, i, j)[t] < S * S
  {
    var a, l := ChildAt(S, cs, i, j, t);
    ChildIndexDecode(S, cs, i, j, a, l);
    ChildIndexInRange(S, cs, i, j, a, l);
  }

  lemma ChildrenDistinct(S: nat, cs: nat, i: nat, j: nat)
    requires cs >= 2 && i < |Groups(S, cs)| && j < |Groups(S, cs)|
    ensures Distinct(Children(S, cs, i, j))
  {
    var ch := Children(S, cs, i, j);
    forall t1, t2 | 0 <= t1 < t2 < |ch|
      ensures ch[t1] != ch[t2]
    {
      var a1, l1 := ChildAt(S, cs, i, j, t1);
      var a2, l2 := ChildAt(S, cs, i, j, t2);
      ChildIndexInjective(S, cs, i, j, a1, l1, a2, l2);
    }
  }

  lemma ChildrenNonEmpty(S: nat, cs: nat, i: nat, j: nat)
    requires cs >= 2 && S >= 1 && i < |Groups(S, cs)| && j < |Groups(S, cs)|
    ensures |Children(S, cs, i, j)| > 0
  {
    ChildCount(S, cs, i, j);
    GroupsPositive(S, cs, i);
    GroupsPositive(S, cs, j);
    MulAtLeast(Groups(S, cs)[i], Groups(S, cs)[j]);
  }

  /** The children of parent (i, j) are valid, and each one decodes back to group (i, j). */
  lemma ChildrenValid(S: nat, cs: nat, i: nat, j: nat)
    requires cs >= 2 && S >= 1 && i < |Groups(S, cs)| && j < |Groups(S, cs)|
    ensures forall t :: 0 <= t < |Children(S, cs, i, j)| ==>
              RowGroup(S, cs, Children(S, cs, i, j)[t]) == i &&
              ColGroup(S, cs, Children(S, cs, i, j)[t]) == j
    ensures ValidChildren(Children(S, cs, i, j), S * S)
  {
    ChildrenNonEmpty(S, cs, i, j);
    forall t | 0 <= t < |Children(S, cs, i, j)|
      ensures RowGroup(S, cs, Children(S, cs, i, j)[t]) == i
      ensures ColGroup(S, cs, Children(S, cs, i, j)[t]) == j
      ensures Children(S, cs, i, j)[t] < S * S
    {
      ChildOwner(S, cs, i, j, t);
    }
    ChildrenDistinct(S, cs, i, j);
  }

  // ---------------------------------------------------------------------
  // The whole parent level.

  /** Every fine index c < S*S is listed by the parent of its group row and group column. */
  lemma CellOf(S: nat, cs: nat, c: nat) returns (i: nat, j: nat, t: nat)
    requires cs >= 2 && c < S * S
    ensures i < |Groups(S, cs)| && j < |Groups(S, cs)|
    ensures t < |Children(S, cs, i, j)| && Children(S, cs, i, j)[t] == c
  {
    var r, q := SplitPosition(c, S, S);
    GroupOfSpec(S, cs, r);
    GroupOfSpec(S, cs, q);
    i, j := GroupOf(S, cs, r), GroupOf(S, cs, q);
    var k, l := r - i * cs, q - j * cs;
    assert ChildIndex(S, cs, i, j, k, l) == c;
    RowsAtStart(ChildF(S, cs, i, j), GroupSize(S, cs, j), GroupSize(S, cs, i), k, l);
    t := RowStart(k, GroupSize(S, cs, j)) + l;
  }

  /** Two parents of one level share no child. */
  lemma ParentsDisjoint(fine: seq<DataNode>, S: nat, cs: nat, p: nat, q: nat, c: nat)
    requires cs >= 2 && p < q < |ParentLevel(fine, S, cs)|
    requires c in ParentLevel(fine, S, cs)[p].children
    ensures c !in ParentLevel(fine, S, cs)[q].children
  {
    var i1, j1 := ParentAt(fine, S, cs, p);
    var i2, j2 := ParentAt(fine, S, cs, q);
    var t1 :| 0 <= t1 < |Children(S, cs, i1, j1)| && Children(S, cs, i1, j1)[t1] == c;
    ChildOwner(S, cs, i1, j1, t1);
    if t2 :| 0 <= t2 < |Children(S, cs, i2, j2)| && Children(S, cs, i2, j2)[t2] == c {
      ChildOwner(S, cs, i2, j2, t2);
      assert false;
    }
  }

  /**
   * One coarsening pass partitions the finer level: its parents refine the
   * fine nodes (valid, disjoint child lists carrying their children's total
   * measure), cover every fine node, and sit at the index they carry.
   */
  lemma ParentLevelPartitions(fine: seq<DataNode>, S: nat, cs: nat)
    requires cs >= 2 && S >= 1 && |fine| == S * S
    ensures |ParentLevel(fine, S, cs)| == |Groups(S, cs)| * |Groups(S, cs)|
    ensures IndexedByPosition(ParentLevel(fine, S, cs))
    ensures Refines(ParentLevel(fine, S, cs), fine)
    ensures Covers(ParentLevel(fine, S, cs), fine)
  {
    var coarse := ParentLevel(fine, S, cs);
    var n := |Groups(S, cs)|;
    RowsSize(ParentF(fine, S, cs), n, n);
    forall p | 0 <= p < |coarse|
      ensures coarse[p].index == p
      ensures ValidChildren(coarse[p].children, |fine|)
      ensures coarse[p].measure == SumAt(Measures(fine), coarse[p].children)
    {
      var i, j := ParentAt(fine, S, cs, p);
      ChildrenValid(S, cs, i, j);
    }
    forall p, q, c | 0 <= p < q < |coarse| && c in coarse[p].children
      ensures c !in coarse[q].children
    {
      ParentsDisjoint(fine, S, cs, p, q, c);
    }
    forall c: nat | c < |fine|
      ensures HasParent(coarse, c)
    {
      var i, j, t := CellOf(S, cs, c);
      var p := ParentPosition(fine, S, cs, i, j);
      assert c in coarse[p].children;
    }
  }

  // ---------------------------------------------------------------------
  // The leaves.

  /** res*res leaves, leaf (i, j) at position i*res + j with index j + i*res and density X[j][i]. */
  lemma LeavesShape(X: seq<seq<real>>, res: nat)
    requires IsGrid(X, res)
    ensures |Leaves(X, res)| == res * res
    ensures IndexedByPosition(Leaves(X, res))
    ensures forall p :: 0 <= p < |Leaves(X, res)| ==> Leaves(X, res)[p].children == []
    ensures forall i, j :: 0 <= i < res && 0 <= j < res ==> i * res + j < res * res && Leaves(X, res)[i * res + j].measure == X[j][i]
  {
    var f := LeafF(X, res);
    RowsSize(f, res, res);
    forall p | 0 <= p < |Leaves(X, res)|
      ensures Leaves(X, res)[p].index == p && Leaves(X, res)[p].children == []
    {
      var i, j := RowsSplit(f, res, res, p);
    }
    forall i, j | 0 <= i < res && 0 <= j < res
      ensures i * res + j < res * res && Leaves(X, res)[i * res + j].measure == X[j][i]
    {
      RowsAt(f, res, res, i, j);
    }
  }
}
