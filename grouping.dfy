/**
 * One coarsening step of DecompositionChain: how a scaled resolution S is
 * cut into groups of `clusterSize` cells per side (partitionInIndex), where
 * each group starts, and which fine index a (parent, k, l) triple names.
 */
module Grouping {
  import opened Common

  function Total(g: seq<nat>): nat
  {
    if |g| == 0 then 0 else Total(g[..|g| - 1]) + g[|g| - 1]
  }

  lemma {:induction false} TotalCons(x: nat, g: seq<nat>)
    ensures Total([x] + g) == x + Total(g)
  {
    if |g| > 0 {
      assert ([x] + g)[..|g|] == [x] + g[..|g| - 1];
      TotalCons(x, g[..|g| - 1]);
    }
  }

  /**
   * partitionInIndex: a single group when S < 2*clusterSize, otherwise
   * S/clusterSize - 1 groups of clusterSize followed by one group of
   * S%clusterSize + clusterSize cells (GroupsUseDivision). Stated by peeling
   * one full group off the front at a time.
   */
  function Groups(S: nat, cs: nat): (g: seq<nat>)
    requires cs >= 2
    ensures |g| >= 1
    decreases S
  {
    if S < 2 * cs then [S] else [cs] + Groups(S - cs, cs)
  }

  /** Peeling groups off the front counts them with Quot and leaves Rem + cs for the last one. */
  lemma {:induction false} GroupsQuot(S: nat, cs: nat)
    requires cs >= 2 && S >= 2 * cs
    ensures |Groups(S, cs)| == Quot(S, cs)
    ensures Groups(S, cs)[|Groups(S, cs)| - 1] == Rem(S, cs) + cs
  {
    if S - cs >= 2 * cs {
      GroupsQuot(S - cs, cs);
    } else {
      assert Quot(S - cs - cs, cs) == 0 && Rem(S - cs - cs, cs) == S - cs - cs;
    }
  }

  /** The group sizes agree with the integer division and remainder the constructor uses. */
  lemma GroupsUseDivision(S: nat, cs: nat)
    requires cs >= 2 && S >= 2 * cs
    ensures |Groups(S, cs)| == S / cs
    ensures Groups(S, cs)[|Groups(S, cs)| - 1] == S % cs + cs
  {
    GroupsQuot(S, cs);
    QuotIsDiv(S, cs);
  }

  /** A single group exactly when S < 2*clusterSize. */
  lemma GroupsSingle(S: nat, cs: nat)
    requires cs >= 2
    ensures |Groups(S, cs)| == 1 <==> S < 2 * cs
  {
    if S >= 2 * cs {
      assert |Groups(S, cs)| == 1 + |Groups(S - cs, cs)|;
    }
  }

  /** The sizes add up to S. */
  lemma {:induction false} GroupsTotal(S: nat, cs: nat)
    requires cs >= 2
    ensures Total(Groups(S, cs)) == S
    decreases S
  {
    if S >= 2 * cs {
      GroupsTotal(S - cs, cs);
      TotalCons(cs, Groups(S - cs, cs));
    }
  }

  /** Every group but the last has clusterSize cells. */
  lemma {:induction false} GroupsFull(S: nat, cs: nat, i: nat)
    requires cs >= 2 && i < |Groups(S, cs)| - 1
    ensures Groups(S, cs)[i] == cs
    decreases S
  {
    if i > 0 {
      GroupsFull(S - cs, cs, i - 1);
    }
  }

  /** When there are several groups, the last holds between clusterSize and 2*clusterSize - 1 cells. */
  lemma {:induction false} GroupsLast(S: nat, cs: nat)
    requires cs >= 2 && |Groups(S, cs)| > 1
    ensures cs <= Groups(S, cs)[|Groups(S, cs)| - 1] < 2 * cs
    decreases S
  {
    if |Groups(S - cs, cs)| > 1 {
      GroupsLast(S - cs, cs);
    }
  }

  /** A non-empty side has no empty group. */
  lemma GroupsPositive(S: nat, cs: nat, i: nat)
    requires cs >= 2 && S >= 1 && i < |Groups(S, cs)|
    ensures Groups(S, cs)[i] >= 1
  {
    if i < |Groups(S, cs)| - 1 {
      GroupsFull(S, cs, i);
    } else if i > 0 {
      GroupsLast(S, cs);
    }
  }

  /** Coarsening shrinks every side longer than 1, so the coarsening loop ends. */
  lemma {:induction false} GroupsShrink(S: nat, cs: nat)
    requires cs >= 2 && S >= 2
    ensures |Groups(S, cs)| < S
    decreases S
  {
    if S >= 2 * cs {
      GroupsShrink(S - cs, cs);
    }
  }

  /** The size of group i, or 0 past the last group. */
  function GroupSize(S: nat, cs: nat, i: nat): nat
    requires cs >= 2
  {
    if i < |Groups(S, cs)| then Groups(S, cs)[i] else 0
  }

  /** Number of levels the coarsening loop produces from S down to 1. */
  function Depth(S: nat, cs: nat): (d: nat)
    requires S >= 1 && cs >= 2
    ensures d >= 1
    decreases S
  {
    if S == 1 then 1
    else
      GroupsShrink(S, cs);
      1 + Depth(|Groups(S, cs)|, cs)
  }

  /** Groups tile [0, S): group i covers [i*cs, i*cs + g[i]). */
  lemma {:induction false} GroupBounds(S: nat, cs: nat, i: nat)
    requires cs >= 2 && i < |Groups(S, cs)|
    ensures i * cs + Groups(S, cs)[i] <= S
    decreases S
  {
    if i > 0 {
      GroupBounds(S - cs, cs, i - 1);
      MulSucc(i - 1, cs);
    }
  }

  /** The group that holds coordinate r (0 <= r < S). */
  function GroupOf(S: nat, cs: nat, r: nat): nat
    requires cs >= 2
    decreases S
  {
    if S < 2 * cs || r < cs then 0 else 1 + GroupOf(S - cs, cs, r - cs)
  }

  lemma {:induction false} GroupOfSpec(S: nat, cs: nat, r: nat)
    requires cs >= 2 && r < S
    ensures GroupOf(S, cs, r) < |Groups(S, cs)|
    ensures GroupOf(S, cs, r) * cs <= r < GroupOf(S, cs, r) * cs + Groups(S, cs)[GroupOf(S, cs, r)]
    decreases S
  {
    if !(S < 2 * cs || r < cs) {
      GroupOfSpec(S - cs, cs, r - cs);
      MulSucc(GroupOf(S - cs, cs, r - cs), cs);
    }
  }

  lemma {:induction false} GroupOfInverse(S: nat, cs: nat, i: nat, k: nat)
    requires cs >= 2 && i < |Groups(S, cs)| && k < Groups(S, cs)[i]
    ensures i * cs + k < S
    ensures GroupOf(S, cs, i * cs + k) == i
    decreases S
  {
    GroupBounds(S, cs, i);
    if i > 0 {
      MulSucc(i - 1, cs);
      GroupOfInverse(S - cs, cs, i - 1, k);
    }
  }

  /** Fine index of child (k, l) of the parent in group row i, group column j. */
  function ChildIndex(S: nat, cs: nat, i: nat, j: nat, k: nat, l: nat): nat
  {
    j * cs + l + (i * cs + k) * S
  }

  /** The group row of fine index c in an S x S level. */
  function RowGroup(S: nat, cs: nat, c: nat): nat
    requires cs >= 2 && S >= 1
  {
    GroupOf(S, cs, Quot(c, S))
  }

  /** The group column of fine index c in an S x S level. */
  function ColGroup(S: nat, cs: nat, c: nat): nat
    requires cs >= 2 && S >= 1
  {
    GroupOf(S, cs, Rem(c, S))
  }

  /** A child index of an S x S level is in range. */
  lemma ChildIndexInRange(S: nat, cs: nat, i: nat, j: nat, k: nat, l: nat)
    requires cs >= 2
    requires i < |Groups(S, cs)| && k < Groups(S, cs)[i]
    requires j < |Groups(S, cs)| && l < Groups(S, cs)[j]
    ensures ChildIndex(S, cs, i, j, k, l) < S * S
  {
    GroupBounds(S, cs, i);
    GroupBounds(S, cs, j);
    var r, c := i * cs + k, j * cs + l;
    assert ChildIndex(S, cs, i, j, k, l) == r * S + c;
    GridBound(r, c, S);
  }

  /** A child index names fine cell (i*cs + k, j*cs + l), so it decodes back to group (i, j). */
  lemma ChildIndexDecode(S: nat, cs: nat, i: nat, j: nat, k: nat, l: nat)
    requires cs >= 2
    requires i < |Groups(S, cs)| && k < Groups(S, cs)[i]
    requires j < |Groups(S, cs)| && l < Groups(S, cs)[j]
    ensures S >= 1
    ensures RowGroup(S, cs, ChildIndex(S, cs, i, j, k, l)) == i
    ensures ColGroup(S, cs, ChildIndex(S, cs, i, j, k, l)) == j
  {
    GroupOfInverse(S, cs, i, k);
    GroupOfInverse(S, cs, j, l);
    var r, c := i * cs + k, j * cs + l;
    assert ChildIndex(S, cs, i, j, k, l) == r * S + c;
    QuotOfRowMajor(r, c, S);
  }

  /** Distinct (k, l) pairs of one parent name distinct fine cells. */
  lemma ChildIndexInjective(S: nat, cs: nat, i: nat, j: nat, k1: nat, l1: nat, k2: nat, l2: nat)
    requires cs >= 2
    requires i < |Groups(S, cs)| && k1 < Groups(S, cs)[i] && k2 < Groups(S, cs)[i]
    requires j < |Groups(S, cs)| && l1 < Groups(S, cs)[j] && l2 < Groups(S, cs)[j]
    ensures ChildIndex(S, cs, i, j, k1, l1) == ChildIndex(S, cs, i, j, k2, l2) ==> k1 == k2 && l1 == l2
  {
    GroupBounds(S, cs, j);
    CellInjective(i * cs, j * cs, k1, l1, k2, l2, Groups(S, cs)[j], S);
  }
}
