/**
 * The pieces of a TransportPlan that propagate works with: costs that may
 * be marked infinite, transports between node indices, the amount that
 * leaves or reaches a node, and the helpers search and setToInf on the
 * working cost matrix.
 */
module Plans {
  import opened Common

  /** A working cost: a finite value or the __Inf__ mark of an exhausted row or column. */
  datatype Ext = Fin(v: real) | Inf

  /** The strict `<` of doubles extended to Inf: finite values compare by value, every finite value is below Inf, and Inf is below nothing. */
  predicate Less(a: Ext, b: Ext)
  {
    match (a, b)
    case (Fin(p), Fin(q)) => p < q
    case (Fin(_), Inf) => true
    case (Inf, _) => false
  }

  /** A Transport: `amount` moved from node x to node y of one level (indices as node positions). */
  datatype Transport = Transport(x: nat, y: nat, amount: real)

  /** The total amount of a list of transports. */
  function Shipped(E: seq<Transport>): real
  {
    if |E| == 0 then 0.0 else Shipped(E[..|E| - 1]) + E[|E| - 1].amount
  }

  /** The amount leaving node i. */
  function OutFlow(E: seq<Transport>, i: nat): real
  {
    if |E| == 0 then 0.0 else OutFlow(E[..|E| - 1], i) + (if E[|E| - 1].x == i then E[|E| - 1].amount else 0.0)
  }

  /** The amount reaching node j. */
  function InFlow(E: seq<Transport>, j: nat): real
  {
    if |E| == 0 then 0.0 else InFlow(E[..|E| - 1], j) + (if E[|E| - 1].y == j then E[|E| - 1].amount else 0.0)
  }

  lemma FlowSnoc(E: seq<Transport>, e: Transport)
    ensures Shipped(E + [e]) == Shipped(E) + e.amount
    ensures forall i :: OutFlow(E + [e], i) == OutFlow(E, i) + (if e.x == i then e.amount else 0.0)
    ensures forall j :: InFlow(E + [e], j) == InFlow(E, j) + (if e.y == j then e.amount else 0.0)
  {
    assert (E + [e])[..|E|] == E;
  }

  lemma {:induction false} FlowConcat(E: seq<Transport>, F: seq<Transport>)
    ensures Shipped(E + F) == Shipped(E) + Shipped(F)
    ensures forall i :: OutFlow(E + F, i) == OutFlow(E, i) + OutFlow(F, i)
    ensures forall j :: InFlow(E + F, j) == InFlow(E, j) + InFlow(F, j)
  {
    if |F| == 0 {
      assert E + F == E;
    } else {
      var F' := F[..|F| - 1];
      assert E + F == (E + F') + [F[|F| - 1]];
      FlowConcat(E, F');
      FlowSnoc(E + F', F[|F| - 1]);
    }
  }

  /** When no transport of E ends at y node j, nothing flows into j. */
  lemma {:induction false} InFlowNone(E: seq<Transport>, j: nat)
    requires forall k :: 0 <= k < |E| ==> E[k].y != j
    ensures InFlow(E, j) == 0.0
  {
    if |E| > 0 {
      InFlowNone(E[..|E| - 1], j);
    }
  }

  // ---------------------------------------------------------------------
  // search

  /** The working costs from x to each candidate in ys. */
  ghost function RowOf(c: array2<Ext>, x: nat, ys: seq<nat>): (row: seq<Ext>)
    reads c
    requires x < c.Length0 && forall t :: 0 <= t < |ys| ==> ys[t] < c.Length1
    ensures |row| == |ys| && forall t :: 0 <= t < |ys| ==> row[t] == c[x, ys[t]]
  {
    seq(|ys|, t requires 0 <= t < |ys| reads c => c[x, ys[t]])
  }

  /**
   * What search returns: a position whose cost nothing beats, strictly
   * better than every earlier one (ties keep the first), and position 0
   * when every cost is Inf.
   */
  ghost predicate FirstMin(row: seq<Ext>, k: nat)
  {
    && k < |row|
    && (forall t :: 0 <= t < |row| ==> !Less(row[t], row[k]))
    && (forall t :: 0 <= t < k ==> Less(row[k], row[t]))
    && (row[k] == Inf ==> k == 0)
  }

  /** At most one position answers search. */
  lemma FirstMinUnique(row: seq<Ext>, k1: nat, k2: nat)
    requires FirstMin(row, k1) && FirstMin(row, k2)
    ensures k1 == k2
  {
  }

  /** A search that lands on Inf found every candidate at Inf. */
  lemma FirstMinInf(row: seq<Ext>, k: nat)
    requires FirstMin(row, k) && row[k] == Inf
    ensures forall t :: 0 <= t < |row| ==> row[t] == Inf
  {
  }

  /** search: the running strict minimum over yChildren, starting from Inf at the first child. */
  method Search(c: array2<Ext>, x: nat, ys: seq<nat>) returns (k: nat)
    requires x < c.Length0 && |ys| > 0 && forall t :: 0 <= t < |ys| ==> ys[t] < c.Length1
    ensures FirstMin(RowOf(c, x, ys), k)
  {
    var minimum := Inf;
    k := 0;
    for t := 0 to |ys|
      invariant k < |ys| && (t == 0 ==> k == 0)
      invariant minimum == Inf ==> k == 0
      invariant minimum == Inf || minimum == c[x, ys[k]]
      invariant t > 0 ==> minimum == c[x, ys[k]] && k < t
      invariant forall u :: 0 <= u < t ==> !Less(c[x, ys[u]], minimum)
      invariant forall u :: 0 <= u < k ==> Less(c[x, ys[k]], c[x, ys[u]])
    {
      if Less(c[x, ys[t]], minimum) {
        minimum := c[x, ys[t]];
        k := t;
      }
    }
  }

  // ---------------------------------------------------------------------
  // setToInf

  /** setToInf: row `index` (opOnX) or column `index` becomes Inf; nothing else changes. */
  method SetToInf(c: array2<Ext>, opOnX: bool, index: nat)
    requires opOnX ==> index < c.Length0
    requires !opOnX ==> index < c.Length1
    modifies c
    ensures forall i, j :: 0 <= i < c.Length0 && 0 <= j < c.Length1 ==>
              c[i, j] == (if (opOnX && i == index) || (!opOnX && j == index) then Inf else old(c[i, j]))
  {
    if opOnX {
      for j := 0 to c.Length1
        invariant forall i, j' :: 0 <= i < c.Length0 && 0 <= j' < c.Length1 ==>
                    c[i, j'] == (if i == index && j' < j then Inf else old(c[i, j']))
      {
        c[index, j] := Inf;
      }
    } else {
      for i := 0 to c.Length0
        invariant forall i', j :: 0 <= i' < c.Length0 && 0 <= j < c.Length1 ==>
                    c[i', j] == (if j == index && i' < i then Inf else old(c[i', j]))
      {
        c[i, index] := Inf;
      }
    }
  }
}
