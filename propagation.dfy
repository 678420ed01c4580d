/**
 * TransportPlan and its propagate step: every transport of the coarse plan
 * is dispensed, greedily and cheapest partner first, over the children of
 * its two endpoints, working on residual measures and on a cost matrix
 * whose exhausted rows and columns are marked infinite.
 */
module Propagation {
  import opened Common
  import opened Sums
  import opened Decomposition
  import opened CostHierarchy
  import opened Plans

  // ---------------------------------------------------------------------
  // Counting finite costs: what each non-final step of a dispense removes.

  function Finite(row: seq<Ext>): nat
  {
    if |row| == 0 then 0 else Finite(row[..|row| - 1]) + (if row[|row| - 1] == Inf then 0 else 1)
  }

  /** Marking one more finite entry Inf, and nothing finite anew, lowers the count. */
  lemma {:induction false} FiniteDrop(a: seq<Ext>, b: seq<Ext>, k: nat)
    requires |a| == |b| && k < |a|
    requires forall t :: 0 <= t < |a| ==> b[t] == a[t] || b[t] == Inf
    requires a[k] != Inf && b[k] == Inf
    ensures Finite(b) < Finite(a)
  {
    var n := |a| - 1;
    if k == n {
      FiniteMono(a[..n], b[..n]);
    } else {
      FiniteDrop(a[..n], b[..n], k);
    }
  }

  lemma {:induction false} FiniteMono(a: seq<Ext>, b: seq<Ext>)
    requires |a| == |b|
    requires forall t :: 0 <= t < |a| ==> b[t] == a[t] || b[t] == Inf
    ensures Finite(b) <= Finite(a)
  {
    if |a| > 0 {
      FiniteMono(a[..|a| - 1], b[..|b| - 1]);
    }
  }

  /** The finite costs from x to the candidates ys, counted on the working matrix. */
  ghost function FiniteRow(c: array2<Ext>, x: nat, ys: seq<nat>): nat
    reads c
    requires x < c.Length0 && forall t :: 0 <= t < |ys| ==> ys[t] < c.Length1
  {
    if |ys| == 0 then 0 else FiniteRow(c, x, ys[..|ys| - 1]) + (if c[x, ys[|ys| - 1]] == Inf then 0 else 1)
  }

  lemma {:induction false} FiniteRowCounts(c: array2<Ext>, x: nat, ys: seq<nat>)
    requires x < c.Length0 && forall t :: 0 <= t < |ys| ==> ys[t] < c.Length1
    ensures FiniteRow(c, x, ys) == Finite(RowOf(c, x, ys))
  {
    if |ys| > 0 {
      var init := ys[..|ys| - 1];
      FiniteRowCounts(c, x, init);
      assert RowOf(c, x, ys)[..|ys| - 1] == RowOf(c, x, init);
    }
  }

  lemma {:induction false} SumAtNonPositive(s: seq<real>, idx: seq<nat>)
    requires forall t :: 0 <= t < |idx| ==> At(s, idx[t]) <= 0.0
    ensures SumAt(s, idx) <= 0.0
  {
    if |idx| > 0 {
      SumAtNonPositive(s, idx[..|idx| - 1]);
    }
  }

  // ---------------------------------------------------------------------
  // The working state.

  /**
   * The working residuals and costs of propagate: residuals never fall
   * more than EPS below zero, and an Inf cost only ever sits in a row or
   * column whose residual is used up.
   */
  ghost predicate Working(xRes: array<real>, yRes: array<real>, cost: array2<Ext>)
    reads xRes, yRes, cost
  {
    && cost.Length0 == xRes.Length && cost.Length1 == yRes.Length
    && (forall i :: 0 <= i < xRes.Length ==> xRes[i] >= -EPS)
    && (forall j :: 0 <= j < yRes.Length ==> yRes[j] >= -EPS)
    && (forall i, j :: 0 <= i < cost.Length0 && 0 <= j < cost.Length1 && cost[i, j] == Inf ==>
          xRes[i] <= 0.0 || yRes[j] <= 0.0)
  }

  /** Every transport of E starts at a node of xs and ends at a node of ys. */
  ghost predicate Between(E: seq<Transport>, xs: seq<nat>, ys: seq<nat>)
  {
    forall k :: 0 <= k < |E| ==> E[k].x in xs && E[k].y in ys
  }

  /** Each residual is its starting value less what the transports E took out of that x node. */
  ghost predicate OutAccounted(before: seq<real>, after: seq<real>, E: seq<Transport>)
  {
    |after| == |before| && forall i :: 0 <= i < |before| ==> after[i] == before[i] - OutFlow(E, i)
  }

  /** Each residual is its starting value less what the transports E brought into that y node. */
  ghost predicate InAccounted(before: seq<real>, after: seq<real>, E: seq<Transport>)
  {
    |after| == |before| && forall j :: 0 <= j < |before| ==> after[j] == before[j] - InFlow(E, j)
  }

  /** After each of the steps E, more than EPS of `amount` was still to be moved. */
  ghost predicate StaysAbove(amount: real, E: seq<Transport>)
  {
    forall k :: 0 < k <= |E| ==> amount - Shipped(E[..k]) > EPS
  }

  /** The x residuals after the transports E: each starting value less the flow out of that node. */
  ghost function OutAfter(x0: seq<real>, E: seq<Transport>): seq<real>
  {
    seq(|x0|, i requires 0 <= i < |x0| => x0[i] - OutFlow(E, i))
  }

  /** The y residuals after the transports E: each starting value less the flow into that node. */
  ghost function InAfter(y0: seq<real>, E: seq<Transport>): seq<real>
  {
    seq(|y0|, j requires 0 <= j < |y0| => y0[j] - InFlow(E, j))
  }

  lemma AccountedAfter(x0: seq<real>, xs: seq<real>, y0: seq<real>, ys: seq<real>, E: seq<Transport>)
    requires OutAccounted(x0, xs, E) && InAccounted(y0, ys, E)
    ensures xs == OutAfter(x0, E) && ys == InAfter(y0, E)
  {
  }

  /**
   * A step that does not settle the transport: its x child is live (at
   * least EPS), and it ships the smaller of the x residual xm and the y
   * residual ym, the y one when strictly smaller.
   */
  ghost predicate Smaller(xm: real, ym: real, amount: real)
  {
    xm >= EPS && amount == (if ym < xm then ym else xm)
  }

  /**
   * The first n steps of E each ship, from residuals x0, y0 less the flows
   * of the steps before it, the smaller of its x and y residual.
   */
  ghost predicate Greedy(x0: seq<real>, y0: seq<real>, E: seq<Transport>, n: nat)
  {
    n <= |E| && forall m :: 0 <= m < n ==>
      E[m].x < |x0| && E[m].y < |y0| &&
      Smaller(x0[E[m].x] - OutFlow(E[..m], E[m].x), y0[E[m].y] - InFlow(E[..m], E[m].y), E[m].amount)
  }

  lemma GreedySnoc(x0: seq<real>, y0: seq<real>, E: seq<Transport>, e: Transport)
    requires Greedy(x0, y0, E, |E|) && e.x < |x0| && e.y < |y0|
    requires Smaller(x0[e.x] - OutFlow(E, e.x), y0[e.y] - InFlow(E, e.y), e.amount)
    ensures Greedy(x0, y0, E + [e], |E| + 1)
  {
    forall m | 0 <= m < |E| + 1
      ensures (E + [e])[m].x < |x0| && (E + [e])[m].y < |y0|
      ensures Smaller(x0[(E + [e])[m].x] - OutFlow((E + [e])[..m], (E + [e])[m].x),
                      y0[(E + [e])[m].y] - InFlow((E + [e])[..m], (E + [e])[m].y), (E + [e])[m].amount)
    {
      if m < |E| {
        assert (E + [e])[..m] == E[..m];
      } else {
        assert (E + [e])[..m] == E;
      }
    }
  }

  /** Greedy steps stay greedy when more transports follow them. */
  lemma GreedyExtend(x0: seq<real>, y0: seq<real>, E: seq<Transport>, F: seq<Transport>, n: nat)
    requires Greedy(x0, y0, E, n) && |E| <= |F| && F[..|E|] == E
    ensures Greedy(x0, y0, F, n)
  {
    forall m | 0 <= m < n
      ensures F[..m] == E[..m] && F[m] == E[m]
    {
      assert F[..m] == F[..|E|][..m];
    }
  }

  /** One transport e, taken out of x residual e.x and y residual e.y, keeps the books. */
  lemma Step(x0: seq<real>, y0: seq<real>, xs: seq<real>, ys: seq<real>, E: seq<Transport>, e: Transport, ych: seq<nat>)
    requires OutAccounted(x0, xs, E) && InAccounted(y0, ys, E)
    requires e.x < |xs| && e.y < |ys| && e.y in ych && Distinct(ych)
    ensures OutAccounted(x0, xs[e.x := xs[e.x] - e.amount], E + [e])
    ensures InAccounted(y0, ys[e.y := ys[e.y] - e.amount], E + [e])
    ensures Shipped(E + [e]) == Shipped(E) + e.amount
    ensures SumAt(ys[e.y := ys[e.y] - e.amount], ych) == SumAt(ys, ych) - e.amount
  {
    FlowSnoc(E, e);
    SumAtUpdate(ys, ych, e.y, ys[e.y] - e.amount);
  }

  lemma BetweenSnoc(E: seq<Transport>, e: Transport, xs: seq<nat>, ys: seq<nat>)
    requires Between(E, xs, ys) && e.x in xs && e.y in ys
    ensures Between(E + [e], xs, ys)
  {
  }

  lemma StaysAboveSnoc(amount: real, E: seq<Transport>, e: Transport)
    requires StaysAbove(amount, E) && amount - Shipped(E) - e.amount > EPS
    ensures StaysAbove(amount, E + [e])
  {
    FlowSnoc(E, e);
    assert (E + [e])[..|E| + 1] == E + [e];
    forall k | 0 < k <= |E|
      ensures (E + [e])[..k] == E[..k]
    {
    }
  }

  /**
   * search never lands on an exhausted (Inf) y child while the y children
   * still hold a positive amount and the x child is live.
   */
  lemma NotStuck(xRes: array<real>, yRes: array<real>, cost: array2<Ext>, x: nat, ych: seq<nat>, k: nat, rem: real)
    requires Working(xRes, yRes, cost)
    requires x < xRes.Length && xRes[x] >= EPS
    requires forall t :: 0 <= t < |ych| ==> ych[t] < yRes.Length
    requires FirstMin(RowOf(cost, x, ych), k)
    requires 0.0 < rem <= SumAt(yRes[..], ych)
    ensures cost[x, ych[k]] != Inf
  {
    if cost[x, ych[k]] == Inf {
      FirstMinInf(RowOf(cost, x, ych), k);
      forall t | 0 <= t < |ych|
        ensures At(yRes[..], ych[t]) <= 0.0
      {
        assert RowOf(cost, x, ych)[t] == Inf;
      }
      SumAtNonPositive(yRes[..], ych);
    }
  }

  /**
   * The books of one dispense: residuals are their starting values x0, y0
   * less the flows of the transports E emitted so far, and the y children
   * ych hold their starting total ySum0 less what E shipped.
   */
  ghost predicate Books(x0: seq<real>, y0: seq<real>, xs: seq<real>, ys: seq<real>, E: seq<Transport>, ych: seq<nat>, ySum0: real)
  {
    OutAccounted(x0, xs, E) && InAccounted(y0, ys, E) && SumAt(ys, ych) == ySum0 - Shipped(E)
  }

  /** The last step of a transport: x child and y child both give `rem`. */
  method Settle(xRes: array<real>, yRes: array<real>, cost: array2<Ext>, x: nat, y: nat, rem: real,
                ghost x0: seq<real>, ghost y0: seq<real>, ghost E: seq<Transport>, ghost ych: seq<nat>, ghost ySum0: real)
    returns (e: Transport)
    requires xRes != yRes && Working(xRes, yRes, cost)
    requires x < xRes.Length && y < yRes.Length && y in ych && Distinct(ych)
    requires 0.0 <= rem && rem <= xRes[x] + EPS && rem <= yRes[y] + EPS
    requires Books(x0, y0, xRes[..], yRes[..], E, ych, ySum0)
    modifies xRes, yRes
    ensures e == Transport(x, y, rem) && Working(xRes, yRes, cost)
    ensures Books(x0, y0, xRes[..], yRes[..], E + [e], ych, ySum0) && Shipped(E + [e]) == Shipped(E) + e.amount
    ensures xRes[..] == old(xRes[..])[x := xRes[x]]
  {
    ghost var xs, ys := xRes[..], yRes[..];
    xRes[x] := xRes[x] - rem;
    yRes[y] := yRes[y] - rem;
    e := Transport(x, y, rem);
    Step(x0, y0, xs, ys, E, e, ych);
  }

  /** The y child gives all its residual to the x child and its column is marked Inf. */
  method ExhaustY(xRes: array<real>, yRes: array<real>, cost: array2<Ext>, x: nat, y: nat,
                  ghost x0: seq<real>, ghost y0: seq<real>, ghost E: seq<Transport>, ghost ych: seq<nat>, ghost ySum0: real)
    returns (e: Transport)
    requires xRes != yRes && Working(xRes, yRes, cost)
    requires x < xRes.Length && y < yRes.Length && y in ych && Distinct(ych)
    requires xRes[x] >= EPS && yRes[y] < xRes[x]
    requires Books(x0, y0, xRes[..], yRes[..], E, ych, ySum0)
    modifies xRes, yRes, cost
    ensures e == Transport(x, y, old(yRes[y])) && Working(xRes, yRes, cost)
    ensures Books(x0, y0, xRes[..], yRes[..], E + [e], ych, ySum0) && Shipped(E + [e]) == Shipped(E) + e.amount
    ensures xRes[..] == old(xRes[..])[x := xRes[x]] && yRes[y] == 0.0
    ensures forall i, j :: 0 <= i < cost.Length0 && 0 <= j < cost.Length1 ==>
              cost[i, j] == (if j == y then Inf else old(cost[i, j]))
  {
    ghost var xs, ys := xRes[..], yRes[..];
    e := Transport(x, y, yRes[y]);
    xRes[x] := xRes[x] - yRes[y];
    yRes[y] := 0.0;
    SetToInf(cost, false, y);
    Step(x0, y0, xs, ys, E, e, ych);
  }

  /**
   * ExhaustY at the y child search chose, while the transport still has mass
   * to place: that child's cost was finite (NotStuck), so marking its column
   * removes one finite entry from row x.
   */
  method ExhaustChosenY(xRes: array<real>, yRes: array<real>, cost: array2<Ext>, x: nat, ych: seq<nat>, k: nat, rem: real,
                        ghost x0: seq<real>, ghost y0: seq<real>, ghost E: seq<Transport>, ghost ySum0: real)
    returns (e: Transport)
    requires xRes != yRes && Working(xRes, yRes, cost)
    requires x < xRes.Length && xRes[x] >= EPS
    requires Distinct(ych) && forall t :: 0 <= t < |ych| ==> ych[t] < yRes.Length
    requires FirstMin(RowOf(cost, x, ych), k) && yRes[ych[k]] < xRes[x]
    requires Books(x0, y0, xRes[..], yRes[..], E, ych, ySum0)
    requires 0.0 < rem <= SumAt(yRes[..], ych)
    modifies xRes, yRes, cost
    ensures e == Transport(x, ych[k], old(yRes[ych[k]])) && Working(xRes, yRes, cost)
    ensures Books(x0, y0, xRes[..], yRes[..], E + [e], ych, ySum0) && Shipped(E + [e]) == Shipped(E) + e.amount
    ensures xRes[..] == old(xRes[..])[x := xRes[x]] && yRes[ych[k]] == 0.0
    ensures forall i, j :: 0 <= i < cost.Length0 && 0 <= j < cost.Length1 ==>
              cost[i, j] == (if j == ych[k] then Inf else old(cost[i, j]))
    ensures FiniteRow(cost, x, ych) < old(FiniteRow(cost, x, ych))
  {
    NotStuck(xRes, yRes, cost, x, ych, k, rem);
    ghost var rowBefore := RowOf(cost, x, ych);
    FiniteRowCounts(cost, x, ych);
    e := ExhaustY(xRes, yRes, cost, x, ych[k], x0, y0, E, ych, ySum0);
    FiniteRowCounts(cost, x, ych);
    FiniteDrop(rowBefore, RowOf(cost, x, ych), k);
  }

  /** The x child gives all its residual to the y child and its row is marked Inf. */
  method ExhaustX(xRes: array<real>, yRes: array<real>, cost: array2<Ext>, x: nat, y: nat,
                  ghost x0: seq<real>, ghost y0: seq<real>, ghost E: seq<Transport>, ghost ych: seq<nat>, ghost ySum0: real)
    returns (e: Transport)
    requires xRes != yRes && Working(xRes, yRes, cost)
    requires x < xRes.Length && y < yRes.Length && y in ych && Distinct(ych)
    requires xRes[x] >= EPS && yRes[y] >= xRes[x]
    requires Books(x0, y0, xRes[..], yRes[..], E, ych, ySum0)
    modifies xRes, yRes, cost
    ensures e == Transport(x, y, old(xRes[x])) && Working(xRes, yRes, cost)
    ensures Books(x0, y0, xRes[..], yRes[..], E + [e], ych, ySum0) && Shipped(E + [e]) == Shipped(E) + e.amount
    ensures xRes[..] == old(xRes[..])[x := 0.0]
    ensures forall i, j :: 0 <= i < cost.Length0 && 0 <= j < cost.Length1 ==>
              cost[i, j] == (if i == x then Inf else old(cost[i, j]))
  {
    ghost var xs, ys := xRes[..], yRes[..];
    e := Transport(x, y, xRes[x]);
    yRes[y] := yRes[y] - xRes[x];
    xRes[x] := 0.0;
    SetToInf(cost, true, x);
    Step(x0, y0, xs, ys, E, e, ych);
  }

  /**
   * The scan for a live x child: from position ptr on, skip children whose
   * residual is below EPS; running past the last one is a
   * MassConservationViolation.
   */
  method Scan(xRes: array<real>, xch: seq<nat>, ptr: nat) returns (r: Result<nat>)
    requires ptr < |xch| && forall t :: 0 <= t < |xch| ==> xch[t] < xRes.Length
    ensures r.Err? ==> r.error == MassConservationViolation && forall t :: ptr <= t < |xch| ==> xRes[xch[t]] < EPS
    ensures r.Ok? ==> ptr <= r.value < |xch| && xRes[xch[r.value]] >= EPS
    ensures r.Ok? ==> forall t :: ptr <= t < r.value ==> xRes[xch[t]] < EPS
  {
    var p := ptr;
    while xRes[xch[p]] < EPS
      invariant ptr <= p < |xch|
      invariant forall t :: ptr <= t < p ==> xRes[xch[t]] < EPS
      decreases |xch| - p
    {
      p := p + 1;
      if p == |xch| {
        return Err(MassConservationViolation);
      }
    }
    return Ok(p);
  }

  /**
   * One round of the loop for a coarse transport, at a live x child x and
   * the y child ych[k] search chose for it: either the rest `rem` fits both and
   * the transport is done, or the y child (if it holds less than the x
   * child) or else the x child is exhausted. A round that is not the last
   * leaves more than EPS to move and either kills x or strikes out one
   * more finite cost of its row.
   */
  method DispenseStep(xRes: array<real>, yRes: array<real>, cost: array2<Ext>, x: nat, ych: seq<nat>, k: nat, rem: real,
                      ghost x0: seq<real>, ghost y0: seq<real>, ghost E: seq<Transport>, ghost ySum0: real)
    returns (done: bool, e: Transport, rem': real)
    requires xRes != yRes && Working(xRes, yRes, cost)
    requires x < xRes.Length && xRes[x] >= EPS
    requires Distinct(ych) && forall t :: 0 <= t < |ych| ==> ych[t] < yRes.Length
    requires FirstMin(RowOf(cost, x, ych), k)
    requires Books(x0, y0, xRes[..], yRes[..], E, ych, ySum0)
    requires 0.0 <= rem <= SumAt(yRes[..], ych)
    modifies xRes, yRes, cost
    ensures Working(xRes, yRes, cost)
    ensures e.x == x && e.y == ych[k] && rem' == rem - e.amount
    ensures Books(x0, y0, xRes[..], yRes[..], E + [e], ych, ySum0) && Shipped(E + [e]) == Shipped(E) + e.amount
    ensures done <==> rem <= old(yRes[ych[k]]) + EPS && rem <= old(xRes[x]) + EPS
    ensures done ==> rem' == 0.0 && unchanged(cost)
    ensures !done ==> e.amount == (if old(yRes[ych[k]]) < old(xRes[x]) then old(yRes[ych[k]]) else old(xRes[x]))
    ensures !done ==> rem' > EPS
    ensures !done ==> xRes[x] < EPS || FiniteRow(cost, x, ych) < old(FiniteRow(cost, x, ych))
    ensures xRes[..] == old(xRes[..])[x := xRes[x]]
    ensures !done && old(yRes[ych[k]]) < old(xRes[x]) ==>
              forall i, j :: 0 <= i < cost.Length0 && 0 <= j < cost.Length1 ==>
                cost[i, j] == (if j == ych[k] then Inf else old(cost[i, j]))
    ensures !done && old(yRes[ych[k]]) >= old(xRes[x]) ==>
              forall i, j :: 0 <= i < cost.Length0 && 0 <= j < cost.Length1 ==>
                cost[i, j] == (if i == x then Inf else old(cost[i, j]))
  {
    var best := ych[k];
    var xm := xRes[x];
    var ym := yRes[best];
    if rem <= ym + EPS && rem <= xm + EPS {
      // the transport is used up
      e := Settle(xRes, yRes, cost, x, best, rem, x0, y0, E, ych, ySum0);
      done := true;
    } else if ym < xm {
      // the y child is exhausted
      e := ExhaustChosenY(xRes, yRes, cost, x, ych, k, rem, x0, y0, E, ySum0);
      done := false;
    } else {
      // the x child is exhausted
      e := ExhaustX(xRes, yRes, cost, x, best, x0, y0, E, ych, ySum0);
      done := false;
    }
    rem' := rem - e.amount;
  }

  /**
   * One round at live x child x: search picks position k, the first
   * cheapest y child, then DispenseStep moves what it can. Costs only ever
   * become Inf.
   */
  method Round(xRes: array<real>, yRes: array<real>, cost: array2<Ext>, x: nat, ych: seq<nat>, rem: real,
               ghost x0: seq<real>, ghost y0: seq<real>, ghost E: seq<Transport>, ghost ySum0: real)
    returns (k: nat, done: bool, e: Transport, rem': real)
    requires xRes != yRes && Working(xRes, yRes, cost)
    requires x < xRes.Length && xRes[x] >= EPS
    requires |ych| > 0 && Distinct(ych) && forall t :: 0 <= t < |ych| ==> ych[t] < yRes.Length
    requires Books(x0, y0, xRes[..], yRes[..], E, ych, ySum0)
    requires 0.0 <= rem <= SumAt(yRes[..], ych)
    modifies xRes, yRes, cost
    ensures FirstMin(old(RowOf(cost, x, ych)), k)
    ensures Working(xRes, yRes, cost)
    ensures e.x == x && e.y == ych[k] && rem' == rem - e.amount
    ensures Books(x0, y0, xRes[..], yRes[..], E + [e], ych, ySum0) && Shipped(E + [e]) == Shipped(E) + e.amount
    ensures done <==> rem <= old(yRes[ych[k]]) + EPS && rem <= old(xRes[x]) + EPS
    ensures done ==> rem' == 0.0
    ensures !done ==> e.amount == (if old(yRes[ych[k]]) < old(xRes[x]) then old(yRes[ych[k]]) else old(xRes[x]))
    ensures !done ==> rem' > EPS
    ensures !done ==> xRes[x] < EPS || FiniteRow(cost, x, ych) < old(FiniteRow(cost, x, ych))
    ensures xRes[..] == old(xRes[..])[x := xRes[x]]
    ensures done ==> unchanged(cost)
    ensures !done && old(yRes[ych[k]]) < old(xRes[x]) ==>
              forall i, j :: 0 <= i < cost.Length0 && 0 <= j < cost.Length1 ==>
                cost[i, j] == (if j == ych[k] then Inf else old(cost[i, j]))
    ensures !done && old(yRes[ych[k]]) >= old(xRes[x]) ==>
              forall i, j :: 0 <= i < cost.Length0 && 0 <= j < cost.Length1 ==>
                cost[i, j] == (if i == x then Inf else old(cost[i, j]))
    ensures forall i, j :: 0 <= i < cost.Length0 && 0 <= j < cost.Length1 ==>
              cost[i, j] == old(cost[i, j]) || cost[i, j] == Inf
  {
    k := Search(cost, x, ych);
    done, e, rem' := DispenseStep(xRes, yRes, cost, x, ych, k, rem, x0, y0, E, ySum0);
  }

  /**
   * The state of the loop for one coarse transport of `amount`: the
   * working state is sound, `rem` is what the transports seg left over,
   * every one of them left more than EPS, and the books balance.
   */
  ghost predicate Dispensing(xRes: array<real>, yRes: array<real>, cost: array2<Ext>, xch: seq<nat>, ych: seq<nat>,
                             amount: real, rem: real, seg: seq<Transport>, x0: seq<real>, y0: seq<real>, ySum0: real)
    reads xRes, yRes, cost
  {
    && Working(xRes, yRes, cost) && Rounds(xch, ych, amount, rem, seg) && Books(x0, y0, xRes[..], yRes[..], seg, ych, ySum0)
    && Greedy(x0, y0, seg, |seg|)
  }

  /** The transports seg of the rounds so far: they leave `rem`, each left more than EPS, and all join xch to ych. */
  ghost predicate Rounds(xch: seq<nat>, ych: seq<nat>, amount: real, rem: real, seg: seq<Transport>)
  {
    rem == amount - Shipped(seg) && rem >= 0.0 && StaysAbove(amount, seg) && Between(seg, xch, ych)
  }

  /** A round that is not the last keeps the loop's state. */
  lemma Continue(xRes: array<real>, yRes: array<real>, cost: array2<Ext>, xch: seq<nat>, ych: seq<nat>,
                 amount: real, rem: real, seg: seq<Transport>, x0: seq<real>, y0: seq<real>, ySum0: real,
                 e: Transport, rem': real)
    requires Rounds(xch, ych, amount, rem, seg)
    requires Working(xRes, yRes, cost) && e.x in xch && e.y in ych
    requires rem' == rem - e.amount && rem' > EPS
    requires Books(x0, y0, xRes[..], yRes[..], seg + [e], ych, ySum0) && Shipped(seg + [e]) == Shipped(seg) + e.amount
    requires Greedy(x0, y0, seg + [e], |seg| + 1)
    ensures Dispensing(xRes, yRes, cost, xch, ych, amount, rem', seg + [e], x0, y0, ySum0)
  {
    BetweenSnoc(seg, e, xch, ych);
    StaysAboveSnoc(amount, seg, e);
  }

  /** The last round hands back transports that ship exactly `amount`. */
  lemma Conclude(xRes: array<real>, yRes: array<real>, cost: array2<Ext>, xch: seq<nat>, ych: seq<nat>,
                 amount: real, rem: real, seg: seq<Transport>, x0: seq<real>, y0: seq<real>, ySum0: real,
                 e: Transport)
    requires Rounds(xch, ych, amount, rem, seg)
    requires e.x in xch && e.y in ych && e.amount == rem
    requires Books(x0, y0, xRes[..], yRes[..], seg + [e], ych, ySum0) && Shipped(seg + [e]) == Shipped(seg) + e.amount
    requires Greedy(x0, y0, seg, |seg|)
    ensures Shipped(seg + [e]) == amount && Between(seg + [e], xch, ych)
    ensures Greedy(x0, y0, seg + [e], |seg|)
    ensures StaysAbove(amount, (seg + [e])[..|seg + [e]| - 1])
    ensures OutAccounted(x0, xRes[..], seg + [e]) && InAccounted(y0, yRes[..], seg + [e])
    ensures SumAt(yRes[..], ych) == ySum0 - amount
  {
    BetweenSnoc(seg, e, xch, ych);
    assert (seg + [e])[..|seg|] == seg;
    GreedyExtend(x0, y0, seg, seg + [e], |seg|);
  }

  /** Changing the residual of child p leaves the children before it below EPS. */
  lemma OthersKept(xch: seq<nat>, p: nat, before: seq<real>, v: real)
    requires Distinct(xch) && p < |xch| && forall t :: 0 <= t < |xch| ==> xch[t] < |before|
    requires forall t :: 0 <= t < p ==> before[xch[t]] < EPS
    ensures forall t :: 0 <= t < p ==> before[xch[p] := v][xch[t]] < EPS
  {
  }

  /**
   * One turn of the loop for a coarse transport, at the live x child
   * xch[ptr] the scan stopped at: search picks position k, the first
   * strict minimum of `row`, x's row of working costs over ych when the
   * turn starts, and one round of transfer follows. The
   * children before ptr stay below EPS and costs only turn to Inf. The
   * last turn completes the books for `amount`; any other keeps the loop's
   * state and either spends xch[ptr] or strikes out a finite cost of its row.
   */
  method Turn(xRes: array<real>, yRes: array<real>, cost: array2<Ext>, xch: seq<nat>, ych: seq<nat>, amount: real,
              ptr: nat, rem: real, ghost seg: seq<Transport>, ghost x0: seq<real>, ghost y0: seq<real>, ghost ySum0: real,
              ghost row: seq<Ext>)
    returns (k: nat, done: bool, e: Transport, rem': real)
    requires xRes != yRes && amount <= ySum0
    requires Distinct(xch) && ptr < |xch| && forall t :: 0 <= t < |xch| ==> xch[t] < xRes.Length
    requires |ych| > 0 && Distinct(ych) && forall t :: 0 <= t < |ych| ==> ych[t] < yRes.Length
    requires Dispensing(xRes, yRes, cost, xch, ych, amount, rem, seg, x0, y0, ySum0)
    requires xRes[xch[ptr]] >= EPS && forall t :: 0 <= t < ptr ==> xRes[xch[t]] < EPS
    requires row == RowOf(cost, xch[ptr], ych)
    modifies xRes, yRes, cost
    ensures FirstMin(row, k) && e.x == xch[ptr] && e.y == ych[k]
    ensures !done ==> Smaller(old(xRes[e.x]), old(yRes[e.y]), e.amount)
    ensures forall t :: 0 <= t < ptr ==> xRes[xch[t]] < EPS
    ensures forall i, j :: 0 <= i < cost.Length0 && 0 <= j < cost.Length1 ==>
              cost[i, j] == old(cost[i, j]) || cost[i, j] == Inf
    ensures done ==> Working(xRes, yRes, cost) && Shipped(seg + [e]) == amount && Between(seg + [e], xch, ych)
    ensures done ==> StaysAbove(amount, (seg + [e])[..|seg + [e]| - 1]) && Greedy(x0, y0, seg + [e], |seg|)
    ensures done ==> OutAccounted(x0, xRes[..], seg + [e]) && InAccounted(y0, yRes[..], seg + [e])
    ensures done ==> SumAt(yRes[..], ych) == ySum0 - amount
    ensures !done ==> Dispensing(xRes, yRes, cost, xch, ych, amount, rem', seg + [e], x0, y0, ySum0)
    ensures !done ==> xRes[xch[ptr]] < EPS || FiniteRow(cost, xch[ptr], ych) < old(FiniteRow(cost, xch[ptr], ych))
  {
    var x := xch[ptr];
    ghost var xs, ys := xRes[..], yRes[..];
    k, done, e, rem' := Round(xRes, yRes, cost, x, ych, rem, x0, y0, seg, ySum0);
    OthersKept(xch, ptr, xs, xRes[x]);
    if done {
      Conclude(xRes, yRes, cost, xch, ych, amount, rem, seg, x0, y0, ySum0, e);
    } else {
      GreedySnoc(x0, y0, seg, e);
      Continue(xRes, yRes, cost, xch, ych, amount, rem, seg, x0, y0, ySum0, e, rem');
    }
  }

  /**
   * The body of propagate's loop for one coarse transport: `amount` is
   * moved from the children xch of its x node to the children ych of its y
   * node, round after round, the scan resuming where it stopped. Provided
   * the y children still hold the amount, the loop ends: each round that
   * is not the last moves the scan on, exhausts its x child, or strikes
   * out a finite cost of that child's row. It throws only once every x
   * child is below EPS. `emitted` are the transports pushed, whether or not
   * it throws.
   */
  method Dispense(xRes: array<real>, yRes: array<real>, cost: array2<Ext>, xch: seq<nat>, ych: seq<nat>, amount: real)
    returns (r: Result<seq<Transport>>, ghost emitted: seq<Transport>)
    requires xRes != yRes && Working(xRes, yRes, cost)
    requires |xch| > 0 && Distinct(xch) && forall t :: 0 <= t < |xch| ==> xch[t] < xRes.Length
    requires |ych| > 0 && Distinct(ych) && forall t :: 0 <= t < |ych| ==> ych[t] < yRes.Length
    requires 0.0 <= amount <= SumAt(yRes[..], ych)
    modifies xRes, yRes, cost
    ensures Working(xRes, yRes, cost) && Between(emitted, xch, ych)
    ensures OutAccounted(old(xRes[..]), xRes[..], emitted) && InAccounted(old(yRes[..]), yRes[..], emitted)
    ensures forall i, j :: 0 <= i < cost.Length0 && 0 <= j < cost.Length1 ==>
              cost[i, j] == old(cost[i, j]) || cost[i, j] == Inf
    ensures r.Err? ==> r.error == MassConservationViolation && forall t :: 0 <= t < |xch| ==> xRes[xch[t]] < EPS
    ensures r.Err? ==> StaysAbove(amount, emitted) && Greedy(old(xRes[..]), old(yRes[..]), emitted, |emitted|)
    ensures r.Ok? ==> r.value == emitted
    ensures r.Ok? ==> Shipped(r.value) == amount
    ensures r.Ok? ==> |r.value| > 0 && StaysAbove(amount, r.value[..|r.value| - 1])
    ensures r.Ok? ==> Greedy(old(xRes[..]), old(yRes[..]), r.value, |r.value| - 1)
    ensures r.Ok? ==> SumAt(yRes[..], ych) == old(SumAt(yRes[..], ych)) - amount
  {
    ghost var x0, y0 := xRes[..], yRes[..];
    ghost var ySum0 := SumAt(yRes[..], ych);
    var ptr := 0;
    var rem := amount;
    var seg: seq<Transport> := [];
    while true
      invariant 0 <= ptr < |xch|
      invariant Dispensing(xRes, yRes, cost, xch, ych, amount, rem, seg, x0, y0, ySum0)
      invariant forall t :: 0 <= t < ptr ==> xRes[xch[t]] < EPS
      invariant forall i, j :: 0 <= i < cost.Length0 && 0 <= j < cost.Length1 ==>
                  cost[i, j] == old(cost[i, j]) || cost[i, j] == Inf
      decreases |xch| - ptr, (if xRes[xch[ptr]] >= EPS then 1 else 0), FiniteRow(cost, xch[ptr], ych)
    {
      var scan := Scan(xRes, xch, ptr);
      if scan.Err? {
        return Err(scan.error), seg;
      }
      ptr := scan.value;
      var k, done, e, rem' := Turn(xRes, yRes, cost, xch, ych, amount, ptr, rem, seg, x0, y0, ySum0, RowOf(cost, xch[ptr], ych));
      if done {
        return Ok(seg + [e]), seg + [e];
      }
      seg, rem := seg + [e], rem';
    }
  }

  // ---------------------------------------------------------------------
  // The whole propagate pass.

  /** The transports of consecutive dispenses, one after the other. */
  function Flatten(segs: seq<seq<Transport>>): seq<Transport>
  {
    if |segs| == 0 then [] else Flatten(segs[..|segs| - 1]) + segs[|segs| - 1]
  }

  lemma FlattenSnoc(segs: seq<seq<Transport>>, seg: seq<Transport>)
    ensures Flatten(segs + [seg]) == Flatten(segs) + seg
  {
    assert (segs + [seg])[..|segs|] == segs;
  }

  /** Every transport of the plan joins an x node of Xc and a y node of Yc and carries a non-negative amount. */
  ghost predicate PlanOver(plan: seq<Transport>, Xc: seq<DataNode>, Yc: seq<DataNode>)
  {
    forall k :: 0 <= k < |plan| ==> plan[k].x < |Xc| && plan[k].y < |Yc| && plan[k].amount >= 0.0
  }

  ghost predicate NonNegative(nodes: seq<DataNode>)
  {
    forall p :: 0 <= p < |nodes| ==> nodes[p].measure >= 0.0
  }

  /** No y node is asked to receive more than its measure. */
  ghost predicate Receivable(plan: seq<Transport>, Yc: seq<DataNode>)
  {
    forall q :: 0 <= q < |Yc| ==> InFlow(plan, q) <= Yc[q].measure
  }

  /** With non-negative amounts, a prefix of the plan sends no more into q than the whole plan. */
  lemma {:induction false} InFlowPrefix(plan: seq<Transport>, n: nat, q: nat)
    requires n <= |plan| && forall k :: 0 <= k < |plan| ==> plan[k].amount >= 0.0
    ensures InFlow(plan[..n], q) <= InFlow(plan, q)
  {
    if n < |plan| {
      var init := plan[..|plan| - 1];
      assert init[..n] == plan[..n];
      InFlowPrefix(init, n, q);
    } else {
      assert plan[..n] == plan;
    }
  }

  lemma AccountedConcat(a: seq<real>, b: seq<real>, c: seq<real>, E: seq<Transport>, F: seq<Transport>)
    ensures OutAccounted(a, b, E) && OutAccounted(b, c, F) ==> OutAccounted(a, c, E + F)
    ensures InAccounted(a, b, E) && InAccounted(b, c, F) ==> InAccounted(a, c, E + F)
  {
    FlowConcat(E, F);
  }

  /** A dispense into the children of q leaves the residual totals of every other y node alone. */
  lemma OthersUntouched(Yc: seq<DataNode>, Yf: seq<DataNode>, before: seq<real>, after: seq<real>, seg: seq<Transport>, q: nat, q': nat)
    requires Refines(Yc, Yf) && q < |Yc| && q' < |Yc| && q != q'
    requires forall k :: 0 <= k < |seg| ==> seg[k].y in Yc[q].children
    requires |before| == |Yf| && InAccounted(before, after, seg)
    ensures SumAt(after, Yc[q'].children) == SumAt(before, Yc[q'].children)
  {
    var ch := Yc[q'].children;
    forall t | 0 <= t < |ch|
      ensures At(after, ch[t]) == At(before, ch[t])
    {
      assert ch[t] !in Yc[q].children by {
        assert ch[t] in ch;
      }
      InFlowNone(seg, ch[t]);
    }
    SumAtFrame(after, before, ch);
  }

  /**
   * How a coarse transport of `amount` was dispensed into seg after the
   * transports `before`: at least one step, more than EPS of the amount
   * left after every step but the last, and every step but the last
   * greedy against the fine measures less the flows of all transports
   * emitted before it.
   */
  ghost predicate SegmentDispensed(Xf: seq<DataNode>, Yf: seq<DataNode>, amount: real, before: seq<Transport>, seg: seq<Transport>)
  {
    |seg| > 0 && StaysAbove(amount, seg[..|seg| - 1]) &&
    Greedy(OutAfter(Measures(Xf), before), InAfter(Measures(Yf), before), seg, |seg| - 1)
  }

  /**
   * How the dispense of a coarse transport of `amount` from the children
   * xch to the children ych failed after the transports `before`: its
   * steps `tail` joined those children, left more than EPS of the amount
   * after each of them, and were all greedy; and then every x child had
   * less than EPS left.
   */
  ghost predicate FailedSegment(Xf: seq<DataNode>, Yf: seq<DataNode>, xch: seq<nat>, ych: seq<nat>, amount: real,
                                before: seq<Transport>, tail: seq<Transport>)
  {
    && Between(tail, xch, ych) && StaysAbove(amount, tail)
    && Greedy(OutAfter(Measures(Xf), before), InAfter(Measures(Yf), before), tail, |tail|)
    && ChildrenSpent(xch, Xf, before + tail)
  }

  /** Each coarse transport m was dispensed into segs[m], after the segments before it. */
  ghost predicate Dispensed(Xf: seq<DataNode>, Yf: seq<DataNode>, plan: seq<Transport>, segs: seq<seq<Transport>>)
  {
    |segs| <= |plan| &&
    (|segs| == 0 ||
     (Dispensed(Xf, Yf, plan, segs[..|segs| - 1]) &&
      SegmentDispensed(Xf, Yf, plan[|segs| - 1].amount, Flatten(segs[..|segs| - 1]), segs[|segs| - 1])))
  }

  lemma DispensedSnoc(Xf: seq<DataNode>, Yf: seq<DataNode>, plan: seq<Transport>, segs: seq<seq<Transport>>, seg: seq<Transport>)
    requires Dispensed(Xf, Yf, plan, segs) && |segs| < |plan|
    requires SegmentDispensed(Xf, Yf, plan[|segs|].amount, Flatten(segs), seg)
    ensures Dispensed(Xf, Yf, plan, segs + [seg])
  {
    assert (segs + [seg])[..|segs|] == segs;
  }

  /** Read back one segment: coarse transport m was dispensed into segs[m] after the segments before it. */
  lemma {:induction false} DispensedAt(Xf: seq<DataNode>, Yf: seq<DataNode>, plan: seq<Transport>, segs: seq<seq<Transport>>, m: nat)
    requires Dispensed(Xf, Yf, plan, segs) && m < |segs|
    ensures SegmentDispensed(Xf, Yf, plan[m].amount, Flatten(segs[..m]), segs[m])
  {
    if m < |segs| - 1 {
      var init := segs[..|segs| - 1];
      DispensedAt(Xf, Yf, plan, init, m);
      assert init[..m] == segs[..m] && init[m] == segs[m];
    }
  }

  /**
   * The state of propagate after the first k coarse transports: they were
   * dispensed into segs, each shipping its amount between children of its
   * endpoints; residuals xs, ys are the measures less the flows of the
   * transports out emitted so far, and each y node's children still hold
   * its measure less what the first k coarse transports sent it.
   */
  ghost predicate Progressed(Xc: seq<DataNode>, Yc: seq<DataNode>, Xf: seq<DataNode>, Yf: seq<DataNode>,
                             plan: seq<Transport>, k: nat, out: seq<Transport>, segs: seq<seq<Transport>>,
                             xs: seq<real>, ys: seq<real>)
    requires PlanOver(plan, Xc, Yc)
  {
    && k <= |plan| && |segs| == k && out == Flatten(segs)
    && (forall m :: 0 <= m < k ==>
          Shipped(segs[m]) == plan[m].amount &&
          Between(segs[m], Xc[plan[m].x].children, Yc[plan[m].y].children))
    && Shipped(out) == Shipped(plan[..k])
    && OutAccounted(Measures(Xf), xs, out) && InAccounted(Measures(Yf), ys, out)
    && (forall q :: 0 <= q < |Yc| ==> SumAt(ys, Yc[q].children) == Yc[q].measure - InFlow(plan[..k], q))
  }

  lemma StartProgress(Xc: seq<DataNode>, Yc: seq<DataNode>, Xf: seq<DataNode>, Yf: seq<DataNode>, plan: seq<Transport>)
    requires Refines(Yc, Yf) && PlanOver(plan, Xc, Yc)
    ensures Propagating(Xc, Yc, Xf, Yf, plan, 0, [], [], Measures(Xf), Measures(Yf))
  {
    assert plan[..0] == [];
  }

  /** Before coarse transport k, the children of its y node still hold its amount. */
  lemma Demand(Xc: seq<DataNode>, Yc: seq<DataNode>, Xf: seq<DataNode>, Yf: seq<DataNode>,
               plan: seq<Transport>, k: nat, out: seq<Transport>, segs: seq<seq<Transport>>, xs: seq<real>, ys: seq<real>)
    requires PlanOver(plan, Xc, Yc) && Receivable(plan, Yc) && k < |plan|
    requires Progressed(Xc, Yc, Xf, Yf, plan, k, out, segs, xs, ys)
    ensures SumAt(ys, Yc[plan[k].y].children) >= plan[k].amount
  {
    assert plan[..k + 1] == plan[..k] + [plan[k]];
    FlowSnoc(plan[..k], plan[k]);
    InFlowPrefix(plan, k + 1, plan[k].y);
  }

  /** The y-node totals after dispensing coarse transport k: its own y node lost the amount, the others nothing. */
  lemma AdvanceTotals(Yc: seq<DataNode>, Yf: seq<DataNode>, plan: seq<Transport>, k: nat, ys: seq<real>, seg: seq<Transport>, ys': seq<real>)
    requires Refines(Yc, Yf) && k < |plan| && plan[k].y < |Yc| && |ys| == |Yf|
    requires forall q :: 0 <= q < |Yc| ==> SumAt(ys, Yc[q].children) == Yc[q].measure - InFlow(plan[..k], q)
    requires forall m :: 0 <= m < |seg| ==> seg[m].y in Yc[plan[k].y].children
    requires InAccounted(ys, ys', seg)
    requires SumAt(ys', Yc[plan[k].y].children) == SumAt(ys, Yc[plan[k].y].children) - plan[k].amount
    ensures forall q :: 0 <= q < |Yc| ==> SumAt(ys', Yc[q].children) == Yc[q].measure - InFlow(plan[..k + 1], q)
  {
    assert plan[..k + 1] == plan[..k] + [plan[k]];
    FlowSnoc(plan[..k], plan[k]);
    forall q | 0 <= q < |Yc| && q != plan[k].y
      ensures SumAt(ys', Yc[q].children) == SumAt(ys, Yc[q].children)
    {
      OthersUntouched(Yc, Yf, ys, ys', seg, plan[k].y, q);
    }
  }

  /** Appending the segment of coarse transport k keeps every segment matched with its coarse transport. */
  lemma AdvanceSegs(Xc: seq<DataNode>, Yc: seq<DataNode>, plan: seq<Transport>, segs: seq<seq<Transport>>, seg: seq<Transport>)
    requires PlanOver(plan, Xc, Yc) && |segs| < |plan|
    requires forall m :: 0 <= m < |segs| ==>
               Shipped(segs[m]) == plan[m].amount &&
               Between(segs[m], Xc[plan[m].x].children, Yc[plan[m].y].children)
    requires Shipped(seg) == plan[|segs|].amount && Between(seg, Xc[plan[|segs|].x].children, Yc[plan[|segs|].y].children)
    ensures forall m :: 0 <= m < |segs| + 1 ==>
              Shipped((segs + [seg])[m]) == plan[m].amount &&
              Between((segs + [seg])[m], Xc[plan[m].x].children, Yc[plan[m].y].children)
  {
    forall m | 0 <= m < |segs| + 1
      ensures Shipped((segs + [seg])[m]) == plan[m].amount
      ensures Between((segs + [seg])[m], Xc[plan[m].x].children, Yc[plan[m].y].children)
    {
      if m < |segs| {
        assert (segs + [seg])[m] == segs[m];
      } else {
        assert (segs + [seg])[m] == seg;
      }
    }
  }

  /** Appending the segment of coarse transport k ships what the first k + 1 coarse transports carry. */
  lemma AdvanceShipped(plan: seq<Transport>, k: nat, out: seq<Transport>, segs: seq<seq<Transport>>, seg: seq<Transport>)
    requires k < |plan| && |segs| == k && out == Flatten(segs)
    requires Shipped(out) == Shipped(plan[..k]) && Shipped(seg) == plan[k].amount
    ensures |segs + [seg]| == k + 1 && out + seg == Flatten(segs + [seg])
    ensures Shipped(out + seg) == Shipped(plan[..k + 1])
  {
    FlowConcat(out, seg);
    FlattenSnoc(segs, seg);
    assert plan[..k + 1] == plan[..k] + [plan[k]];
    FlowSnoc(plan[..k], plan[k]);
  }

  /** Dispensing coarse transport k into seg moves the state from k to k + 1. */
  lemma Advance(Xc: seq<DataNode>, Yc: seq<DataNode>, Xf: seq<DataNode>, Yf: seq<DataNode>,
                plan: seq<Transport>, k: nat, out: seq<Transport>, segs: seq<seq<Transport>>, xs: seq<real>, ys: seq<real>,
                seg: seq<Transport>, xs': seq<real>, ys': seq<real>)
    requires Refines(Yc, Yf) && PlanOver(plan, Xc, Yc) && k < |plan|
    requires Progressed(Xc, Yc, Xf, Yf, plan, k, out, segs, xs, ys)
    requires Shipped(seg) == plan[k].amount && Between(seg, Xc[plan[k].x].children, Yc[plan[k].y].children)
    requires OutAccounted(xs, xs', seg) && InAccounted(ys, ys', seg)
    requires SumAt(ys', Yc[plan[k].y].children) == SumAt(ys, Yc[plan[k].y].children) - plan[k].amount
    ensures Progressed(Xc, Yc, Xf, Yf, plan, k + 1, out + seg, segs + [seg], xs', ys')
  {
    AdvanceTotals(Yc, Yf, plan, k, ys, seg, ys');
    AccountedConcat(Measures(Xf), xs, xs', out, seg);
    AccountedConcat(Measures(Yf), ys, ys', out, seg);
    AdvanceSegs(Xc, Yc, plan, segs, seg);
    AdvanceShipped(plan, k, out, segs, seg);
  }

  /** At the end, no fine node sent or received more than its measure plus EPS. */
  lemma Finish(Xf: seq<DataNode>, Yf: seq<DataNode>, out: seq<Transport>, xs: seq<real>, ys: seq<real>)
    requires OutAccounted(Measures(Xf), xs, out) && InAccounted(Measures(Yf), ys, out)
    requires forall i :: 0 <= i < |xs| ==> xs[i] >= -EPS
    requires forall j :: 0 <= j < |ys| ==> ys[j] >= -EPS
    ensures forall i :: 0 <= i < |Xf| ==> OutFlow(out, i) <= Xf[i].measure + EPS
    ensures forall j :: 0 <= j < |Yf| ==> InFlow(out, j) <= Yf[j].measure + EPS
  {
  }

  /** A working residual array holding the measures of a level. */
  method Residuals(nodes: seq<DataNode>) returns (a: array<real>)
    ensures fresh(a) && a[..] == Measures(nodes)
  {
    a := new real[|nodes|];
    for i := 0 to |nodes|
      invariant forall p :: 0 <= p < i ==> a[p] == nodes[p].measure
    {
      a[i] := nodes[i].measure;
    }
  }

  /** A working copy of a cost matrix, every entry finite. */
  method WorkingCost(c: seq<seq<real>>, rows: nat, cols: nat) returns (w: array2<Ext>)
    requires IsMatrix(c, rows, cols)
    ensures fresh(w) && w.Length0 == rows && w.Length1 == cols
    ensures forall i, j :: 0 <= i < rows && 0 <= j < cols ==> w[i, j] == Fin(c[i][j])
  {
    w := new Ext[rows, cols];
    for i := 0 to rows
      invariant forall i', j :: 0 <= i' < i && 0 <= j < cols ==> w[i', j] == Fin(c[i'][j])
    {
      for j := 0 to cols
        invariant forall i', j' :: 0 <= i' < rows && 0 <= j' < cols && (i' < i || (i' == i && j' < j)) ==>
                    w[i', j'] == Fin(c[i'][j'])
      {
        w[i, j] := Fin(c[i][j]);
      }
    }
  }

  /** Every transport of E joins a node below nx to a node below ny. */
  ghost predicate Endpoints(E: seq<Transport>, nx: nat, ny: nat)
  {
    forall k :: 0 <= k < |E| ==> E[k].x < nx && E[k].y < ny
  }

  /** Every child of a coarse x node has less than EPS left once the transports E have left it. */
  ghost predicate ChildrenSpent(xch: seq<nat>, Xf: seq<DataNode>, E: seq<Transport>)
  {
    forall t :: 0 <= t < |xch| ==> xch[t] < |Xf| && Xf[xch[t]].measure - OutFlow(E, xch[t]) < EPS
  }

  /** Appending transports between children of two coarse nodes keeps every endpoint on the fine levels. */
  lemma EndpointsAppend(out: seq<Transport>, seg: seq<Transport>, xch: seq<nat>, ych: seq<nat>, nx: nat, ny: nat)
    requires Endpoints(out, nx, ny) && Between(seg, xch, ych)
    requires ValidChildren(xch, nx) && ValidChildren(ych, ny)
    ensures Endpoints(out + seg, nx, ny)
  {
    forall k | 0 <= k < |out + seg|
      ensures (out + seg)[k].x < nx && (out + seg)[k].y < ny
    {
      if k >= |out| {
        var e := seg[k - |out|];
        assert e.x in xch && e.y in ych;
      }
    }
  }

  /** A dispense that failed: the residuals it left, read back against the fine measures, show the x children spent. */
  lemma Stranded(Xf: seq<DataNode>, xs: seq<real>, xs': seq<real>, out: seq<Transport>, seg: seq<Transport>, xch: seq<nat>)
    requires OutAccounted(Measures(Xf), xs, out) && OutAccounted(xs, xs', seg)
    requires forall t :: 0 <= t < |xch| ==> xch[t] < |xs'| && xs'[xch[t]] < EPS
    ensures ChildrenSpent(xch, Xf, out + seg)
  {
    AccountedConcat(Measures(Xf), xs, xs', out, seg);
  }

  /** The loop state of propagate after k coarse transports: progress, fine endpoints, and how each was dispensed. */
  ghost predicate Propagating(Xc: seq<DataNode>, Yc: seq<DataNode>, Xf: seq<DataNode>, Yf: seq<DataNode>,
                              plan: seq<Transport>, k: nat, out: seq<Transport>, segs: seq<seq<Transport>>,
                              xs: seq<real>, ys: seq<real>)
    requires PlanOver(plan, Xc, Yc)
  {
    Progressed(Xc, Yc, Xf, Yf, plan, k, out, segs, xs, ys) && Endpoints(out, |Xf|, |Yf|) && Dispensed(Xf, Yf, plan, segs)
  }

  /** After every coarse transport, the transports out are the whole new plan. */
  lemma Settled(Xc: seq<DataNode>, Yc: seq<DataNode>, Xf: seq<DataNode>, Yf: seq<DataNode>,
                plan: seq<Transport>, out: seq<Transport>, segs: seq<seq<Transport>>, xs: seq<real>, ys: seq<real>)
    requires PlanOver(plan, Xc, Yc) && Propagating(Xc, Yc, Xf, Yf, plan, |plan|, out, segs, xs, ys)
    requires forall i :: 0 <= i < |xs| ==> xs[i] >= -EPS
    requires forall j :: 0 <= j < |ys| ==> ys[j] >= -EPS
    ensures |segs| <= |plan| && Flatten(segs) <= out && Endpoints(out, |Xf|, |Yf|)
    ensures forall k :: 0 <= k < |segs| ==>
              Shipped(segs[k]) == plan[k].amount &&
              Between(segs[k], Xc[plan[k].x].children, Yc[plan[k].y].children)
    ensures Dispensed(Xf, Yf, plan, segs)
    ensures |segs| == |plan| && out == Flatten(segs)
    ensures Shipped(out) == Shipped(plan)
    ensures forall i :: 0 <= i < |Xf| ==> OutFlow(out, i) <= Xf[i].measure + EPS
    ensures forall j :: 0 <= j < |Yf| ==> InFlow(out, j) <= Yf[j].measure + EPS
  {
    assert plan[..|plan|] == plan;
    Finish(Xf, Yf, out, xs, ys);
  }

  /** A failed dispense of coarse transport k after the transports out: what propagate reports with its exception. */
  lemma Aborted(Xc: seq<DataNode>, Yc: seq<DataNode>, Xf: seq<DataNode>, Yf: seq<DataNode>,
                plan: seq<Transport>, k: nat, out: seq<Transport>, segs: seq<seq<Transport>>, xs: seq<real>, ys: seq<real>,
                partial: seq<Transport>)
    requires PlanOver(plan, Xc, Yc) && k < |plan| && Propagating(Xc, Yc, Xf, Yf, plan, k, out, segs, xs, ys)
    requires Endpoints(out + partial, |Xf|, |Yf|)
    requires FailedSegment(Xf, Yf, Xc[plan[k].x].children, Yc[plan[k].y].children, plan[k].amount, out, partial)
    ensures |segs| <= |plan| && Flatten(segs) <= out + partial && Endpoints(out + partial, |Xf|, |Yf|)
    ensures forall k :: 0 <= k < |segs| ==>
              Shipped(segs[k]) == plan[k].amount &&
              Between(segs[k], Xc[plan[k].x].children, Yc[plan[k].y].children)
    ensures Dispensed(Xf, Yf, plan, segs)
    ensures |segs| < |plan| && out + partial == Flatten(segs) + (out + partial)[|Flatten(segs)|..]
    ensures |segs| < |plan| &&
            FailedSegment(Xf, Yf, Xc[plan[|segs|].x].children, Yc[plan[|segs|].y].children, plan[|segs|].amount,
                          Flatten(segs), (out + partial)[|Flatten(segs)|..])
  {
    assert (out + partial)[|out|..] == partial;
  }

  /**
   * One turn of propagate's loop: coarse transport k is dispensed over the
   * children of its endpoints. On success the state moves from k to k + 1;
   * on failure the x children are spent by the transports out + partial.
   */
  method Carry(xRes: array<real>, yRes: array<real>, cost: array2<Ext>,
               Xc: seq<DataNode>, Yc: seq<DataNode>, Xf: seq<DataNode>, Yf: seq<DataNode>,
               plan: seq<Transport>, k: nat, ghost out: seq<Transport>, ghost segs: seq<seq<Transport>>)
    returns (r: Result<seq<Transport>>, ghost partial: seq<Transport>)
    requires xRes != yRes && Working(xRes, yRes, cost)
    requires Refines(Xc, Xf) && Refines(Yc, Yf) && PlanOver(plan, Xc, Yc) && Receivable(plan, Yc) && k < |plan|
    requires Propagating(Xc, Yc, Xf, Yf, plan, k, out, segs, xRes[..], yRes[..])
    modifies xRes, yRes, cost
    ensures Working(xRes, yRes, cost) && Endpoints(out + partial, |Xf|, |Yf|)
    ensures r.Err? ==> r.error == MassConservationViolation
    ensures r.Err? ==> FailedSegment(Xf, Yf, Xc[plan[k].x].children, Yc[plan[k].y].children, plan[k].amount, out, partial)
    ensures r.Ok? ==> r.value == partial && Propagating(Xc, Yc, Xf, Yf, plan, k + 1, out + partial, segs + [partial], xRes[..], yRes[..])
  {
    var t := plan[k];
    Demand(Xc, Yc, Xf, Yf, plan, k, out, segs, xRes[..], yRes[..]);
    ghost var xs, ys := xRes[..], yRes[..];
    r, partial := Dispense(xRes, yRes, cost, Xc[t.x].children, Yc[t.y].children, t.amount);
    EndpointsAppend(out, partial, Xc[t.x].children, Yc[t.y].children, |Xf|, |Yf|);
    AccountedAfter(Measures(Xf), xs, Measures(Yf), ys, out);
    if r.Err? {
      Stranded(Xf, xs, xRes[..], out, partial, Xc[t.x].children);
    } else {
      Advance(Xc, Yc, Xf, Yf, plan, k, out, segs, xs, ys, partial, xRes[..], yRes[..]);
      DispensedSnoc(Xf, Yf, plan, segs, partial);
    }
  }

  /**
   * propagate: the coarse plan's transports, each dispensed in turn over
   * the children of its endpoints, with residuals and costs shared by all
   * of them. The result joins children of each coarse transport's
   * endpoints, ships exactly its amount, and draws no fine node down by
   * more than EPS below zero. It fails only when some coarse transport
   * finds every child of its x node already spent by the transports
   * emitted before it.
   */
  method PropagateEdges(Xc: seq<DataNode>, Yc: seq<DataNode>, Xf: seq<DataNode>, Yf: seq<DataNode>,
                        fineCost: seq<seq<real>>, plan: seq<Transport>)
    returns (r: Result<seq<Transport>>, ghost segs: seq<seq<Transport>>, ghost emitted: seq<Transport>)
    requires Refines(Xc, Xf) && Refines(Yc, Yf) && NonNegative(Xf) && NonNegative(Yf)
    requires IsMatrix(fineCost, |Xf|, |Yf|)
    requires PlanOver(plan, Xc, Yc) && Receivable(plan, Yc)
    ensures |segs| <= |plan| && Flatten(segs) <= emitted && Endpoints(emitted, |Xf|, |Yf|)
    ensures forall k :: 0 <= k < |segs| ==>
              Shipped(segs[k]) == plan[k].amount &&
              Between(segs[k], Xc[plan[k].x].children, Yc[plan[k].y].children)
    ensures r.Err? ==> r.error == MassConservationViolation
    ensures r.Err? ==> |segs| < |plan| && emitted == Flatten(segs) + emitted[|Flatten(segs)|..]
    ensures r.Err? ==> (|segs| < |plan| &&
                          FailedSegment(Xf, Yf, Xc[plan[|segs|].x].children, Yc[plan[|segs|].y].children, plan[|segs|].amount,
                                        Flatten(segs), emitted[|Flatten(segs)|..]))
    ensures Dispensed(Xf, Yf, plan, segs)
    ensures r.Ok? ==> |segs| == |plan| && r.value == Flatten(segs) && r.value == emitted
    ensures r.Ok? ==> Shipped(r.value) == Shipped(plan)
    ensures r.Ok? ==> forall i :: 0 <= i < |Xf| ==> OutFlow(r.value, i) <= Xf[i].measure + EPS
    ensures r.Ok? ==> forall j :: 0 <= j < |Yf| ==> InFlow(r.value, j) <= Yf[j].measure + EPS
  {
    var xRes := Residuals(Xf);
    var yRes := Residuals(Yf);
    var cost := WorkingCost(fineCost, |Xf|, |Yf|);
    var out: seq<Transport> := [];
    segs := [];
    StartProgress(Xc, Yc, Xf, Yf, plan);
    for k := 0 to |plan|
      invariant Working(xRes, yRes, cost)
      invariant Propagating(Xc, Yc, Xf, Yf, plan, k, out, segs, xRes[..], yRes[..])
    {
      ghost var xs, ys := xRes[..], yRes[..];
      var res, partial := Carry(xRes, yRes, cost, Xc, Yc, Xf, Yf, plan, k, out, segs);
      if res.Err? {
        Aborted(Xc, Yc, Xf, Yf, plan, k, out, segs, xs, ys, partial);
        return Err(res.error), segs, out + partial;
      }
      out := out + res.value;
      segs := segs + [res.value];
    }
    Settled(Xc, Yc, Xf, Yf, plan, out, segs, xRes[..], yRes[..]);
    r := Ok(out);
    emitted := out;
  }

  // ---------------------------------------------------------------------
  // The plan object.

  /**
   * What propagate needs of a plan at `level` over chains X, Y: a finer
   * level in both chains that the coarse one refines, non-negative fine
   * measures, the finer level's costs, and transports the Y nodes can
   * receive.
   */
  ghost predicate Propagatable(X: seq<Level>, Y: seq<Level>, costChain: seq<seq<seq<real>>>, level: nat, plan: seq<Transport>)
  {
    && level + 1 < |X| && level + 1 < |Y| && level + 1 < |costChain|
    && Refines(X[level].nodes, X[level + 1].nodes) && Refines(Y[level].nodes, Y[level + 1].nodes)
    && NonNegative(X[level + 1].nodes) && NonNegative(Y[level + 1].nodes)
    && IsMatrix(costChain[level + 1], |X[level + 1].nodes|, |Y[level + 1].nodes|)
    && PlanOver(plan, X[level].nodes, Y[level].nodes)
    && Receivable(plan, Y[level].nodes)
  }

  /** TransportPlan: the transports between the nodes of one level of the X and Y chains. */
  class TransportPlan {
    const X: seq<Level>
    const Y: seq<Level>
    const costChain: seq<seq<seq<real>>>
    const level: nat
    var transports: seq<Transport>

    /** The root plan: one transport from the X root to the Y root carrying the X root's measure. */
    constructor Root(costChain: seq<seq<seq<real>>>, X: seq<Level>, Y: seq<Level>)
      requires |X| >= 1 && |X[0].nodes| >= 1 && |Y| >= 1 && |Y[0].nodes| >= 1
      ensures this.X == X && this.Y == Y && this.costChain == costChain && level == 0
      ensures transports == [Transport(0, 0, X[0].nodes[0].measure)]
    {
      this.X := X;
      this.Y := Y;
      this.costChain := costChain;
      level := 0;
      transports := [Transport(0, 0, X[0].nodes[0].measure)];
    }

    /** An empty plan at a given level, filled in by propagate. */
    constructor AtLevel(costChain: seq<seq<seq<real>>>, X: seq<Level>, Y: seq<Level>, level: nat)
      ensures this.X == X && this.Y == Y && this.costChain == costChain && this.level == level
      ensures transports == []
    {
      this.X := X;
      this.Y := Y;
      this.costChain := costChain;
      this.level := level;
      transports := [];
    }

    /** What propagate needs of this plan. */
    ghost predicate CanPropagate()
      reads this
    {
      Propagatable(X, Y, costChain, level, transports)
    }

    /**
     * propagate: the plan one level finer. Segment k of the new plan moves
     * exactly the amount of this plan's transport k between children of its
     * endpoints; on failure, the x node of the first transport not dispensed
     * had every child spent by the transports emitted before.
     */
    method Propagate() returns (r: Result<TransportPlan>, ghost segs: seq<seq<Transport>>, ghost emitted: seq<Transport>)
      requires CanPropagate()
      ensures |segs| <= |transports| && Flatten(segs) <= emitted
      ensures Endpoints(emitted, |X[level + 1].nodes|, |Y[level + 1].nodes|)
      ensures forall k :: 0 <= k < |segs| ==>
                Shipped(segs[k]) == transports[k].amount &&
                Between(segs[k], X[level].nodes[transports[k].x].children, Y[level].nodes[transports[k].y].children)
      ensures Dispensed(X[level + 1].nodes, Y[level + 1].nodes, transports, segs)
      ensures r.Err? ==> r.error == MassConservationViolation
      ensures r.Err? ==> (|segs| < |transports| &&
                          ChildrenSpent(X[level].nodes[transports[|segs|].x].children, X[level + 1].nodes, emitted))
      ensures r.Err? ==> (|segs| < |transports| &&
                          Between(emitted[|Flatten(segs)|..], X[level].nodes[transports[|segs|].x].children,
                                  Y[level].nodes[transports[|segs|].y].children) &&
                          StaysAbove(transports[|segs|].amount, emitted[|Flatten(segs)|..]) &&
                          Greedy(OutAfter(Measures(X[level + 1].nodes), Flatten(segs)),
                                 InAfter(Measures(Y[level + 1].nodes), Flatten(segs)),
                                 emitted[|Flatten(segs)|..], |emitted| - |Flatten(segs)|))
      ensures r.Ok? ==> fresh(r.value)
      ensures r.Ok? ==> r.value.X == X && r.value.Y == Y && r.value.costChain == costChain && r.value.level == level + 1
      ensures r.Ok? ==> |segs| == |transports| && r.value.transports == Flatten(segs) && r.value.transports == emitted
      ensures r.Ok? ==> Shipped(r.value.transports) == Shipped(transports)
      ensures r.Ok? ==> forall i :: 0 <= i < |X[level + 1].nodes| ==>
                OutFlow(r.value.transports, i) <= X[level + 1].nodes[i].measure + EPS
      ensures r.Ok? ==> forall j :: 0 <= j < |Y[level + 1].nodes| ==>
                InFlow(r.value.transports, j) <= Y[level + 1].nodes[j].measure + EPS
    {
      var res;
      res, segs, emitted := PropagateEdges(X[level].nodes, Y[level].nodes, X[level + 1].nodes, Y[level + 1].nodes,
                                           costChain[level + 1], transports);
      if res.Err? {
        return Err(res.error), segs, emitted;
      }
      var newPlan := new TransportPlan.AtLevel(costChain, X, Y, level + 1);
      newPlan.transports := res.value;
      r := Ok(newPlan);
    }
  }
}
