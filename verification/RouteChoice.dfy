/** Choosing a route: `getProbabilities`, `getEvent` and `getCLogitProbabilities` of
src/applications/trafficInformationSystem.cpp.

A map is visited in some order, given as a list of its keys.  Doubles are reals, plus the
not-a-number that zero divided by zero produces.
*/
module RouteChoice {
  import opened Collections
  import opened RouteEstimate

  datatype Double = Number(v: real) | NaN

  function CostOf(costs: map<RouteId, real>): RouteId -> real {
    r => if r in costs then costs[r] else 0.0
  }

  /** A product, named so that it can be hidden from the solver. */
  function Scaled(x: real, d: real): real { x * d }

  // ---------------------------------------------------------------- getProbabilities

  /** Costs after the correlation penalty; naming an unknown route creates it with cost zero. */
  function Penalised(costs: map<RouteId, real>, correlated: map<RouteId, real>): map<RouteId, real> {
    map r | r in costs.Keys + correlated.Keys ::
      if r in correlated then WithPenalty(CostOf(costs)(r), correlated[r]) else costs[r]
  }

  function WithPenalty(cost: real, correlation: real): real {
    cost + cost * correlation
  }

  function PositiveCount(order: seq<RouteId>, cost: RouteId -> real): nat {
    if order == [] then 0 else (if cost(order[0]) > 0.0 then 1 else 0) + PositiveCount(order[1..], cost)
  }

  /** The probability of one route; the quotient of the zero-cost case is an integer one. */
  function ProbabilityOf(c: real, sumCost: real, costsSize: nat, n: nat): Double
    requires costsSize > 0 && (costsSize == n ==> sumCost > 0.0)
  {
    if c == 0.0 then Number((1 / costsSize) as real)
    else if costsSize == n then
      if costsSize == 1 then NaN else Number((sumCost - c) / Scaled((costsSize - 1) as real, sumCost))
    else Number(0.0)
  }

  function Probabilities(order: seq<RouteId>, costs: map<RouteId, real>): map<RouteId, Double>
    requires forall r :: r in order ==> r in costs
  {
    var cost := CostOf(costs);
    var sumCost, costsSize := Sum(order, cost), PositiveCount(order, cost);
    if sumCost == 0.0 || costsSize == 0 then map[]
    else
      AllPositiveSum(order, cost);
      map r | r in order && ProbabilityOf(cost(r), sumCost, costsSize, |order|) != Number(0.0) ::
        ProbabilityOf(cost(r), sumCost, costsSize, |order|)
  }

  lemma {:induction false} AllPositiveSum(order: seq<RouteId>, cost: RouteId -> real)
    ensures PositiveCount(order, cost) <= |order|
    ensures PositiveCount(order, cost) == |order| <==> forall r :: r in order ==> cost(r) > 0.0
    ensures order != [] && PositiveCount(order, cost) == |order| ==> Sum(order, cost) > 0.0
    ensures PositiveCount(order, cost) == |order| ==> forall r :: r in order ==> cost(r) <= Sum(order, cost)
    ensures PositiveCount(order, cost) == |order| && |order| >= 2 && NoDuplicates(order) ==>
              forall r :: r in order ==> cost(r) < Sum(order, cost)
  {
    if order != [] {
      AllPositiveSum(order[1..], cost);
      assert order == [order[0]] + order[1..];
    }
  }

  /** The first loop: every correlated route's cost is raised by its penalty. */
  method AddPenalties(costs: map<RouteId, real>, correlated: map<RouteId, real>, correlatedOrder: seq<RouteId>)
    returns (c: map<RouteId, real>)
    requires Lists(correlatedOrder, correlated.Keys)
    ensures c == Penalised(costs, correlated)
  {
    hide WithPenalty;
    c := costs;
    for k := 0 to |correlatedOrder|
      invariant forall r :: r in c <==> r in costs || r in correlatedOrder[..k]
      invariant forall r :: r in c ==>
                  c[r] == if r in correlatedOrder[..k] then WithPenalty(CostOf(costs)(r), correlated[r]) else costs[r]
    {
      var r := correlatedOrder[k];
      assert r !in correlatedOrder[..k];
      assert correlatedOrder[..k + 1] == correlatedOrder[..k] + [r];
      var current := if r in c then c[r] else 0.0;
      assert current == CostOf(costs)(r);
      c := c[r := WithPenalty(current, correlated[r])];
    }
    assert correlatedOrder[..|correlatedOrder|] == correlatedOrder;
  }

  method OneProbability(cost: real, sumCost: real, costsSize: nat, n: nat) returns (probability: Double)
    requires costsSize > 0 && (costsSize == n ==> sumCost > 0.0)
    ensures probability == ProbabilityOf(cost, sumCost, costsSize, n)
  {
    probability := Number(0.0);
    if cost == 0.0 {
      probability := Number((1 / costsSize) as real);
    } else if costsSize == n {
      if costsSize == 1 {
        probability := NaN;
      } else {
        probability := Number((sumCost - cost) / Scaled((costsSize - 1) as real, sumCost));
      }
    }
  }

  /** The last loop: one probability per route, keeping those that are not zero. */
  method ChooseProbabilities(c: map<RouteId, real>, order: seq<RouteId>, sumCost: real, costsSize: nat)
    returns (probabilities: map<RouteId, Double>)
    requires forall r :: r in order ==> r in c
    requires costsSize > 0 && (costsSize == |order| ==> sumCost > 0.0)
    ensures probabilities ==
              map r | r in order && ProbabilityOf(CostOf(c)(r), sumCost, costsSize, |order|) != Number(0.0) ::
                ProbabilityOf(CostOf(c)(r), sumCost, costsSize, |order|)
  {
    hide ProbabilityOf;
    probabilities := map[];
    for k := 0 to |order|
      invariant forall r :: r in probabilities <==>
                  r in order[..k] && ProbabilityOf(CostOf(c)(r), sumCost, costsSize, |order|) != Number(0.0)
      invariant forall r :: r in probabilities ==>
                  probabilities[r] == ProbabilityOf(CostOf(c)(r), sumCost, costsSize, |order|)
    {
      var r := order[k];
      var probability := OneProbability(c[r], sumCost, costsSize, |order|);
      assert order[..k + 1] == order[..k] + [r];
      if probability != Number(0.0) {
        probabilities := probabilities[r := probability];
      }
    }
    assert order[..|order|] == order;
  }

  method GetProbabilities(costs: map<RouteId, real>, correlated: map<RouteId, real>,
                          order: seq<RouteId>, correlatedOrder: seq<RouteId>)
    returns (probabilities: map<RouteId, Double>)
    requires Lists(order, costs.Keys + correlated.Keys) && Lists(correlatedOrder, correlated.Keys)
    ensures probabilities == Probabilities(order, Penalised(costs, correlated))
  {
    hide ProbabilityOf;
    var c := AddPenalties(costs, correlated, correlatedOrder);
    var sumCost, costsSize := 0.0, 0;
    ghost var cost := CostOf(c);
    for k := 0 to |order|
      invariant Sum(order, cost) == sumCost + Sum(order[k..], cost)
      invariant PositiveCount(order, cost) == costsSize + PositiveCount(order[k..], cost)
    {
      assert order[k..][1..] == order[k + 1..];
      sumCost := sumCost + c[order[k]];
      costsSize := costsSize + if c[order[k]] > 0.0 then 1 else 0;
    }
    if sumCost == 0.0 || costsSize == 0 {
      return map[];
    }
    AllPositiveSum(order, cost);
    probabilities := ChooseProbabilities(c, order, sumCost, costsSize);
  }

  // ---------------------------------------------------------------- what the probabilities are

  function ValueOf(probabilities: map<RouteId, Double>): RouteId -> real {
    r => if r in probabilities && probabilities[r].Number? then probabilities[r].v else 0.0
  }

  /** Positive numbers, nothing undefined, adding up to one. */
  ghost predicate IsDistribution(order: seq<RouteId>, probabilities: map<RouteId, Double>) {
    && (forall r :: r in probabilities ==> probabilities[r].Number? && probabilities[r].v > 0.0)
    && Sum(order, ValueOf(probabilities)) == 1.0
  }

  /** If each `f` times `d` falls short of `s` by the cost, so does the sum. */
  lemma {:induction false} SumOfShortfalls(
    order: seq<RouteId>, cost: RouteId -> real, f: RouteId -> real, s: real, d: real, x: real)
    requires forall r :: r in order ==> Scaled(f(r), d) == s - cost(r)
    requires x == Sum(order, f)
    ensures Scaled(x, d) == Scaled(|order| as real, s) - Sum(order, cost)
  {
    if order != [] {
      assert order[0] in order;
      SumOfShortfalls(order[1..], cost, f, s, d, x - f(order[0]));
      TakeOut(f(order[0]), x, d);
      OneLess(|order|, s);
    }
  }

  lemma QuotientBack(a: real, d: real)
    requires d != 0.0
    ensures Scaled(a / d, d) == a
  {
  }

  lemma PositiveQuotient(a: real, d: real)
    requires a > 0.0 && d > 0.0
    ensures a / d > 0.0
  {
  }

  lemma OrderedQuotients(a: real, b: real, d: real)
    requires d > 0.0
    ensures a < b <==> a / d < b / d
  {
    QuotientBack(a, d);
    QuotientBack(b, d);
  }

  lemma ProductIsOne(x: real, d: real)
    requires d > 0.0 && Scaled(x, d) == d
    ensures x == 1.0
  {
  }

  lemma PositiveShare(c: real, s: real, n: nat)
    requires n >= 2 && 0.0 < c < s
    ensures Scaled((n - 1) as real, s) > 0.0
    ensures ProbabilityOf(c, s, n, n) == Number((s - c) / Scaled((n - 1) as real, s))
    ensures (s - c) / Scaled((n - 1) as real, s) > 0.0
  {
    assert (n - 1) as real >= 1.0;
    PositiveScale((n - 1) as real, s);
    PositiveQuotient(s - c, Scaled((n - 1) as real, s));
  }

  /** What the result holds for one route, when the loop is reached at all. */
  lemma {:induction false} ProbabilitiesAt(order: seq<RouteId>, costs: map<RouteId, real>, r: RouteId)
    requires Lists(order, costs.Keys) && r in costs
    requires PositiveCount(order, CostOf(costs)) > 0 && Sum(order, CostOf(costs)) > 0.0
    ensures var p := ProbabilityOf(costs[r], Sum(order, CostOf(costs)), PositiveCount(order, CostOf(costs)), |order|);
            && (r in Probabilities(order, costs) <==> p != Number(0.0))
            && (r in Probabilities(order, costs) ==> Probabilities(order, costs)[r] == p)
    ensures Probabilities(order, costs).Keys <= costs.Keys
  {
    hide ProbabilityOf, PositiveCount;
  }

  lemma {:induction false} PositiveCostShares(
      order: seq<RouteId>, costs: map<RouteId, real>, r: RouteId, s: real, d: real)
    requires Lists(order, costs.Keys) && |order| >= 2 && r in costs
    requires forall r :: r in costs ==> costs[r] > 0.0
    requires s == Sum(order, CostOf(costs)) && d == Scaled((|order| - 1) as real, s)
    ensures var p := Probabilities(order, costs);
            d > 0.0 && p.Keys <= costs.Keys && r in p && p[r] == Number((s - costs[r]) / d) && p[r].v > 0.0
            && Scaled(ValueOf(p)(r), d) == s - CostOf(costs)(r)
  {
    hide ProbabilityOf, Probabilities, PositiveCount, Sum, Scaled;
    assert forall q :: q in order ==> CostOf(costs)(q) > 0.0;
    AllPositiveSum(order, CostOf(costs));
    PositiveShare(costs[r], s, |order|);
    ProbabilitiesAt(order, costs, r);
    QuotientBack(s - costs[r], d);
    var p := Probabilities(order, costs);
    assert p[r] == Number((s - costs[r]) / d);
  }

  /** What a route of cost `c` gets of a total `s` over `n` routes: what the others cost, shared evenly. */
  predicate IsShare(v: real, c: real, s: real, n: nat) {
    v * ((n as real - 1.0) * s) == s - c
  }

  lemma ShareWritten(v: real, c: real, s: real, n: nat)
    requires n > 0 && Scaled(v, Scaled((n - 1) as real, s)) == s - c
    ensures IsShare(v, c, s, n)
  {
    assert (n - 1) as real == n as real - 1.0;
  }

  lemma {:induction false} EveryRouteGetsItsShare(order: seq<RouteId>, costs: map<RouteId, real>, r: RouteId)
    requires Lists(order, costs.Keys) && |order| >= 2 && r in costs
    requires forall r :: r in costs ==> costs[r] > 0.0
    ensures var p := Probabilities(order, costs);
            r in p && p[r].Number? && IsShare(p[r].v, costs[r], Sum(order, CostOf(costs)), |order|)
  {
    hide Probabilities, Scaled, Sum, IsShare;
    var s := Sum(order, CostOf(costs));
    PositiveCostShares(order, costs, r, s, Scaled((|order| - 1) as real, s));
    ShareWritten(Probabilities(order, costs)[r].v, costs[r], s, |order|);
  }

  /** Two or more positive costs: every route gets a positive probability, cheaper routes get more,
      and together they make one. */
  lemma PositiveCostsGiveDistribution(order: seq<RouteId>, costs: map<RouteId, real>)
    requires Lists(order, costs.Keys) && |order| >= 2
    requires forall r :: r in costs ==> costs[r] > 0.0
    ensures var p := Probabilities(order, costs);
            && IsDistribution(order, p) && p.Keys == costs.Keys
            && forall a, b :: a in costs && b in costs && costs[a] < costs[b] ==> p[a].v > p[b].v
  {
    hide Probabilities, PositiveCount, Scaled;
    var s := Sum(order, CostOf(costs));
    var d := Scaled((|order| - 1) as real, s);
    var p := Probabilities(order, costs);
    forall r | r in costs
      ensures d > 0.0 && p.Keys <= costs.Keys
      ensures r in p && p[r] == Number((s - costs[r]) / d) && p[r].v > 0.0
      ensures Scaled(ValueOf(p)(r), d) == s - CostOf(costs)(r)
    {
      PositiveCostShares(order, costs, r, s, d);
    }
    assert order[0] in costs;
    var x := Sum(order, ValueOf(p));
    SumOfShortfalls(order, CostOf(costs), ValueOf(p), s, d, x);
    OneLess(|order|, s);
    ProductIsOne(x, d);
    forall a, b | a in costs && b in costs && costs[a] < costs[b] ensures p[a].v > p[b].v {
      OrderedQuotients(s - costs[b], s - costs[a], d);
    }
  }

  lemma OneLess(n: int, s: real)
    ensures Scaled(n as real, s) - s == Scaled((n - 1) as real, s)
  {
    assert (n - 1) as real == n as real - 1.0;
  }

  lemma PositiveScale(a: real, b: real)
    requires a > 0.0 && b > 0.0
    ensures a * b > 0.0
  {
  }

  lemma {:induction false} NonNegativeSum(order: seq<RouteId>, cost: RouteId -> real)
    requires forall r :: r in order ==> cost(r) >= 0.0
    ensures Sum(order, cost) >= 0.0
    ensures PositiveCount(order, cost) > 0 ==> Sum(order, cost) > 0.0
  {
    if order != [] {
      assert order[0] in order;
      NonNegativeSum(order[1..], cost);
    }
  }

  /** Giving one unit to every route whose cost is not positive. */
  lemma {:induction false} UnitsForZeros(
      order: seq<RouteId>, cost: RouteId -> real, f: RouteId -> real, unit: real, zeros: int)
    requires forall r :: r in order ==> f(r) == if cost(r) > 0.0 then 0.0 else unit
    requires zeros == |order| - PositiveCount(order, cost)
    ensures Sum(order, f) == Scaled(zeros as real, unit)
  {
    if order != [] {
      assert order[0] in order;
      UnitsForZeros(order[1..], cost, f, unit, if cost(order[0]) > 0.0 then zeros else zeros - 1);
      OneLess(zeros, unit);
      hide Scaled;
    }
  }

  /** For costs that are not negative the result is a distribution exactly when there are at least
      two routes and all of them cost something, or there are two and one of them is free. */
  lemma {:induction false} DistributionIff(order: seq<RouteId>, costs: map<RouteId, real>)
    requires Lists(order, costs.Keys)
    requires forall r :: r in costs ==> costs[r] >= 0.0
    ensures var m := PositiveCount(order, CostOf(costs));
            IsDistribution(order, Probabilities(order, costs)) <==>
              (m == |order| && |order| >= 2) || (m == 1 && |order| == 2)
  {
    var cost := CostOf(costs);
    var m, n, s := PositiveCount(order, cost), |order|, Sum(order, cost);
    AllPositiveSum(order, cost);
    NonNegativeSum(order, cost);
    var p := Probabilities(order, costs);
    if m == 0 {
      SumOfNothing(order, ValueOf(p));
    } else if m == n {
      if n == 1 {
        assert p[order[0]] == NaN;
      } else {
        PositiveCostsGiveDistribution(order, costs);
      }
    } else {
      SomeRoutesFree(order, costs);
    }
  }

  lemma {:induction false} SumOfNothing(order: seq<RouteId>, f: RouteId -> real)
    requires forall r :: r in order ==> f(r) == 0.0
    ensures Sum(order, f) == 0.0
  {
    if order != [] {
      assert order[0] in order;
      SumOfNothing(order[1..], f);
    }
  }

  /** With some routes free, a free route gets the integer quotient one over the number of routes
      that cost something, and the others get nothing. */
  lemma {:induction false} FreeRouteShare(order: seq<RouteId>, costs: map<RouteId, real>, r: RouteId)
    requires Lists(order, costs.Keys) && r in costs && costs[r] >= 0.0
    requires 0 < PositiveCount(order, CostOf(costs)) < |order| && Sum(order, CostOf(costs)) > 0.0
    ensures var p := Probabilities(order, costs);
            && p.Keys <= costs.Keys
            && (r in p <==> costs[r] == 0.0 && PositiveCount(order, CostOf(costs)) == 1)
            && (r in p ==> p[r] == Number(1.0))
  {
    hide Probabilities, PositiveCount, Sum;
    ProbabilitiesAt(order, costs, r);
    var m := PositiveCount(order, CostOf(costs));
    assert m == 1 ==> 1 / m == 1;
    assert m > 1 ==> 1 / m == 0;
  }

  lemma {:induction false} SomeRoutesFree(order: seq<RouteId>, costs: map<RouteId, real>)
    requires Lists(order, costs.Keys)
    requires forall r :: r in costs ==> costs[r] >= 0.0
    requires 0 < PositiveCount(order, CostOf(costs)) < |order|
    ensures IsDistribution(order, Probabilities(order, costs)) <==>
              PositiveCount(order, CostOf(costs)) == 1 && |order| == 2
  {
    hide Probabilities, PositiveCount, Sum;
    var cost := CostOf(costs);
    var m, n := PositiveCount(order, cost), |order|;
    NonNegativeSum(order, cost);
    var p := Probabilities(order, costs);
    var unit := if m == 1 then 1.0 else 0.0;
    forall r | r in costs
      ensures p.Keys <= costs.Keys
      ensures r in p <==> costs[r] == 0.0 && m == 1
      ensures r in p ==> p[r] == Number(1.0)
      ensures ValueOf(p)(r) == if cost(r) > 0.0 then 0.0 else unit
    {
      FreeRouteShare(order, costs, r);
    }
    UnitsForZeros(order, cost, ValueOf(p), unit, n - m);
    assert order[0] in costs;
    assert Sum(order, ValueOf(p)) == if m == 1 then (n - 1) as real else 0.0;
  }

  /** A penalty raises a route's cost by the share it names; a route without one keeps its cost, and a
      route that is only named costs nothing. */
  lemma PenaltyIs(costs: map<RouteId, real>, correlated: map<RouteId, real>, r: RouteId)
    requires r in costs || r in correlated
    ensures r in Penalised(costs, correlated)
    ensures r in costs && r in correlated ==>
              Penalised(costs, correlated)[r] == costs[r] * (1.0 + correlated[r])
    ensures r !in correlated ==> Penalised(costs, correlated)[r] == costs[r]
    ensures r !in costs ==> Penalised(costs, correlated)[r] == 0.0
  {
    if r in costs && r in correlated {
      assert costs[r] * (1.0 + correlated[r]) == costs[r] + costs[r] * correlated[r];
    }
  }

  /** Penalties that are not negative keep positive costs positive. */
  lemma PenaltiesKeepPositive(costs: map<RouteId, real>, correlated: map<RouteId, real>)
    requires correlated.Keys <= costs.Keys
    requires forall r :: r in costs ==> costs[r] > 0.0
    requires forall r :: r in correlated ==> correlated[r] >= 0.0
    ensures Penalised(costs, correlated).Keys == costs.Keys
    ensures forall r :: r in costs ==> Penalised(costs, correlated)[r] >= costs[r] > 0.0
  {
    forall r | r in correlated ensures costs[r] * correlated[r] >= 0.0 {
      assert r in costs;
    }
  }

  // ---------------------------------------------------------------- getEvent

  const EPS: real := 0.000000001

  function Weight(order: seq<RouteId>, p: RouteId -> real, k: nat): real
    requires k <= |order|
  {
    if k == 0 then 0.0 else Weight(order, p, k - 1) + p(order[k - 1])
  }

  /** The draw `r` falls to the `k`-th route: past the intervals before it, not past its own. */
  predicate FallsTo(order: seq<RouteId>, p: RouteId -> real, r: real, k: nat)
    requires k < |order|
  {
    && (k > 0 ==> Weight(order, p, k) + EPS <= r)
    && (k < |order| - 1 ==> r < Weight(order, p, k + 1) + EPS)
  }

  method GetEvent(order: seq<RouteId>, probabilities: map<RouteId, real>, draw: real) returns (choice: RouteId)
    requires forall r :: r in order ==> r in probabilities && probabilities[r] >= 0.0
    ensures order == [] ==> choice == ""
    ensures order != [] ==> exists k ::
              0 <= k < |order| && choice == order[k] && FallsTo(order, CostOf(probabilities), draw, k)
  {
    ghost var p := CostOf(probabilities);
    var r := draw;
    var lastChoice := "";
    for k := 0 to |order|
      invariant r == draw - Weight(order, p, k)
      invariant if k > 0 then lastChoice == order[k - 1] && r >= EPS else lastChoice == ""
      invariant k > 0 ==> Weight(order, p, k) + EPS <= draw
    {
      r := r - probabilities[order[k]];
      lastChoice := order[k];
      if r < EPS {
        assert FallsTo(order, p, draw, k);
        return lastChoice;
      }
    }
    if order != [] {
      assert order[|order| - 1] in order;
      assert FallsTo(order, p, draw, |order| - 1);
    }
    return lastChoice;
  }

  lemma {:induction false} WeightGrows(order: seq<RouteId>, p: RouteId -> real, j: nat, k: nat)
    requires j <= k <= |order| && forall r :: r in order ==> p(r) >= 0.0
    ensures Weight(order, p, j) <= Weight(order, p, k)
    decreases k - j
  {
    if j < k {
      assert order[k - 1] in order;
      WeightGrows(order, p, j, k - 1);
    }
  }

  /** No draw falls to two routes. */
  lemma {:induction false} DrawFallsToOne(order: seq<RouteId>, p: RouteId -> real, r: real, j: nat, k: nat)
    requires j < |order| && k < |order| && forall r :: r in order ==> p(r) >= 0.0
    requires FallsTo(order, p, r, j) && FallsTo(order, p, r, k)
    ensures j == k
  {
    if j < k { WeightGrows(order, p, j + 1, k); }
    if k < j { WeightGrows(order, p, k + 1, j); }
  }

  lemma {:induction false} WeightIsSum(order: seq<RouteId>, p: RouteId -> real, k: nat)
    requires k <= |order|
    ensures Weight(order, p, k) + Sum(order[k..], p) == Sum(order, p)
  {
    if k > 0 {
      WeightIsSum(order, p, k - 1);
      assert order[k - 1..][1..] == order[k..];
    } else {
      assert order[0..] == order;
    }
  }

  function AtMostOne(x: real): real { if x < 1.0 then x else 1.0 }

  /** The draws in [0, 1) that fall to the `k`-th route lie from the lower end up to the upper one. */
  function LowerEnd(order: seq<RouteId>, p: RouteId -> real, k: nat): real
    requires k < |order|
  {
    if k == 0 then 0.0 else AtMostOne(Weight(order, p, k) + EPS)
  }

  function UpperEnd(order: seq<RouteId>, p: RouteId -> real, k: nat): real
    requires k < |order|
  {
    if k == |order| - 1 then 1.0 else AtMostOne(Weight(order, p, k + 1) + EPS)
  }

  /** For a distribution, every route is drawn on an interval whose length is its probability up to
      EPS, the first and the last route included. */
  lemma {:induction false} DrawsFormIntervals(order: seq<RouteId>, p: RouteId -> real, k: nat)
    requires k < |order| && (forall r :: r in order ==> p(r) >= 0.0) && Sum(order, p) == 1.0
    ensures 0.0 <= LowerEnd(order, p, k) <= UpperEnd(order, p, k) <= 1.0
    ensures forall r :: 0.0 <= r < 1.0 ==>
              (FallsTo(order, p, r, k) <==> LowerEnd(order, p, k) <= r < UpperEnd(order, p, k))
    ensures -EPS <= UpperEnd(order, p, k) - LowerEnd(order, p, k) - p(order[k]) <= EPS
  {
    assert order[k] in order;
    WeightIsSum(order, p, |order|);
    WeightGrows(order, p, 0, k);
    WeightGrows(order, p, k + 1, |order|);
    assert Weight(order, p, k + 1) == Weight(order, p, k) + p(order[k]);
  }

  // ---------------------------------------------------------------- the cheapest route

  predicate Eligible(costs: map<RouteId, real>, maxDouble: real, r: RouteId) {
    r in costs && 0.0 <= costs[r] < maxDouble
  }

  /** The first of the cheapest eligible routes, unless one of them is free. */
  method ChooseMinCostRoute(order: seq<RouteId>, costs: map<RouteId, real>, maxDouble: real) returns (choice: RouteId)
    requires Lists(order, costs.Keys) && maxDouble > 0.0
    ensures (exists r :: r in costs && costs[r] == 0.0) ||
            (forall r :: r in costs ==> !Eligible(costs, maxDouble, r)) ==>
              choice == ""
    ensures (forall r :: r in costs ==> costs[r] != 0.0) &&
            (exists r :: r in costs && Eligible(costs, maxDouble, r)) ==>
              exists k :: 0 <= k < |order| && choice == order[k] && Eligible(costs, maxDouble, choice) &&
                          (forall r :: Eligible(costs, maxDouble, r) ==> costs[choice] <= costs[r]) &&
                          forall j :: 0 <= j < k && Eligible(costs, maxDouble, order[j]) ==>
                            costs[choice] < costs[order[j]]
  {
    var minCost := maxDouble;
    var chosenRouteId := "";
    ghost var best := -1;
    for k := 0 to |order|
      invariant -1 <= best < k
      invariant if best == -1 then minCost == maxDouble && chosenRouteId == ""
                else chosenRouteId == order[best] && Eligible(costs, maxDouble, chosenRouteId) &&
                     minCost == costs[chosenRouteId]
      invariant forall j :: 0 <= j < k && Eligible(costs, maxDouble, order[j]) ==>
                  best != -1 && minCost <= costs[order[j]]
      invariant forall j :: 0 <= j < best && Eligible(costs, maxDouble, order[j]) ==> minCost < costs[order[j]]
    {
      var value := costs[order[k]];
      if value >= 0.0 && value < minCost {
        minCost, chosenRouteId, best := value, order[k], k;
      }
    }
    if minCost == 0.0 {
      chosenRouteId := "";
    }
    choice := chosenRouteId;
  }

  // ---------------------------------------------------------------- logit

  /** What the C library's exponential is assumed to satisfy. */
  ghost predicate Exponential(exp: real -> real) {
    && (forall x :: exp(x) > 0.0)
    && forall x, y :: exp(Plus(x, y)) == Scaled(exp(x), exp(y))
  }

  function Plus(x: real, y: real): real { x + y }

  function WeightedSum(exp: real -> real, ids: seq<RouteId>, cost: RouteId -> real, theta: real, r: RouteId): real {
    Sum(ids, Term(exp, cost, theta, r))
  }

  function Gap(theta: real, a: real, b: real): real { theta * (a - b) }

  function Term(exp: real -> real, cost: RouteId -> real, theta: real, r: RouteId): RouteId -> real {
    s => exp(Gap(theta, cost(r), cost(s)))
  }

  /** The inner loop. */
  method SumTerms(exp: real -> real, ids: seq<RouteId>, costs: map<RouteId, real>, theta: real, r: RouteId)
    returns (weightedSum: real)
    requires Exponential(exp)
    ensures weightedSum == WeightedSum(exp, ids, CostOf(costs), theta, r)
    ensures ids != [] ==> weightedSum > 0.0
  {
    weightedSum := 0.0;
    ghost var term := Term(exp, CostOf(costs), theta, r);
    for j := 0 to |ids|
      invariant Sum(ids, term) == weightedSum + Sum(ids[j..], term)
      invariant weightedSum >= 0.0 && (j > 0 ==> weightedSum > 0.0)
    {
      var s := ids[j];
      assert ids[j..][1..] == ids[j + 1..];
      var cr := if r in costs then costs[r] else 0.0;
      var cs := if s in costs then costs[s] else 0.0;
      weightedSum := weightedSum + exp(Gap(theta, cr, cs));
    }
  }

  lemma ExpOfNothing(exp: real -> real)
    requires Exponential(exp)
    ensures exp(0.0) == 1.0
  {
    var z := 0.0;
    assert Plus(z, z) == z;
    OwnSquare(exp(z));
  }

  lemma OwnSquare(x: real)
    requires x > 0.0 && Scaled(x, x) == x
    ensures x == 1.0
  {
    assert x * (x - 1.0) == 0.0;
  }

  lemma Opposites(exp: real -> real, theta: real, x: real, y: real)
    requires Exponential(exp)
    ensures Scaled(exp(Gap(theta, x, y)), exp(Gap(theta, y, x))) == 1.0
  {
    ExpOfNothing(exp);
    GapsAdd(theta, x, y, x);
    assert Gap(theta, x, x) == 0.0;
    assert exp(Plus(Gap(theta, x, y), Gap(theta, y, x))) == Scaled(exp(Gap(theta, x, y)), exp(Gap(theta, y, x)));
  }

  lemma GapsAdd(theta: real, x: real, y: real, z: real)
    ensures Plus(Gap(theta, x, y), Gap(theta, y, z)) == Gap(theta, x, z)
  {
  }

  /** Seen from `b` instead of `a`, every term changes by one factor. */
  lemma TermChanges(exp: real -> real, theta: real, a: real, b: real, s: real)
    requires Exponential(exp)
    ensures exp(Gap(theta, b, s)) == Scaled(exp(Gap(theta, b, a)), exp(Gap(theta, a, s)))
  {
    GapsAdd(theta, b, a, s);
    assert exp(Plus(Gap(theta, b, a), Gap(theta, a, s))) == Scaled(exp(Gap(theta, b, a)), exp(Gap(theta, a, s)));
  }

  lemma {:induction false} WeightedSumChanges(
      exp: real -> real, ids: seq<RouteId>, cost: RouteId -> real, theta: real, a: RouteId, b: RouteId)
    requires Exponential(exp)
    ensures WeightedSum(exp, ids, cost, theta, b) ==
              Scaled(exp(Gap(theta, cost(b), cost(a))), WeightedSum(exp, ids, cost, theta, a))
  {
    var f, t, u := exp(Gap(theta, cost(b), cost(a))), Term(exp, cost, theta, a), Term(exp, cost, theta, b);
    if ids == [] {
      assert Scaled(f, 0.0) == 0.0;
    } else {
      WeightedSumChanges(exp, ids[1..], cost, theta, a, b);
      TermChanges(exp, theta, cost(a), cost(b), cost(ids[0]));
      hide Gap, Exponential;
      assert u(ids[0]) == Scaled(f, t(ids[0]));
      AddScaled(f, t(ids[0]), Sum(ids[1..], t));
      hide Scaled, Term;
      assert Sum(ids, t) == t(ids[0]) + Sum(ids[1..], t);
      assert Sum(ids, u) == u(ids[0]) + Sum(ids[1..], u);
    }
  }

  lemma AddScaled(f: real, x: real, y: real)
    ensures Scaled(f, x + y) == Scaled(f, x) + Scaled(f, y)
  {
  }

  /** The odds of two routes: the exponential of theta times what the first costs more. */
  lemma {:induction false} LogitOdds(
      exp: real -> real, ids: seq<RouteId>, cost: RouteId -> real, theta: real, a: RouteId, b: RouteId)
    requires Exponential(exp)
    requires WeightedSum(exp, ids, cost, theta, a) > 0.0 && WeightedSum(exp, ids, cost, theta, b) > 0.0
    ensures 1.0 / WeightedSum(exp, ids, cost, theta, b) ==
              Scaled(1.0 / WeightedSum(exp, ids, cost, theta, a), exp(Gap(theta, cost(a), cost(b))))
  {
    WeightedSumChanges(exp, ids, cost, theta, a, b);
    Opposites(exp, theta, cost(b), cost(a));
    hide Exponential, WeightedSum, Gap, Scaled;
    Inverse(WeightedSum(exp, ids, cost, theta, a), WeightedSum(exp, ids, cost, theta, b),
            exp(Gap(theta, cost(b), cost(a))), exp(Gap(theta, cost(a), cost(b))));
  }

  lemma Inverse(a: real, b: real, f: real, g: real)
    requires a > 0.0 && b > 0.0 && b == Scaled(f, a) && Scaled(f, g) == 1.0
    ensures 1.0 / b == Scaled(1.0 / a, g)
  {
    var p := 1.0 / a * g;
    assert p * b == 1.0 by {
      assert 1.0 / a * a == 1.0;
      assert p * b == (1.0 / a * a) * (g * f);
    }
    QuotientUnique(p, b);
  }

  lemma QuotientUnique(p: real, b: real)
    requires b > 0.0 && p * b == 1.0
    ensures 1.0 / b == p
  {
  }

  ghost predicate Increasing(f: real -> real) {
    forall x, y :: x < y ==> f(x) < f(y)
  }

  /** Cheaper routes are likelier. */
  lemma CheaperIsLikelier(exp: real -> real, theta: real, ca: real, cb: real, pa: real, pb: real)
    requires Exponential(exp) && Increasing(exp) && theta > 0.0 && ca < cb && pa > 0.0
    requires pb == Scaled(pa, exp(Gap(theta, ca, cb)))
    ensures pb < pa
  {
    NegativeGap(theta, ca, cb);
    ExpOfNothing(exp);
    hide Gap, Scaled, Exponential;
    assert exp(Gap(theta, ca, cb)) < exp(0.0);
    SmallerShare(pa, exp(Gap(theta, ca, cb)));
  }

  lemma NegativeGap(theta: real, ca: real, cb: real)
    requires theta > 0.0 && ca < cb
    ensures Gap(theta, ca, cb) < 0.0
  {
    PositiveScale(theta, cb - ca);
    assert theta * (ca - cb) == -(theta * (cb - ca));
  }

  lemma SmallerShare(p: real, e: real)
    requires p > 0.0 && e < 1.0
    ensures Scaled(p, e) < p
  {
    PositiveScale(p, 1.0 - e);
    assert p * (1.0 - e) == p - p * e;
  }

  /** The odds of two routes are the exponential of theta times what the first costs more. */
  predicate Odds(exp: real -> real, theta: real, ca: real, cb: real, pa: real, pb: real) {
    pb == pa * exp(theta * (ca - cb))
  }

  ghost predicate OddsFollowCosts(
    exp: real -> real, ids: seq<RouteId>, cost: RouteId -> real, theta: real, p: map<RouteId, real>)
  {
    forall a, b :: a in ids && b in ids && a in p && b in p ==> Odds(exp, theta, cost(a), cost(b), p[a], p[b])
  }

  ghost predicate CheaperFirst(ids: seq<RouteId>, cost: RouteId -> real, p: map<RouteId, real>) {
    forall a, b :: a in ids && b in ids && a in p && b in p && cost(a) < cost(b) ==> p[b] < p[a]
  }

  lemma OddsWritten(exp: real -> real, theta: real, x: real, y: real, pa: real, pb: real)
    requires pb == Scaled(pa, exp(Gap(theta, x, y)))
    ensures Odds(exp, theta, x, y, pa, pb)
  {
  }

  lemma {:induction false} LogitLaws(
      exp: real -> real, ids: seq<RouteId>, cost: RouteId -> real, theta: real, p: map<RouteId, real>)
    requires Exponential(exp)
    requires forall r :: r in ids ==>
               WeightedSum(exp, ids, cost, theta, r) > 0.0 &&
               r in p && p[r] == 1.0 / WeightedSum(exp, ids, cost, theta, r)
    ensures OddsFollowCosts(exp, ids, cost, theta, p)
    ensures theta > 0.0 && Increasing(exp) ==> CheaperFirst(ids, cost, p)
  {
    hide WeightedSum, Exponential, Increasing, Gap, Scaled, Odds;
    forall a, b | a in ids && b in ids
      ensures Odds(exp, theta, cost(a), cost(b), p[a], p[b])
      ensures theta > 0.0 && Increasing(exp) && cost(a) < cost(b) ==> p[b] < p[a]
    {
      LogitOdds(exp, ids, cost, theta, a, b);
      OddsWritten(exp, theta, cost(a), cost(b), p[a], p[b]);
      PositiveQuotient(1.0, WeightedSum(exp, ids, cost, theta, a));
      if theta > 0.0 && Increasing(exp) && cost(a) < cost(b) {
        CheaperIsLikelier(exp, theta, cost(a), cost(b), p[a], p[b]);
      }
    }
  }

  /** The outer loop. */
  method InvertSums(exp: real -> real, ids: seq<RouteId>, costs: map<RouteId, real>, theta: real)
    returns (probabilities: map<RouteId, real>)
    requires Exponential(exp)
    ensures forall r :: r in probabilities <==> r in ids
    ensures forall r :: r in ids ==>
              WeightedSum(exp, ids, CostOf(costs), theta, r) > 0.0 &&
              probabilities[r] == 1.0 / WeightedSum(exp, ids, CostOf(costs), theta, r)
  {
    hide WeightedSum, Exponential;
    ghost var cost := CostOf(costs);
    probabilities := map[];
    for i := 0 to |ids|
      invariant forall r :: r in probabilities <==> r in ids[..i]
      invariant forall r :: r in ids[..i] ==>
                  WeightedSum(exp, ids, cost, theta, r) > 0.0 &&
                  probabilities[r] == 1.0 / WeightedSum(exp, ids, cost, theta, r)
    {
      var r := ids[i];
      var weightedSum := SumTerms(exp, ids, costs, theta, r);
      probabilities := probabilities[r := 1.0 / weightedSum];
      assert ids[..i + 1] == ids[..i] + [r];
    }
    assert ids[..|ids|] == ids;
  }

  /** The probabilities add up to one, and the odds of two routes are the exponential of theta times
      the difference of their costs, so cheaper routes are likelier. */
  method GetCLogitProbabilities(exp: real -> real, ids: seq<RouteId>, costs: map<RouteId, real>, theta: real)
    returns (probabilities: map<RouteId, real>)
    requires Exponential(exp)
    ensures forall r :: r in probabilities <==> r in ids
    ensures forall r :: r in ids ==>
              WeightedSum(exp, ids, CostOf(costs), theta, r) > 0.0 &&
              probabilities[r] == 1.0 / WeightedSum(exp, ids, CostOf(costs), theta, r)
    ensures ids != [] ==> Sum(ids, CostOf(probabilities)) == 1.0
    ensures OddsFollowCosts(exp, ids, CostOf(costs), theta, probabilities)
    ensures theta > 0.0 && Increasing(exp) ==> CheaperFirst(ids, CostOf(costs), probabilities)
  {
    hide WeightedSum, Exponential, Increasing, Odds, OddsFollowCosts, CheaperFirst;
    probabilities := InvertSums(exp, ids, costs, theta);
    if ids != [] {
      LogitSumsToOne(exp, ids, CostOf(costs), theta, CostOf(probabilities));
    }
    LogitLaws(exp, ids, CostOf(costs), theta, probabilities);
  }

  /** Every inverse weighted sum is the route's own exponential over a common total. */
  lemma {:induction false} LogitSumsToOne(
      exp: real -> real, ids: seq<RouteId>, cost: RouteId -> real, theta: real, p: RouteId -> real)
    requires Exponential(exp) && ids != []
    requires forall r :: r in ids ==>
               WeightedSum(exp, ids, cost, theta, r) > 0.0 && p(r) == 1.0 / WeightedSum(exp, ids, cost, theta, r)
    ensures Sum(ids, p) == 1.0
  {
    var e := Utility(exp, cost, theta);
    forall r ensures e(r) > 0.0 { assert exp(Gap(theta, 0.0, cost(r))) > 0.0; }
    SumPositive(ids, e);
    var total := Sum(ids, e);
    forall r | r in ids ensures Scaled(p(r), total) == e(r) {
      ScaledTerms(exp, ids, cost, theta, r);
      ShareOfTotal(p(r), WeightedSum(exp, ids, cost, theta, r), e(r), total);
    }
    var x := Sum(ids, p);
    hide Scaled;
    SumOfShares(ids, p, e, total, x);
    ProductIsOne(x, total);
  }

  function Utility(exp: real -> real, cost: RouteId -> real, theta: real): RouteId -> real {
    s => exp(Gap(theta, 0.0, cost(s)))
  }

  lemma ShareOfTotal(p: real, w: real, e: real, total: real)
    requires w > 0.0 && p == 1.0 / w && Scaled(w, e) == total
    ensures Scaled(p, total) == e
  {
    assert p * total == p * (w * e) == (p * w) * e;
  }

  lemma {:induction false} SumPositive(ids: seq<RouteId>, e: RouteId -> real)
    requires forall r :: e(r) > 0.0
    ensures Sum(ids, e) >= 0.0 && (ids != [] ==> Sum(ids, e) > 0.0)
  {
    if ids != [] { SumPositive(ids[1..], e); }
  }

  lemma {:induction false} SumOfShares(ids: seq<RouteId>, p: RouteId -> real, e: RouteId -> real, total: real, x: real)
    requires forall r :: r in ids ==> Scaled(p(r), total) == e(r)
    requires x == Sum(ids, p)
    ensures Scaled(x, total) == Sum(ids, e)
  {
    if ids != [] {
      assert ids[0] in ids;
      SumOfShares(ids[1..], p, e, total, x - p(ids[0]));
      TakeOut(p(ids[0]), x, total);
    }
  }

  lemma TakeOut(a: real, x: real, d: real)
    ensures Scaled(x, d) == Scaled(a, d) + Scaled(x - a, d)
  {
  }

  lemma Spread(a: real, b: real, c: real)
    ensures Plus(Gap(a, b, c), Gap(a, 0.0, b)) == Gap(a, 0.0, c)
  {
  }

  lemma TermIsRatio(exp: real -> real, cost: RouteId -> real, theta: real, r: RouteId, s: RouteId)
    requires Exponential(exp)
    ensures Scaled(Term(exp, cost, theta, r)(s), Utility(exp, cost, theta)(r)) == Utility(exp, cost, theta)(s)
  {
    var x, y := Gap(theta, cost(r), cost(s)), Gap(theta, 0.0, cost(r));
    Spread(theta, cost(r), cost(s));
    assert exp(Plus(x, y)) == Scaled(exp(x), exp(y));
  }

  lemma {:induction false} ScaledSum(
      exp: real -> real, ids: seq<RouteId>, cost: RouteId -> real, theta: real, r: RouteId)
    requires Exponential(exp)
    ensures Scaled(Sum(ids, Term(exp, cost, theta, r)), Utility(exp, cost, theta)(r)) ==
              Sum(ids, Utility(exp, cost, theta))
  {
    if ids != [] {
      hide Exponential, Utility, Term;
      ScaledSum(exp, ids[1..], cost, theta, r);
      TermIsRatio(exp, cost, theta, r, ids[0]);
      var t, u := Term(exp, cost, theta, r), Utility(exp, cost, theta);
      assert Sum(ids, t) * u(r) == t(ids[0]) * u(r) + Sum(ids[1..], t) * u(r);
    }
  }

  lemma {:induction false} ScaledTerms(
      exp: real -> real, ids: seq<RouteId>, cost: RouteId -> real, theta: real, r: RouteId)
    requires Exponential(exp)
    ensures Scaled(WeightedSum(exp, ids, cost, theta, r), Utility(exp, cost, theta)(r)) ==
              Sum(ids, Utility(exp, cost, theta))
  {
    ScaledSum(exp, ids, cost, theta, r);
  }
}
