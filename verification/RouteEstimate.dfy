/** Travel time estimates for routes: the margin scans of src/route.cpp, the static costs of
src/applications/trafficInformationSystem.cpp and `analyseLocalDatabase` of src/knowledge.cpp.

The estimate of a route starts from the static cost of its edges between the margins; a loop over
the record map then replaces static by measured costs one edge at a time.  The records and routes
are visited in some order; every statement holds for any order.
*/
module RouteEstimate {
  import opened Collections

  type EdgeId = string
  type RouteId = string

  // ---------------------------------------------------------------- margins

  /** The edges a margin scan looks at: after the start edge and before the end edge. */
  function Interior(edges: seq<EdgeId>, start: EdgeId, end: EdgeId, monitored: bool): seq<EdgeId> {
    if edges == [] then []
    else
      var now := monitored && edges[0] != end;
      (if now then [edges[0]] else []) + Interior(edges[1..], start, end, now || edges[0] == start)
  }

  /** Without repeated edges the interior is what its name says. */
  lemma {:induction false} InteriorBeforeStart(edges: seq<EdgeId>, start: EdgeId, end: EdgeId, i: nat)
    requires i < |edges| && edges[i] == start && start !in edges[..i]
    ensures Interior(edges, start, end, false) == Interior(edges[i + 1..], start, end, true)
  {
    if i > 0 {
      assert edges[0] in edges[..i] && edges[1..][..i - 1] == edges[..i][1..];
      InteriorBeforeStart(edges[1..], start, end, i - 1);
      assert edges[1..][i..] == edges[i + 1..];
    }
  }

  lemma {:induction false} InteriorUntilEnd(edges: seq<EdgeId>, start: EdgeId, end: EdgeId, j: nat)
    requires j <= |edges| && end !in edges[..j] && (j < |edges| ==> edges[j] == end)
    requires start !in edges
    ensures Interior(edges, start, end, true) == edges[..j]
  {
    if j > 0 {
      assert edges[0] in edges[..j] && edges[1..][..j - 1] == edges[..j][1..];
      InteriorUntilEnd(edges[1..], start, end, j - 1);
      assert edges[..j] == [edges[0]] + edges[1..][..j - 1];
    } else if edges != [] {
      InteriorWithoutStart(edges[1..], start, end);
    }
  }

  lemma {:induction false} InteriorWithoutStart(edges: seq<EdgeId>, start: EdgeId, end: EdgeId)
    requires start !in edges
    ensures Interior(edges, start, end, false) == []
  {
    if edges != [] { InteriorWithoutStart(edges[1..], start, end); }
  }

  lemma {:induction false} InteriorFromRoute(edges: seq<EdgeId>, start: EdgeId, end: EdgeId, monitored: bool)
    ensures forall e :: e in Interior(edges, start, end, monitored) ==> e in edges
    ensures NoDuplicates(edges) ==> NoDuplicates(Interior(edges, start, end, monitored))
  {
    if edges != [] {
      var now := monitored && edges[0] != end;
      InteriorFromRoute(edges[1..], start, end, now || edges[0] == start);
      assert edges == [edges[0]] + edges[1..];
      if NoDuplicates(edges) {
        var rest := Interior(edges[1..], start, end, now || edges[0] == start);
        assert edges[0] !in edges[1..];
        assert edges[0] !in rest;
        forall i, j | 0 <= i < j < |[edges[0]] + rest| ensures ([edges[0]] + rest)[i] != ([edges[0]] + rest)[j] {
          if i == 0 { assert rest[j - 1] in rest; }
        }
      }
    }
  }

  /** The edges strictly between the margins, when no edge repeats and the start lies on the route. */
  lemma {:induction false} InteriorIsBetween(edges: seq<EdgeId>, start: EdgeId, end: EdgeId, i: nat, j: nat)
    requires NoDuplicates(edges) && i < j <= |edges| && edges[i] == start
    requires if j < |edges| then edges[j] == end else end !in edges[i + 1..]
    ensures Interior(edges, start, end, false) == edges[i + 1..j]
  {
    InteriorBeforeStart(edges, start, end, i);
    var rest := edges[i + 1..];
    forall k | 0 <= k < |rest| ensures rest[k] != start { assert rest[k] == edges[i + 1 + k]; }
    forall k | 0 <= k < j - i - 1 ensures rest[k] != end {
      if j < |edges| { assert rest[k] == edges[i + 1 + k]; }
    }
    InteriorUntilEnd(rest, start, end, j - i - 1);
  }

  // ---------------------------------------------------------------- routes

  function Sum(es: seq<EdgeId>, cost: EdgeId -> real): real {
    if es == [] then 0.0 else cost(es[0]) + Sum(es[1..], cost)
  }

  /** `getEdgeStaticCost`: zero for an edge without a static record. */
  function CostIn(staticRecords: map<EdgeId, real>): EdgeId -> real {
    e => if e in staticRecords then staticRecords[e] else 0.0
  }

  method ContainsEdgeExcludedMargins(edgeIds: seq<EdgeId>, edgeId: EdgeId, start: EdgeId, end: EdgeId)
    returns (found: bool)
    ensures found <==> edgeId in Interior(edgeIds, start, end, false)
  {
    var isMonitored := false;
    var k := 0;
    while k < |edgeIds|
      invariant 0 <= k <= |edgeIds|
      invariant edgeId in Interior(edgeIds, start, end, false) <==>
                  edgeId in Interior(edgeIds[k..], start, end, isMonitored)
    {
      var it := edgeIds[k];
      assert edgeIds[k..][1..] == edgeIds[k + 1..];
      if it == end { isMonitored := false; }
      if isMonitored {
        if it == edgeId { return true; }
      }
      if it == start { isMonitored := true; }
      k := k + 1;
    }
    return false;
  }

  method CountEdgesExcludedMargins(edgeIds: seq<EdgeId>, start: EdgeId, end: EdgeId) returns (numberOfEdges: nat)
    ensures numberOfEdges == |Interior(edgeIds, start, end, false)|
  {
    var isMonitored := false;
    numberOfEdges := 0;
    var k := 0;
    while k < |edgeIds|
      invariant 0 <= k <= |edgeIds|
      invariant |Interior(edgeIds, start, end, false)| ==
                  numberOfEdges + |Interior(edgeIds[k..], start, end, isMonitored)|
    {
      var it := edgeIds[k];
      assert edgeIds[k..][1..] == edgeIds[k + 1..];
      if it == end { isMonitored := false; }
      if isMonitored { numberOfEdges := numberOfEdges + 1; }
      if it == start { isMonitored := true; }
      k := k + 1;
    }
  }

  /** One turn of the cost scan. */
  lemma ScanStep(edges: seq<EdgeId>, start: EdgeId, end: EdgeId, monitored: bool, cost: EdgeId -> real)
    requires edges != []
    ensures var now := monitored && edges[0] != end;
            Sum(Interior(edges, start, end, monitored), cost)
            == (if now then cost(edges[0]) else 0.0) +
               Sum(Interior(edges[1..], start, end, now || edges[0] == start), cost)
  {
    var now := monitored && edges[0] != end;
    var rest := Interior(edges[1..], start, end, now || edges[0] == start);
    assert ([edges[0]] + rest)[1..] == rest && [] + rest == rest;
  }

  /** The static cost of a registered route between the margins. */
  method ComputeStaticCostExcludingMargins(edgeIds: seq<EdgeId>, staticRecords: map<EdgeId, real>,
                                           start: EdgeId, end: EdgeId)
    returns (staticCost: real)
    requires forall e :: e in edgeIds ==> e in staticRecords
    ensures staticCost == Sum(Interior(edgeIds, start, end, false), CostIn(staticRecords))
  {
    ghost var cost := CostIn(staticRecords);
    staticCost := 0.0;
    var isMonitored := false;
    var k := 0;
    while k < |edgeIds|
      invariant 0 <= k <= |edgeIds|
      invariant Sum(Interior(edgeIds, start, end, false), cost) ==
                  staticCost + Sum(Interior(edgeIds[k..], start, end, isMonitored), cost)
    {
      var it := edgeIds[k];
      assert edgeIds[k..][1..] == edgeIds[k + 1..];
      ScanStep(edgeIds[k..], start, end, isMonitored, cost);
      if it == end { isMonitored := false; }
      if isMonitored {
        staticCost := staticCost + staticRecords[it];
      }
      if it == start { isMonitored := true; }
      k := k + 1;
    }
  }

  // ---------------------------------------------------------------- the record loop

  /** The latest measured travel time of an edge and when it was measured. */
  datatype Record = Record(value: real, time: real)

  datatype Query = Query(
    routes: map<RouteId, seq<EdgeId>>,
    start: EdgeId,
    end: EdgeId,
    routeTTL: map<RouteId, real>,
    staticRecords: map<EdgeId, real>,
    records: map<EdgeId, Record>,
    now: real)

  function Inner(q: Query, r: RouteId): seq<EdgeId>
    requires r in q.routes
  {
    Interior(q.routes[r], q.start, q.end, false)
  }

  function StaticSum(q: Query, r: RouteId): real
    requires r in q.routes
  {
    Sum(Inner(q, r), CostIn(q.staticRecords))
  }

  function Ttl(q: Query, r: RouteId): real {
    if r in q.routeTTL then q.routeTTL[r] else 0.0
  }

  function PacketAge(q: Query, e: EdgeId): real
    requires e in q.records
  {
    if q.records[e].time == 0.0 then 0.0 else q.now - q.records[e].time
  }

  /** Routes handled in this order, every one of them known to the query. */
  predicate Known(q: Query, order: seq<RouteId>) {
    forall r :: r in order ==> r in q.routes
  }

  /** The age variable after the routes in `order` have been handled for edge `e`: a route that
      finds the information too old resets it to zero. */
  function AgeAfter(q: Query, e: EdgeId, order: seq<RouteId>): real
    requires e in q.records && Known(q, order)
    decreases |order|
  {
    if order == [] then PacketAge(q, e)
    else
      var r := order[|order| - 1];
      var age := AgeAfter(q, e, order[..|order| - 1]);
      if e in Inner(q, r) && q.records[e].value > 0.0 && age > Ttl(q, r) then 0.0 else age
  }

  /** The loop puts the measured cost of `e` into the estimate of the `k`-th route. */
  predicate Uses(q: Query, e: EdgeId, order: seq<RouteId>, k: nat)
    requires Known(q, order) && k < |order|
  {
    && e in q.records && e in Inner(q, order[k])
    && q.records[e].value > 0.0
    && AgeAfter(q, e, order[..k]) < Ttl(q, order[k])
  }

  function Gain(q: Query, e: EdgeId, order: seq<RouteId>, k: nat): real
    requires Known(q, order) && k < |order|
  {
    if Uses(q, e, order, k) then q.records[e].value - CostIn(q.staticRecords)(e) else 0.0
  }

  function GainSum(q: Query, es: seq<EdgeId>, order: seq<RouteId>, k: nat): real
    requires Known(q, order) && k < |order|
    decreases |es|
  {
    if es == [] then 0.0
    else GainSum(q, es[..|es| - 1], order, k) + Gain(q, es[|es| - 1], order, k)
  }

  /** The inner loop for one record: subtract the static and add the measured cost for each route. */
  method ApplyRecord(q: Query, e: EdgeId, routeOrder: seq<RouteId>, before: map<RouteId, real>)
    returns (est: map<RouteId, real>)
    requires e in q.records && Known(q, routeOrder) && NoDuplicates(routeOrder)
    requires forall n :: 0 <= n < |routeOrder| ==> routeOrder[n] in before
    ensures forall n :: 0 <= n < |routeOrder| ==>
              routeOrder[n] in est && est[routeOrder[n]] == before[routeOrder[n]] + Gain(q, e, routeOrder, n)
  {
    hide Interior;
    est := before;
    var travelTime := q.records[e].value;
    var packetAge := if q.records[e].time == 0.0 then 0.0 else q.now - q.records[e].time;
    var staticCost := CostIn(q.staticRecords)(e);
    for k := 0 to |routeOrder|
      invariant packetAge == AgeAfter(q, e, routeOrder[..k])
      invariant forall n :: 0 <= n < |routeOrder| ==>
                  routeOrder[n] in est &&
                  est[routeOrder[n]] == before[routeOrder[n]] + if n < k then Gain(q, e, routeOrder, n) else 0.0
    {
      var r := routeOrder[k];
      assert routeOrder[..k + 1][..k] == routeOrder[..k];
      var contained := ContainsEdgeExcludedMargins(q.routes[r], e, q.start, q.end);
      if contained {
        var maxInformationAge := if r in q.routeTTL then q.routeTTL[r] else 0.0;
        if travelTime > 0.0 && packetAge < maxInformationAge {
          est := est[r := est[r] - staticCost + travelTime];
        } else if travelTime > 0.0 && packetAge > maxInformationAge {
          packetAge := 0.0;
        }
      }
    }
  }

  /** The subtract-static-add-measured loop, over the records and the routes in any order. */
  method AnalyseLocalDatabase(q: Query, edgeOrder: seq<EdgeId>, routeOrder: seq<RouteId>)
    returns (travelTimesOnRoutes: map<RouteId, real>)
    requires forall e :: e in edgeOrder ==> e in q.records
    requires Known(q, routeOrder) && NoDuplicates(routeOrder)
    requires forall r, e :: r in q.routes && e in q.routes[r] ==> e in q.staticRecords
    ensures forall k :: 0 <= k < |routeOrder| ==>
              routeOrder[k] in travelTimesOnRoutes &&
              travelTimesOnRoutes[routeOrder[k]] == StaticSum(q, routeOrder[k]) + GainSum(q, edgeOrder, routeOrder, k)
    ensures Lists(edgeOrder, q.records.Keys) ==>
              forall k ::
                0 <= k < |routeOrder| && NoDuplicates(Inner(q, routeOrder[k])) && SeparateFrom(q, routeOrder, k) ==>
                travelTimesOnRoutes[routeOrder[k]] == Sum(Inner(q, routeOrder[k]), DirectCost(q, routeOrder[k]))
  {
    hide Interior, Sum, Gain;
    var est: map<RouteId, real> := map[];
    for k := 0 to |routeOrder|
      invariant forall n :: 0 <= n < k ==> routeOrder[n] in est && est[routeOrder[n]] == StaticSum(q, routeOrder[n])
    {
      var cost := ComputeStaticCostExcludingMargins(q.routes[routeOrder[k]], q.staticRecords, q.start, q.end);
      est := est[routeOrder[k] := cost];
    }
    for i := 0 to |edgeOrder|
      invariant forall n :: 0 <= n < |routeOrder| ==>
                  routeOrder[n] in est &&
                  est[routeOrder[n]] == StaticSum(q, routeOrder[n]) + GainSum(q, edgeOrder[..i], routeOrder, n)
    {
      assert edgeOrder[..i + 1][..i] == edgeOrder[..i];
      est := ApplyRecord(q, edgeOrder[i], routeOrder, est);
    }
    assert edgeOrder[..|edgeOrder|] == edgeOrder;
    travelTimesOnRoutes := est;
    forall k | 0 <= k < |routeOrder| && Lists(edgeOrder, q.records.Keys) &&
               NoDuplicates(Inner(q, routeOrder[k])) && SeparateFrom(q, routeOrder, k)
      ensures travelTimesOnRoutes[routeOrder[k]] == Sum(Inner(q, routeOrder[k]), DirectCost(q, routeOrder[k]))
    {
      EstimateIsDirect(q, edgeOrder, routeOrder, k);
    }
  }

  // ---------------------------------------------------------------- the incremental sum is the direct sum

  /** The cost of an edge once the records `es` have been visited. */
  function CostAfter(q: Query, es: seq<EdgeId>, order: seq<RouteId>, k: nat): EdgeId -> real
    requires Known(q, order) && k < |order|
  {
    e => if Known(q, order) && k < |order| && e in es && Uses(q, e, order, k) then q.records[e].value
         else CostIn(q.staticRecords)(e)
  }

  lemma {:induction false} SumUnchanged(inner: seq<EdgeId>, f: EdgeId -> real, g: EdgeId -> real)
    requires forall e :: e in inner ==> f(e) == g(e)
    ensures Sum(inner, f) == Sum(inner, g)
  {
    if inner != [] {
      assert inner[0] in inner;
      SumUnchanged(inner[1..], f, g);
    }
  }

  /** Changing the cost of one edge of a repetition-free list changes the sum once. */
  lemma {:induction false} SumChangedAtOne(inner: seq<EdgeId>, f: EdgeId -> real, g: EdgeId -> real, x: EdgeId)
    requires NoDuplicates(inner) && forall e :: e in inner && e != x ==> f(e) == g(e)
    ensures Sum(inner, g) == Sum(inner, f) + if x in inner then g(x) - f(x) else 0.0
  {
    if inner != [] {
      assert inner == [inner[0]] + inner[1..];
      if inner[0] == x {
        assert x !in inner[1..];
        SumUnchanged(inner[1..], f, g);
      } else {
        SumChangedAtOne(inner[1..], f, g, x);
      }
    }
  }

  lemma {:induction false} GainsRearranged(q: Query, es: seq<EdgeId>, order: seq<RouteId>, k: nat)
    requires Known(q, order) && k < |order| && NoDuplicates(es) && NoDuplicates(Inner(q, order[k]))
    ensures StaticSum(q, order[k]) + GainSum(q, es, order, k) == Sum(Inner(q, order[k]), CostAfter(q, es, order, k))
    decreases |es|
  {
    var inner := Inner(q, order[k]);
    if es == [] {
      SumUnchanged(inner, CostIn(q.staticRecords), CostAfter(q, es, order, k));
    } else {
      var front, x := es[..|es| - 1], es[|es| - 1];
      GainsRearranged(q, front, order, k);
      assert es == front + [x] && x !in front;
      CostAfterOneMore(q, front, x, order, k);
      if x !in inner { NoGainOutside(q, x, order, k); }
      hide CostAfter, Gain, Inner;
      SumChangedAtOne(inner, CostAfter(q, front, order, k), CostAfter(q, es, order, k), x);
    }
  }

  /** One more record changes the cost of its own edge by its gain, and no other. */
  lemma CostAfterOneMore(q: Query, front: seq<EdgeId>, x: EdgeId, order: seq<RouteId>, k: nat)
    requires Known(q, order) && k < |order| && x !in front
    ensures forall e :: e != x ==> CostAfter(q, front + [x], order, k)(e) == CostAfter(q, front, order, k)(e)
    ensures CostAfter(q, front + [x], order, k)(x) - CostAfter(q, front, order, k)(x) == Gain(q, x, order, k)
  {
    hide Uses;
    assert x in front + [x];
    assert forall e :: e != x ==> (e in front + [x] <==> e in front);
  }

  lemma NoGainOutside(q: Query, e: EdgeId, order: seq<RouteId>, k: nat)
    requires Known(q, order) && k < |order| && e !in Inner(q, order[k])
    ensures Gain(q, e, order, k) == 0.0
  {
  }

  /** The measurement of an edge is usable for a route: positive and younger than the route allows. */
  predicate Fresh(q: Query, e: EdgeId, r: RouteId) {
    e in q.records && q.records[e].value > 0.0 && PacketAge(q, e) < Ttl(q, r)
  }

  /** What an edge should cost on a route: the fresh positive measurement, or else the static cost. */
  function DirectCost(q: Query, r: RouteId): EdgeId -> real {
    e => if Fresh(q, e, r) then q.records[e].value else CostIn(q.staticRecords)(e)
  }

  // ---------------------------------------------------------------- when stale information revives

  /** Some route in `order` contains the edge and found its information too old. */
  ghost predicate FoundTooOld(q: Query, e: EdgeId, order: seq<RouteId>)
    requires e in q.records && Known(q, order)
  {
    q.records[e].value > 0.0 &&
    exists n :: 0 <= n < |order| && e in Inner(q, order[n]) && PacketAge(q, e) > Ttl(q, order[n])
  }

  lemma {:induction false} AgeAfterIs(q: Query, e: EdgeId, order: seq<RouteId>)
    requires e in q.records && Known(q, order)
    ensures AgeAfter(q, e, order) == if FoundTooOld(q, e, order) then 0.0 else PacketAge(q, e)
    decreases |order|
  {
    if order != [] {
      var front, r := order[..|order| - 1], order[|order| - 1];
      AgeAfterIs(q, e, front);
      if FoundTooOld(q, e, front) {
        var n :| 0 <= n < |front| && e in Inner(q, front[n]) && PacketAge(q, e) > Ttl(q, front[n]);
        assert order[n] == front[n];
      } else if FoundTooOld(q, e, order) {
        var n :| 0 <= n < |order| && e in Inner(q, order[n]) && PacketAge(q, e) > Ttl(q, order[n]);
      }
    }
  }

  /** The loop uses exactly the fresh measurements of a route's edges, except that a measurement an
      earlier route found too old counts as new from then on. */
  lemma UsesExactlyFreshUnlessRevived(q: Query, e: EdgeId, order: seq<RouteId>, k: nat)
    requires Known(q, order) && k < |order| && e in Inner(q, order[k])
    ensures (Uses(q, e, order, k) <==> Fresh(q, e, order[k])) <==>
              !(e in q.records && FoundTooOld(q, e, order[..k]) &&
                (0.0 < Ttl(q, order[k])) != (PacketAge(q, e) < Ttl(q, order[k])))
  {
    if e in q.records { AgeAfterIs(q, e, order[..k]); }
  }

  /** When a measurement is used, in terms of the clock and the limits alone: it is positive, its edge is
      monitored, and it is younger than the route's limit; an undated one counts as new, and so does one
      that an earlier route with the edge found older than its own limit. */
  lemma UsedIff(q: Query, e: EdgeId, order: seq<RouteId>, k: nat)
    requires Known(q, order) && k < |order| && e in q.records
    ensures var age := if q.records[e].time == 0.0 then 0.0 else q.now - q.records[e].time;
            var limit := r => if r in q.routeTTL then q.routeTTL[r] else 0.0;
            var revived := exists n :: 0 <= n < k && e in Inner(q, order[n]) && limit(order[n]) < age;
            Uses(q, e, order, k) <==>
              && q.records[e].value > 0.0 && e in Inner(q, order[k])
              && (if revived then 0.0 else age) < limit(order[k])
  {
    AgeAfterIs(q, e, order[..k]);
    if q.records[e].value > 0.0 {
      var limit := r => if r in q.routeTTL then q.routeTTL[r] else 0.0;
      var age := PacketAge(q, e);
      if FoundTooOld(q, e, order[..k]) {
        var n :| 0 <= n < |order[..k]| && e in Inner(q, order[..k][n]) && age > Ttl(q, order[..k][n]);
        assert e in Inner(q, order[n]) && limit(order[n]) < age;
      }
      forall n | 0 <= n < k && e in Inner(q, order[n]) && limit(order[n]) < age
        ensures FoundTooOld(q, e, order[..k])
      {
        assert order[..k][n] == order[n];
      }
    }
  }

  ghost predicate SeparateFrom(q: Query, order: seq<RouteId>, k: nat)
    requires Known(q, order) && k < |order|
  {
    forall n, e :: 0 <= n < k && e in Inner(q, order[k]) ==> e !in Inner(q, order[n])
  }

  /** The incremental estimate equals the direct one for every route whose interior has no repeated
      edge and shares none with the routes before it, whatever the order of the records. */
  lemma {:induction false} EstimateIsDirect(q: Query, edgeOrder: seq<EdgeId>, routeOrder: seq<RouteId>, k: nat)
    requires Lists(edgeOrder, q.records.Keys)
    requires Known(q, routeOrder) && k < |routeOrder|
    requires NoDuplicates(Inner(q, routeOrder[k])) && SeparateFrom(q, routeOrder, k)
    ensures StaticSum(q, routeOrder[k]) + GainSum(q, edgeOrder, routeOrder, k)
         == Sum(Inner(q, routeOrder[k]), DirectCost(q, routeOrder[k]))
  {
    var inner := Inner(q, routeOrder[k]);
    GainsRearranged(q, edgeOrder, routeOrder, k);
    forall e | e in inner
      ensures CostAfter(q, edgeOrder, routeOrder, k)(e) == DirectCost(q, routeOrder[k])(e)
    {
      UsesExactlyFreshUnlessRevived(q, e, routeOrder, k);
    }
    SumUnchanged(inner, CostAfter(q, edgeOrder, routeOrder, k), DirectCost(q, routeOrder[k]));
  }

  /** Two routes through the same edge: the first finds the measurement too old, and the second,
      with the same limit, uses it all the same. */
  lemma StaleMeasurementRevives(q: Query, e: EdgeId, order: seq<RouteId>)
    requires Known(q, order) && |order| == 2 && e in Inner(q, order[0]) && e in Inner(q, order[1])
    requires e in q.records && q.records[e].value > 0.0
    requires PacketAge(q, e) > Ttl(q, order[0]) && Ttl(q, order[0]) == Ttl(q, order[1]) > 0.0
    ensures !Uses(q, e, order, 0) && Uses(q, e, order, 1) && !Fresh(q, e, order[1])
  {
    AgeAfterIs(q, e, order[..0]);
    AgeAfterIs(q, e, order[..1]);
    assert order[..1][0] == order[0];
  }
}
