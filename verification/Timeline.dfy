/** When a vehicle was on which edge: src/edge.cpp, src/itinerary.cpp and src/vehicle.cpp.

The itinerary keeps the edges in a map and a pointer to the current one, which is an entry of that
map; entering an edge again overwrites its entry.  Answers of the traffic simulator are parameters.
*/
module Timeline {
  import opened Collections

  type EdgeId = string

  class Edge {
    const id: EdgeId
    var enteredTime: real
    var leftTime: real
    var travelTime: real

    constructor (id: EdgeId)
      ensures this.id == id && Times() == NEVER
    {
      this.id := id;
      enteredTime, leftTime, travelTime := 0.0, 0.0, 0.0;
    }

    function Times(): Stay
      reads this
    {
      Stay(enteredTime, leftTime, travelTime)
    }

    /** What assigning a new `Edge` to the entry does. */
    method Clear()
      modifies this
      ensures Times() == NEVER
    {
      enteredTime, leftTime, travelTime := 0.0, 0.0, 0.0;
    }

    method SetEnteredTime(time: real)
      modifies this
      ensures Times() == old(Times()).(entered := time)
    {
      enteredTime := time;
    }

    method SetLeftTime(time: real)
      modifies this
      ensures Times() == Leave(old(Times()), time)
    {
      leftTime := time;
      travelTime := leftTime - enteredTime;
    }
  }

  // ---------------------------------------------------------------- the timeline as a value

  datatype Stay = Stay(entered: real, left: real, travel: real)

  const NEVER := Stay(0.0, 0.0, 0.0)

  function Leave(s: Stay, t: real): Stay {
    Stay(s.entered, t, t - s.entered)
  }

  /** The edges in the order they were entered, and what is stored for each. */
  datatype Line = Line(ids: seq<EdgeId>, stays: map<EdgeId, Stay>)

  ghost predicate Sound(l: Line) {
    && (forall i :: 0 <= i < |l.ids| ==> l.ids[i] in l.stays && l.ids[i] != "")
  }

  function Current(l: Line): EdgeId {
    if l.ids == [] then "" else l.ids[|l.ids| - 1]
  }

  /** Entering an edge without leaving the one before. */
  function Enter(l: Line, e: EdgeId, t: real): Line {
    Line(l.ids + [e], l.stays[e := NEVER.(entered := t)])
  }

  function LeaveCurrent(l: Line, t: real): Line
    requires Sound(l)
  {
    if l.ids == [] then l else l.(stays := l.stays[Current(l) := Leave(l.stays[Current(l)], t)])
  }

  /** One answer to "which edge now". */
  function AfterEdge(l: Line, route: seq<EdgeId>, e: EdgeId, t: real): Line
    requires Sound(l)
  {
    if e != "" && e != Current(l) && e in route then Enter(LeaveCurrent(l, t), e, t) else l
  }

  /** One answer to "which route now". */
  function AfterRoute(l: Line, route: seq<EdgeId>, t: real): Line {
    if route != [] && (l.ids == [] || route[0] != Current(l)) then Enter(l, route[0], t) else l
  }

  /** The part of a route from an edge on. */
  function From(route: seq<EdgeId>, e: EdgeId): seq<EdgeId> {
    if route == [] then [] else if route[0] == e then route else From(route[1..], e)
  }

  lemma {:induction false} FromStep(route: seq<EdgeId>, k: nat, e: EdgeId)
    requires k < |route|
    ensures route[k..] == [route[k]] + route[k + 1..]
    ensures From(route[k..], e) == if route[k] == e then route[k..] else From(route[k + 1..], e)
  {
    assert route[k..][1..] == route[k + 1..];
  }

  lemma {:induction false} FromEnd(route: seq<EdgeId>, e: EdgeId)
    ensures From(route[|route|..], e) == []
  {
  }

  // ---------------------------------------------------------------- the itinerary in place

  class Itinerary {
    var edgeIds: seq<EdgeId>
    var edges: map<EdgeId, Edge>
    var currentEdge: Edge
    var lastEdgeId: EdgeId
    ghost var Repr: set<Edge>

    /** Every entry has its own object, found under its own identifier. */
    ghost predicate Indexed()
      reads this, Repr
    {
      && currentEdge in Repr
      && (forall e :: e in edges ==> edges[e] in Repr && edges[e].id == e)
      && (forall i :: 0 <= i < |edgeIds| ==> edgeIds[i] in edges && edgeIds[i] != "")
      && "" !in edges
    }

    /** The pointer is on the entry of the last edge, or off the map before the first. */
    ghost predicate Valid()
      reads this, Repr
    {
      && Indexed()
      && if edgeIds == [] then currentEdge.id == "" else currentEdge == edges[edgeIds[|edgeIds| - 1]]
    }

    ghost function Stays(): map<EdgeId, Stay>
      reads this, Repr
      requires Indexed()
    {
      map e | e in edges :: edges[e].Times()
    }

    ghost function Now(): Line
      reads this, Repr
      requires Indexed()
    {
      Line(edgeIds, Stays())
    }

    constructor ()
      ensures Valid() && fresh(Repr) && Now() == Line([], map[])
    {
      edgeIds, edges, lastEdgeId := [], map[], "";
      var none := new Edge("");
      currentEdge := none;
      Repr := {none};
    }

    /** A new entry, or the old one overwritten; the pointer stays. */
    method AddEdge(edgeId: EdgeId)
      requires Indexed() && edgeId != ""
      modifies this, Repr
      ensures Indexed() && fresh(Repr - old(Repr)) && currentEdge == old(currentEdge) && lastEdgeId == currentEdge.id
      ensures edgeIds == old(edgeIds) + [edgeId] && Stays() == old(Stays())[edgeId := NEVER]
    {
      lastEdgeId := currentEdge.id;
      edgeIds := edgeIds + [edgeId];
      if edgeId in edges {
        edges[edgeId].Clear();
      } else {
        var entry := new Edge(edgeId);
        edges := edges[edgeId := entry];
        Repr := Repr + {entry};
      }
    }

    method SetCurrentEdge(edgeId: EdgeId)
      requires Indexed() && edgeId in edges
      modifies this`currentEdge
      ensures Indexed() && currentEdge == edges[edgeId] && Stays() == old(Stays())
    {
      if |edgeId| != 0 {
        currentEdge := edges[edgeId];
      }
    }

    /** `getCurrentEdge().setLeftTime(time)` */
    method LeaveCurrentEdge(time: real)
      requires Valid()
      modifies currentEdge
      ensures Valid() && Now() == LeaveCurrent(old(Now()), time)
    {
      currentEdge.SetLeftTime(time);
      assert edgeIds != [] ==> currentEdge.id in edges;
    }

    method EnterNewEdge(edgeId: EdgeId, time: real)
      requires Indexed() && edgeId != ""
      modifies this, Repr
      ensures Valid() && fresh(Repr - old(Repr)) && Now() == Enter(old(Now()), edgeId, time)
    {
      AddEdge(edgeId);
      assert edgeIds[|edgeIds| - 1] in edges;
      SetCurrentEdge(edgeId);
      EnterCurrentEdge(time);
    }

    /** `getCurrentEdge().setEnteredTime(time)` */
    method EnterCurrentEdge(time: real)
      requires Valid() && edgeIds != []
      modifies currentEdge
      ensures Valid() && Now() == WithEntered(old(Now()), edgeIds[|edgeIds| - 1], time)
    {
      currentEdge.SetEnteredTime(time);
    }

    method SetLeft(edgeId: EdgeId, time: real)
      requires Valid() && edgeId in edges
      modifies edges[edgeId]
      ensures Valid() && Now() == WithLeft(old(Now()), edgeId, time)
    {
      edges[edgeId].SetLeftTime(time);
    }

    method SetEntered(edgeId: EdgeId, time: real)
      requires Valid() && edgeId in edges
      modifies edges[edgeId]
      ensures Valid() && Now() == WithEntered(old(Now()), edgeId, time)
    {
      edges[edgeId].SetEnteredTime(time);
    }

    /** The repair of an edge that was passed between two looks; with a single edge the source looks
        before the beginning of its list. */
    method FixTravelTime(edgeId: EdgeId)
      requires Valid() && edgeId in edges && |edgeIds| != 1
      modifies edges[edgeId]
      ensures Valid() && Now() == Fixed(old(Now()), edgeId)
    {
      var i := 0;
      while i < |edgeIds| && edgeIds[i] != edgeId
        invariant 0 <= i <= |edgeIds| && IndexOf(edgeIds, edgeId) == i + IndexOf(edgeIds[i..], edgeId)
      {
        assert edgeIds[i..][1..] == edgeIds[i + 1..];
        i := i + 1;
      }
      assert IndexOf(edgeIds, edgeId) == i;
      if i != |edgeIds| {
        if i == 0 && |edgeIds| > 1 {
          SetLeft(edgeId, edges[edgeIds[i + 1]].enteredTime);
        }
        if i == |edgeIds| - 1 {
          SetEntered(edgeId, edges[edgeIds[i - 1]].leftTime);
        }
        if i > 0 && i < |edgeIds| - 1 {
          var enterTime := edges[edgeIds[i - 1]].leftTime;
          var leftTime := edges[edgeIds[i + 1]].enteredTime;
          SetLeft(edgeId, leftTime);
          SetEntered(edgeId, enterTime);
        }
      }
    }

    method ComputeTravelTime(startEdgeId: EdgeId, endEdgeId: EdgeId) returns (travelTime: real)
      requires Valid() && startEdgeId in edges && endEdgeId in edges
      requires |edgeIds| == 1 ==> Stays()[startEdgeId].left != 0.0 && Stays()[endEdgeId].entered != 0.0
      modifies edges[startEdgeId], edges[endEdgeId]
      ensures Valid()
      ensures edgeIds == [] ==> travelTime == 0.0
      ensures edgeIds != [] ==>
                Now() == Repaired(old(Now()), startEdgeId, endEdgeId) &&
                travelTime == Stays()[endEdgeId].entered - Stays()[startEdgeId].left
    {
      travelTime := 0.0;
      if |edgeIds| > 0 {
        if edges[startEdgeId].leftTime == 0.0 {
          FixTravelTime(startEdgeId);
        }
        if edges[endEdgeId].enteredTime == 0.0 {
          FixTravelTime(endEdgeId);
        }
        travelTime := edges[endEdgeId].enteredTime - edges[startEdgeId].leftTime;
      }
    }
  }

  // ---------------------------------------------------------------- the repair as a value

  function IndexOf(ids: seq<EdgeId>, e: EdgeId): (i: nat)
    ensures i <= |ids| && (i < |ids| ==> ids[i] == e) && e !in ids[..i]
  {
    if ids == [] || ids[0] == e then 0 else 1 + IndexOf(ids[1..], e)
  }

  function WithLeft(l: Line, e: EdgeId, t: real): Line
    requires e in l.stays
  {
    l.(stays := l.stays[e := Leave(l.stays[e], t)])
  }

  function WithEntered(l: Line, e: EdgeId, t: real): Line
    requires e in l.stays
  {
    l.(stays := l.stays[e := l.stays[e].(entered := t)])
  }

  function Fixed(l: Line, e: EdgeId): (r: Line)
    requires Sound(l) && e in l.stays && |l.ids| != 1
    ensures r.ids == l.ids && r.stays.Keys == l.stays.Keys
  {
    var i, n := IndexOf(l.ids, e), |l.ids|;
    if i == n then l
    else if i == 0 then WithLeft(l, e, l.stays[l.ids[1]].entered)
    else if i == n - 1 then WithEntered(l, e, l.stays[l.ids[i - 1]].left)
    else WithEntered(WithLeft(l, e, l.stays[l.ids[i + 1]].entered), e, l.stays[l.ids[i - 1]].left)
  }

  function Repaired(l: Line, a: EdgeId, b: EdgeId): Line
    requires Sound(l) && a in l.stays && b in l.stays
    requires |l.ids| == 1 ==> l.stays[a].left != 0.0 && l.stays[b].entered != 0.0
  {
    var l1 := if l.stays[a].left == 0.0 then Fixed(l, a) else l;
    if l1.stays[b].entered == 0.0 then Fixed(l1, b) else l1
  }

  // ---------------------------------------------------------------- the vehicle

  class Vehicle {
    const itinerary: Itinerary
    var currentRoute: seq<EdgeId>

    constructor ()
      ensures itinerary.Valid() && itinerary.Now() == Line([], map[]) && currentRoute == []
    {
      itinerary := new Itinerary();
      currentRoute := [];
    }

    method RequestRoute(vehicleEdges: seq<EdgeId>, now: real)
      requires itinerary.Valid() && "" !in vehicleEdges
      modifies this`currentRoute, itinerary, itinerary.Repr
      ensures itinerary.Valid() && fresh(itinerary.Repr - old(itinerary.Repr))
      ensures itinerary.Now() == AfterRoute(old(itinerary.Now()), vehicleEdges, now) && currentRoute == vehicleEdges
    {
      currentRoute := vehicleEdges;
      if |currentRoute| > 0 {
        var newEdge := currentRoute[0];
        assert newEdge in vehicleEdges;
        if itinerary.currentEdge.id == "" || newEdge != itinerary.currentEdge.id {
          itinerary.EnterNewEdge(newEdge, now);
        }
      }
    }

    method RequestCurrentEdge(newEdge: EdgeId, currentTime: real) returns (edgeChanged: bool)
      requires itinerary.Valid()
      modifies itinerary, itinerary.Repr
      ensures itinerary.Valid() && fresh(itinerary.Repr - old(itinerary.Repr))
      ensures itinerary.Now() == AfterEdge(old(itinerary.Now()), currentRoute, newEdge, currentTime)
      ensures edgeChanged <==> newEdge != "" && newEdge != Current(old(itinerary.Now())) && newEdge in currentRoute
    {
      if newEdge == "" {
        return false;
      }
      edgeChanged := false;
      if newEdge != itinerary.currentEdge.id && newEdge in currentRoute {
        edgeChanged := true;
        itinerary.LeaveCurrentEdge(currentTime);
        itinerary.EnterNewEdge(newEdge, currentTime);
      }
    }

    static method RouteAhead(chosenRoute: seq<EdgeId>, current: EdgeId) returns (sent: seq<EdgeId>)
      ensures sent == From(chosenRoute, current)
    {
      hide From;
      sent := [];
      var metCurrentEdge := false;
      ghost var all := From(chosenRoute, current);
      assert chosenRoute[0..] == chosenRoute;
      for k := 0 to |chosenRoute|
        invariant metCurrentEdge ==> all == sent + chosenRoute[k..]
        invariant !metCurrentEdge ==> sent == [] && all == From(chosenRoute[k..], current)
      {
        FromStep(chosenRoute, k, current);
        assert sent + chosenRoute[k..] == sent + [chosenRoute[k]] + chosenRoute[k + 1..];
        if current == chosenRoute[k] {
          metCurrentEdge := true;
        }
        if metCurrentEdge {
          sent := sent + [chosenRoute[k]];
        }
      }
      FromEnd(chosenRoute, current);
    }

    /** `sent` goes to the traffic simulator, `vehicleEdges` is what it answers then. */
    method Reroute(chosenRoute: seq<EdgeId>, vehicleEdges: seq<EdgeId>, now: real) returns (sent: seq<EdgeId>)
      requires itinerary.Valid() && "" !in vehicleEdges
      modifies this`currentRoute, itinerary, itinerary.Repr
      ensures itinerary.Valid() && fresh(itinerary.Repr - old(itinerary.Repr))
      ensures sent == From(chosenRoute, Current(old(itinerary.Now())))
      ensures itinerary.Now() == AfterRoute(old(itinerary.Now()), vehicleEdges, now) && currentRoute == vehicleEdges
    {
      sent := RouteAhead(chosenRoute, itinerary.currentEdge.id);
      RequestRoute(vehicleEdges, now);
    }
  }

  // ---------------------------------------------------------------- contiguity

  function StayAt(l: Line, i: nat): Stay
    requires Sound(l) && i < |l.ids|
  {
    l.stays[l.ids[i]]
  }

  /** The edge is left when the next one is entered. */
  ghost predicate Joined(l: Line, i: nat)
    requires Sound(l) && i + 1 < |l.ids|
  {
    var s := StayAt(l, i);
    s.left > 0.0 && s.left == StayAt(l, i + 1).entered && s.travel == s.left - s.entered
  }

  /** Every edge is entered when the one before is left; only the last has not been left. */
  ghost predicate Contiguous(l: Line) {
    && Sound(l) && NoDuplicates(l.ids)
    && (forall i :: 0 <= i < |l.ids| ==> StayAt(l, i).entered > 0.0)
    && (forall i :: 0 <= i < |l.ids| - 1 ==> Joined(l, i))
    && (l.ids != [] ==> StayAt(l, |l.ids| - 1).left == 0.0)
  }

  lemma NewEdgeStays(l: Line, e: EdgeId, t: real, i: nat)
    requires Sound(l) && NoDuplicates(l.ids) && e != "" && e !in l.ids && i <= |l.ids|
    ensures var r, n := Enter(LeaveCurrent(l, t), e, t), |l.ids|;
            && Sound(r) && |r.ids| == n + 1
            && StayAt(r, i) ==
                  if i == n then Stay(t, 0.0, 0.0) else if i == n - 1 then Leave(StayAt(l, i), t) else StayAt(l, i)
  {
    if i < |l.ids| - 1 { assert l.ids[i] != l.ids[|l.ids| - 1]; }
  }

  lemma NewEdge(l: Line, e: EdgeId, t: real)
    requires Contiguous(l) && t > 0.0 && e != "" && e !in l.ids
    ensures Contiguous(Enter(LeaveCurrent(l, t), e, t))
  {
    var r, n := Enter(LeaveCurrent(l, t), e, t), |l.ids|;
    assert r.ids == l.ids + [e];
    forall i | 0 <= i <= n
      ensures Sound(r) && |r.ids| == n + 1
      ensures StayAt(r, i) ==
              if i == n then Stay(t, 0.0, 0.0) else if i == n - 1 then Leave(StayAt(l, i), t) else StayAt(l, i)
    {
      NewEdgeStays(l, e, t, i);
    }
    hide Enter, LeaveCurrent, StayAt, Sound;
    NewEdgeStays(l, e, t, 0);
    forall i | 0 <= i < n ensures Joined(r, i) {
      if i < n - 1 { assert Joined(l, i); }
    }
  }

  /** Moving on keeps the timeline contiguous exactly when the edge is a new one. */
  lemma ContiguousAfterEdge(l: Line, route: seq<EdgeId>, e: EdgeId, t: real)
    requires Contiguous(l) && t > 0.0
    ensures Contiguous(AfterEdge(l, route, e, t)) <==> !(e in l.ids && e != Current(l) && e in route)
  {
    if e != "" && e != Current(l) && e in route {
      if e in l.ids {
        var i :| 0 <= i < |l.ids| && l.ids[i] == e;
        var ids := l.ids + [e];
        assert ids[i] == ids[|l.ids|] && !NoDuplicates(ids);
      } else {
        NewEdge(l, e, t);
      }
    }
  }

  /** A new route keeps it contiguous exactly when it starts where the vehicle is: an edge the route
      starts with otherwise is entered without the current one being left. */
  lemma ContiguousAfterRoute(l: Line, route: seq<EdgeId>, t: real)
    requires Contiguous(l) && t > 0.0 && "" !in route
    ensures Contiguous(AfterRoute(l, route, t)) <==> l.ids == [] || route == [] || route[0] == Current(l)
  {
    if route != [] {
      assert route[0] in route;
      if l.ids != [] && route[0] != Current(l) {
        var r := AfterRoute(l, route, t);
        var n := |l.ids|;
        assert r.ids[n - 1] == Current(l) && r.ids[n] == route[0];
        assert StayAt(r, n - 1).left == 0.0 && !Joined(r, n - 1);
      }
    }
  }

  /** What the vehicle asks to drive starts where it is, if the chosen route passes there. */
  lemma {:induction false} FromStartsThere(route: seq<EdgeId>, e: EdgeId)
    ensures if e in route then From(route, e) != [] && From(route, e)[0] == e else From(route, e) == []
    ensures From(route, e) == route[IndexOf(route, e)..]
  {
    if route != [] && route[0] != e {
      FromStartsThere(route[1..], e);
      assert route[1..][IndexOf(route[1..], e)..] == route[IndexOf(route, e)..];
    }
  }

  datatype Event = EdgeIs(e: EdgeId, t: real) | RouteIs(route: seq<EdgeId>, t: real)

  datatype Journey = Journey(line: Line, route: seq<EdgeId>)

  function After(j: Journey, ev: Event): Journey
    requires Sound(j.line)
  {
    match ev
    case EdgeIs(e, t) => j.(line := AfterEdge(j.line, j.route, e, t))
    case RouteIs(route, t) => Journey(AfterRoute(j.line, route, t), route)
  }

  ghost predicate Timed(events: seq<Event>) {
    forall ev :: ev in events ==> ev.t > 0.0 && (ev.RouteIs? ==> "" !in ev.route)
  }

  /** No revisited edge, and new routes start at the current edge. */
  ghost predicate Orderly(j: Journey, ev: Event) {
    match ev
    case EdgeIs(e, _) => !(e in j.line.ids && e != Current(j.line) && e in j.route)
    case RouteIs(route, _) => j.line.ids == [] || route == [] || route[0] == Current(j.line)
  }

  ghost predicate AlwaysOrderly(j: Journey, events: seq<Event>)
    requires Sound(j.line) && Timed(events)
    decreases events
  {
    events == [] ||
    (assert events[0] in events;
     Orderly(j, events[0]) && AlwaysOrderly(After(j, events[0]), events[1..]))
  }

  ghost predicate AlwaysContiguous(j: Journey, events: seq<Event>)
    requires Sound(j.line) && Timed(events)
    decreases events
  {
    Contiguous(j.line) &&
    (events == [] ||
     (assert events[0] in events;
      AlwaysContiguous(After(j, events[0]), events[1..])))
  }

  /** Over any run with positive times: the timeline is contiguous throughout exactly when the run
      is orderly throughout. */
  lemma {:induction false} ContiguousIffOrderly(j: Journey, events: seq<Event>)
    requires Contiguous(j.line) && Timed(events)
    ensures AlwaysContiguous(j, events) <==> AlwaysOrderly(j, events)
    decreases events
  {
    if events != [] {
      var ev := events[0];
      assert ev in events;
      match ev {
        case EdgeIs(e, t) => ContiguousAfterEdge(j.line, j.route, e, t);
        case RouteIs(route, t) => ContiguousAfterRoute(j.line, route, t);
      }
      if Orderly(j, ev) {
        ContiguousIffOrderly(After(j, ev), events[1..]);
      }
    }
  }

  // ---------------------------------------------------------------- travel times

  /** Travel times of the edges from the `i`-th up to, not including, the `j`-th. */
  ghost function TravelSum(l: Line, i: nat, j: nat): real
    requires Sound(l) && i <= j <= |l.ids|
    decreases j - i
  {
    if i == j then 0.0 else TravelSum(l, i, j - 1) + l.stays[l.ids[j - 1]].travel
  }

  lemma {:induction false} Telescopes(l: Line, i: nat, j: nat)
    requires Contiguous(l) && i < j < |l.ids|
    ensures StayAt(l, j).entered - StayAt(l, i).left == TravelSum(l, i + 1, j)
    decreases j
  {
    if i + 1 < j {
      Telescopes(l, i, j - 1);
    }
    assert Joined(l, j - 1);
  }

  lemma {:induction false} FoundAt(ids: seq<EdgeId>, i: nat)
    requires NoDuplicates(ids) && i < |ids|
    ensures IndexOf(ids, ids[i]) == i
  {
    if i > 0 {
      assert ids[0] != ids[i] && NoDuplicates(ids[1..]);
      FoundAt(ids[1..], i - 1);
    }
  }

  /** On a contiguous timeline the repair changes nothing, so the travel time between an edge and a
      later one is the sum of the travel times strictly between them. */
  lemma {:induction false} TravelTimeIsSum(l: Line, i: nat, j: nat)
    requires Contiguous(l) && i < |l.ids| && j < |l.ids| && |l.ids| >= 2
    ensures Repaired(l, l.ids[i], l.ids[j]) == l
    ensures i < j ==> StayAt(l, j).entered - StayAt(l, i).left == TravelSum(l, i + 1, j)
  {
    FoundAt(l.ids, i);
    assert StayAt(l, j).entered > 0.0;
    if i == |l.ids| - 1 {
      assert Joined(l, i - 1);
      assert Fixed(l, l.ids[i]).stays == l.stays;
    } else {
      assert Joined(l, i);
    }
    if i < j { Telescopes(l, i, j); }
  }
}
