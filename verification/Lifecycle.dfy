/** The vehicle lists of src/ovnis.cpp, kept in lockstep with the radio channel.

Every simulation step moves the vehicles that departed to the running list, takes the newly
departed and arrived vehicles from the traffic simulator, creates and destroys radios, and updates
positions.  The channel is the one of `WifiChannel`, with its grid and radio list.
*/
module Lifecycle {
  import opened Collections
  import opened WifiChannel

  type VehicleId = string

  /** Erases the first occurrence of each element of `xs` in turn. */
  function EraseAll<T(==)>(s: seq<T>, xs: seq<T>): seq<T>
    decreases |xs|
  {
    if xs == [] then s else EraseAll(Erase(s, xs[0]), xs[1..])
  }

  lemma {:induction false} EraseAllFromDistinct<T>(s: seq<T>, xs: seq<T>)
    requires NoDuplicates(s)
    ensures NoDuplicates(EraseAll(s, xs))
    ensures forall y :: y in EraseAll(s, xs) <==> y in s && y !in xs
    decreases |xs|
  {
    if xs != [] {
      EraseFromDistinct(s, xs[0]);
      EraseAllFromDistinct(Erase(s, xs[0]), xs[1..]);
      assert xs == [xs[0]] + xs[1..];
    }
  }

  lemma {:induction false} EraseAllSnoc<T>(s: seq<T>, xs: seq<T>, x: T)
    ensures EraseAll(s, xs + [x]) == Erase(EraseAll(s, xs), x)
    decreases |xs|
  {
    if xs == [] {
      assert EraseAll(Erase(s, x), []) == Erase(s, x);
      assert (xs + [x])[1..] == [];
    } else {
      EraseAllSnoc(Erase(s, xs[0]), xs[1..], x);
      assert (xs + [x])[1..] == xs[1..] + [x];
    }
  }

  /** The arrivals that are not also departures, in order. */
  function OnlyArrived(arrived: seq<VehicleId>, departed: seq<VehicleId>): seq<VehicleId> {
    if arrived == [] then []
    else (if arrived[0] in departed then [] else [arrived[0]]) + OnlyArrived(arrived[1..], departed)
  }

  lemma {:induction false} OnlyArrivedElements(arrived: seq<VehicleId>, departed: seq<VehicleId>)
    ensures forall v :: v in OnlyArrived(arrived, departed) <==> v in arrived && v !in departed
  {
    if arrived != [] {
      OnlyArrivedElements(arrived[1..], departed);
      assert arrived == [arrived[0]] + arrived[1..];
    }
  }

  lemma {:induction false} OnlyArrivedSnoc(arrived: seq<VehicleId>, v: VehicleId, departed: seq<VehicleId>)
    ensures OnlyArrived(arrived + [v], departed) == OnlyArrived(arrived, departed) + (if v in departed then [] else [v])
  {
    if arrived == [] {
      assert (arrived + [v])[1..] == [] && OnlyArrived([], departed) == [];
    } else {
      OnlyArrivedSnoc(arrived[1..], v, departed);
      assert (arrived + [v])[1..] == arrived[1..] + [v];
    }
  }

  /** One turn of the loop that drops passing vehicles. */
  lemma {:induction false} PassingStep(arrived: seq<VehicleId>, departed: seq<VehicleId>, k: nat)
    requires NoDuplicates(arrived) && NoDuplicates(departed) && k < |arrived|
    ensures arrived[k] in EraseAll(departed, arrived[..k]) <==> arrived[k] in departed
    ensures EraseAll(departed, arrived[..k + 1]) == Erase(EraseAll(departed, arrived[..k]), arrived[k])
    ensures OnlyArrived(arrived[..k + 1], departed)
         == OnlyArrived(arrived[..k], departed) + (if arrived[k] in departed then [] else [arrived[k]])
  {
    assert arrived[..k + 1] == arrived[..k] + [arrived[k]];
    EraseAllFromDistinct(departed, arrived[..k]);
    EraseAllSnoc(departed, arrived[..k], arrived[k]);
    OnlyArrivedSnoc(arrived[..k], arrived[k], departed);
  }

  /** What one step does to the lists, as sets. */
  lemma {:induction false} ListsAfterStep(running: seq<VehicleId>, departed: seq<VehicleId>, arrived: seq<VehicleId>)
    requires NoDuplicates(running) && NoDuplicates(departed) && NoDuplicates(arrived)
    requires Elements(running) !! Elements(departed)
    requires Elements(arrived) <= Elements(running) + Elements(departed)
    ensures var left := OnlyArrived(arrived, departed);
            var r, d := EraseAll(running, left), EraseAll(departed, arrived);
            && NoDuplicates(r) && NoDuplicates(d)
            && Elements(r) == Elements(running) - Elements(arrived)
            && Elements(d) == Elements(departed) - Elements(arrived)
            && Elements(running) + Elements(d) - Elements(left) == Elements(r) + Elements(d)
            && Elements(d) <= Elements(departed)
  {
    EraseAllFromDistinct(departed, arrived);
    EraseAllFromDistinct(running, OnlyArrived(arrived, departed));
    OnlyArrivedElements(arrived, departed);
  }

  lemma JoinDistinct<T>(s: seq<T>, t: seq<T>)
    requires NoDuplicates(s) && NoDuplicates(t) && Elements(s) !! Elements(t)
    ensures NoDuplicates(s + t) && Elements(s + t) == Elements(s) + Elements(t)
  {
    forall x | x in t ensures x !in s {
      assert x in Elements(t);
    }
    AppendAllDistinct(s, t);
  }

  lemma ElementsOfPrefix<T>(s: seq<T>, k: nat)
    requires k < |s|
    ensures Elements(s[..k + 1]) == Elements(s[..k]) + {s[k]}
    ensures NoDuplicates(s) ==> s[k] !in s[..k]
  {
    assert s[..k + 1] == s[..k] + [s[k]];
  }

  /** A reported position counts when both coordinates are positive. */
  predicate Reported(p: Point) {
    p.x > 0.0 && p.y > 0.0
  }

  function Moved(m: map<VehicleId, Point>, v: VehicleId, p: Point): map<VehicleId, Point> {
    if v in m && Reported(p) then m[v := p] else m
  }

  /** Positions after updating the nodes `ids` one by one. */
  function MovedAll(m: map<VehicleId, Point>, ids: seq<VehicleId>, positions: VehicleId -> Point): map<VehicleId, Point>
    decreases |ids|
  {
    if ids == [] then m
    else
      var last := ids[|ids| - 1];
      Moved(MovedAll(m, ids[..|ids| - 1], positions), last, positions(last))
  }

  lemma {:induction false} MovedAllReached(m: map<VehicleId, Point>, ids: seq<VehicleId>, positions: VehicleId -> Point)
    ensures MovedAll(m, ids, positions).Keys == m.Keys
    ensures forall v :: v in m && v in ids && Reported(positions(v)) ==>
              MovedAll(m, ids, positions)[v] == positions(v)
    ensures forall v :: v in m && !(v in ids && Reported(positions(v))) ==>
              MovedAll(m, ids, positions)[v] == m[v]
    decreases |ids|
  {
    if ids != [] {
      MovedAllReached(m, ids[..|ids| - 1], positions);
      assert ids == ids[..|ids| - 1] + [ids[|ids| - 1]];
    }
  }

  lemma {:induction false} BothLoopsReach(m: map<VehicleId, Point>, first: seq<VehicleId>, second: seq<VehicleId>,
                       positions: VehicleId -> Point)
    ensures var end := MovedAll(MovedAll(m, first, positions), second, positions);
            && end.Keys == m.Keys
            && forall v :: v in m ==>
                 end[v] == if (v in first || v in second) && positions(v).x > 0.0 && positions(v).y > 0.0
                           then positions(v) else m[v]
  {
    MovedAllReached(m, first, positions);
    MovedAllReached(MovedAll(m, first, positions), second, positions);
  }

  /** Deleting or passing the element at the seam of two joined sequences. */
  lemma Seam<T>(o: seq<T>, r: seq<T>)
    requires r != []
    ensures (o + r)[|o|] == r[0]
    ensures (o + r)[..|o|] + (o + r)[|o| + 1..] == o + r[1..]
    ensures o + r == o + [r[0]] + r[1..]
  {
  }

  /** The radio list holds exactly the radios of the vehicles in `vs`. */
  ghost predicate HoldsExactly(radios: seq<OvnisWifiPhy>, nodes: map<VehicleId, OvnisWifiPhy>,
                               owner: map<OvnisWifiPhy, VehicleId>, vs: set<VehicleId>)
  {
    && (forall v :: v in vs ==> v in nodes && nodes[v] in radios)
    && forall k :: 0 <= k < |radios| ==>
         radios[k] in owner && owner[radios[k]] in vs && owner[radios[k]] in nodes &&
         nodes[owner[radios[k]]] == radios[k]
  }

  lemma HoldsAfterAdding(radios: seq<OvnisWifiPhy>, nodes: map<VehicleId, OvnisWifiPhy>,
                         owner: map<OvnisWifiPhy, VehicleId>, vs: set<VehicleId>, v: VehicleId, phy: OvnisWifiPhy)
    requires HoldsExactly(radios, nodes, owner, vs)
    requires v !in nodes && phy !in radios
    ensures HoldsExactly(radios + [phy], nodes[v := phy], owner[phy := v], vs + {v})
  {
    forall k | 0 <= k < |radios| ensures radios[k] != phy {
      assert radios[k] in radios;
    }
  }

  lemma {:induction false} HoldsAfterErasing(radios: seq<OvnisWifiPhy>, nodes: map<VehicleId, OvnisWifiPhy>,
                          owner: map<OvnisWifiPhy, VehicleId>, vs: set<VehicleId>, v: VehicleId)
    requires HoldsExactly(radios, nodes, owner, vs) && NoDuplicates(radios) && v in nodes
    requires forall w :: w in nodes ==> nodes[w] in owner && owner[nodes[w]] == w
    ensures HoldsExactly(Erase(radios, nodes[v]), nodes, owner, vs - {v})
  {
    EraseFromDistinct(radios, nodes[v]);
    var rest := Erase(radios, nodes[v]);
    forall k | 0 <= k < |rest|
      ensures rest[k] in owner && owner[rest[k]] in vs - {v} && nodes[owner[rest[k]]] == rest[k]
    {
      var p := rest[k];
      assert p in rest;
      assert p in radios && p != nodes[v];
      var j :| 0 <= j < |radios| && radios[j] == p;
    }
    forall w | w in vs - {v} ensures nodes[w] in rest {
      assert nodes[w] in radios && nodes[w] != nodes[v];
    }
  }

  class Ovnis {
    const channel: OvnisWifiChannel
    var runningVehicles: seq<VehicleId>
    var departedVehicles: seq<VehicleId>
    var arrivedVehicles: seq<VehicleId>
    /** The name registry: the radio of every node ever created.  Nodes are never unregistered. */
    var nodes: map<VehicleId, OvnisWifiPhy>
    /** The vehicle a radio belongs to. */
    ghost var owner: map<OvnisWifiPhy, VehicleId>
    /** Every vehicle the traffic simulator ever inserted, and every one it took out again. */
    ghost var inserted: set<VehicleId>
    ghost var gone: set<VehicleId>

    ghost function Present(): set<VehicleId>
      reads this
    {
      Elements(runningVehicles) + Elements(departedVehicles)
    }

    /** The registry names distinct radios, all of them pointing into the grid. */
    ghost predicate Registered()
      reads this`nodes, this`owner, channel`cells, nodes.Values
    {
      forall v :: v in nodes ==>
        && nodes[v] in owner && owner[nodes[v]] == v
        && nodes[v].cell != null && nodes[v].cell in channel.CellSet()
    }

    ghost predicate ChannelHolds(vs: set<VehicleId>)
      reads this`nodes, this`owner, channel`phyList
    {
      HoldsExactly(channel.phyList, nodes, owner, vs)
    }

    ghost predicate ChannelInOrder(vs: set<VehicleId>)
      reads this`nodes, this`owner, nodes.Values
      reads channel, channel.CellSet(), channel.phyList`cell, channel.phyList`placed
      reads set p | p in channel.phyList :: p.cell
    {
      channel.Valid() && Registered() && ChannelHolds(vs)
    }

    /** Running and departed vehicles are disjoint and listed once each; together they are the
        vehicles inserted and not yet taken out. */
    ghost predicate ListsInOrder()
      reads this
    {
      && NoDuplicates(runningVehicles) && NoDuplicates(departedVehicles)
      && Elements(runningVehicles) !! Elements(departedVehicles)
      && Present() == inserted - gone
      && nodes.Keys <= inserted && gone <= inserted
    }

    ghost predicate Valid()
      reads this, nodes.Values
      reads channel, channel.CellSet(), channel.phyList, set p | p in channel.phyList :: p.cell
    {
      ListsInOrder() && ChannelInOrder(Present())
    }

    /** What the traffic simulator promises of one step: each vehicle enters once, and leaves once
        and only when it is there (possibly in the step it enters). */
    ghost predicate Feasible(departed: seq<VehicleId>, arrived: seq<VehicleId>)
      reads this
    {
      && NoDuplicates(departed) && NoDuplicates(arrived)
      && Elements(departed) !! inserted
      && Elements(arrived) <= Present() + Elements(departed)
    }

    constructor (channel: OvnisWifiChannel)
      requires channel.Valid() && channel.phyList == []
      ensures Valid() && this.channel == channel
      ensures runningVehicles == departedVehicles == arrivedVehicles == []
      ensures inserted == {} && gone == {} && nodes == map[]
    {
      this.channel := channel;
      runningVehicles, departedVehicles, arrivedVehicles, nodes := [], [], [], map[];
      inserted, gone, owner := {}, {}, map[];
    }

    /** The first loop of `UpdateInOutVehicles`: a vehicle that departs and arrives in the same
        step is dropped from both lists. */
    method DropPassingVehicles()
      requires NoDuplicates(departedVehicles) && NoDuplicates(arrivedVehicles)
      modifies this`departedVehicles, this`arrivedVehicles
      ensures departedVehicles == EraseAll(old(departedVehicles), old(arrivedVehicles))
      ensures arrivedVehicles == OnlyArrived(old(arrivedVehicles), old(departedVehicles))
    {
      ghost var arrived, departed := arrivedVehicles, departedVehicles;
      ghost var k := 0;
      var i := 0;
      assert OnlyArrived([], departed) == [] && EraseAll(departed, []) == departed;
      hide OnlyArrived, EraseAll, Erase;
      assert arrived[..0] == [] && arrived[0..] == arrived;
      while i < |arrivedVehicles|
        invariant 0 <= k <= |arrived| && 0 <= i <= |arrivedVehicles|
        invariant arrivedVehicles == OnlyArrived(arrived[..k], departed) + arrived[k..]
        invariant i == |OnlyArrived(arrived[..k], departed)|
        invariant departedVehicles == EraseAll(departed, arrived[..k])
        decreases |arrivedVehicles| - i
      {
        ghost var o, r := OnlyArrived(arrived[..k], departed), arrived[k..];
        PassingStep(arrived, departed, k);
        Seam(o, r);
        assert r[1..] == arrived[k + 1..];
        var v := arrivedVehicles[i];
        if v in departedVehicles {
          departedVehicles := Erase(departedVehicles, v);
          arrivedVehicles := arrivedVehicles[..i] + arrivedVehicles[i + 1..];
          assert arrivedVehicles == o + arrived[k + 1..];
          assert OnlyArrived(arrived[..k + 1], departed) == o;
        } else {
          i := i + 1;
        }
        k := k + 1;
      }
      assert arrived[..k] == arrived;
    }

    /** A new node at the origin, registered under the vehicle's name but not yet on the channel. */
    method RegisterNode(v: VehicleId) returns (phy: OvnisWifiPhy)
      requires channel.Valid() && v !in nodes
      modifies this`nodes, this`owner
      ensures channel.Valid()
      ensures fresh(phy) && phy.cell == null && phy.position == Point(0.0, 0.0)
      ensures nodes == old(nodes)[v := phy] && owner == old(owner)[phy := v]
    {
      phy := new OvnisWifiPhy(Point(0.0, 0.0), 1);
      nodes := nodes[v := phy];
      owner := owner[phy := v];
    }

    method CreateNode(v: VehicleId, ghost vs: set<VehicleId>)
      requires ChannelInOrder(vs) && v !in nodes && v !in vs
      modifies this`nodes, this`owner, channel`phyList, channel.CellSet()`content
      ensures ChannelInOrder(vs + {v})
      ensures v in nodes && fresh(nodes[v]) && nodes == old(nodes)[v := nodes[v]]
    {
      hide OvnisWifiChannel.Stored, OvnisWifiChannel.ColumnsNumbered;
      hide OvnisWifiChannel.CellSet, OvnisWifiChannel.HasCell, HoldsExactly;
      ghost var radios, named, owned := channel.phyList, nodes, owner;
      var phy := RegisterNode(v);
      HoldsAfterAdding(radios, named, owned, vs, v, phy);
      channel.OriginHasCell();
      channel.Add(phy);
      assert phy.cell in channel.CellSet();
    }

    method CreateNetworkDevices(ids: seq<VehicleId>, ghost vs: set<VehicleId>)
      requires ChannelInOrder(vs) && NoDuplicates(ids)
      requires Elements(ids) !! nodes.Keys && Elements(ids) !! vs
      modifies this`nodes, this`owner, channel`phyList, channel.CellSet()`content
      ensures ChannelInOrder(vs + Elements(ids))
      ensures nodes.Keys == old(nodes).Keys + Elements(ids)
      ensures forall v :: v in nodes ==> fresh(nodes[v]) || (v in old(nodes) && nodes[v] == old(nodes)[v])
    {
      hide ChannelInOrder;
      assert vs + Elements(ids[..0]) == vs;
      for k := 0 to |ids|
        invariant ChannelInOrder(vs + Elements(ids[..k]))
        invariant nodes.Keys == old(nodes).Keys + Elements(ids[..k])
        invariant forall v :: v in old(nodes) ==> nodes[v] == old(nodes)[v]
        invariant forall v :: v in ids[..k] ==> fresh(nodes[v])
      {
        ElementsOfPrefix(ids, k);
        CreateNode(ids[k], vs + Elements(ids[..k]));
        assert vs + Elements(ids[..k + 1]) == vs + Elements(ids[..k]) + {ids[k]};
      }
      assert ids[..|ids|] == ids;
    }

    /** One turn of `DestroyNetworkDevices`: the radio leaves the channel, the node stays named. */
    method DestroyNode(v: VehicleId, ghost vs: set<VehicleId>)
      requires ChannelInOrder(vs)
      modifies channel`phyList, channel.CellSet()`content
      ensures ChannelInOrder(vs - {v})
    {
      if v in nodes {
        HoldsAfterErasing(channel.phyList, nodes, owner, vs, v);
        channel.Remove(nodes[v]);
      } else {
        assert vs - {v} == vs;
      }
    }

    method DestroyNetworkDevices(toDestroy: seq<VehicleId>, ghost vs: set<VehicleId>)
      requires ChannelInOrder(vs)
      modifies channel`phyList, channel.CellSet()`content
      ensures ChannelInOrder(vs - Elements(toDestroy))
    {
      hide ChannelInOrder;
      assert vs - Elements(toDestroy[..0]) == vs;
      for k := 0 to |toDestroy|
        invariant ChannelInOrder(vs - Elements(toDestroy[..k]))
      {
        ElementsOfPrefix(toDestroy, k);
        DestroyNode(toDestroy[k], vs - Elements(toDestroy[..k]));
        assert vs - Elements(toDestroy[..k + 1]) == vs - Elements(toDestroy[..k]) - {toDestroy[k]};
      }
      assert toDestroy[..|toDestroy|] == toDestroy;
    }

    /** The last loop of `UpdateInOutVehicles`. */
    method EraseArrivedFromRunning()
      modifies this`runningVehicles
      ensures runningVehicles == EraseAll(old(runningVehicles), arrivedVehicles)
    {
      for k := 0 to |arrivedVehicles|
        invariant runningVehicles == EraseAll(old(runningVehicles), arrivedVehicles[..k])
      {
        EraseAllSnoc(old(runningVehicles), arrivedVehicles[..k], arrivedVehicles[k]);
        assert arrivedVehicles[..k + 1] == arrivedVehicles[..k] + [arrivedVehicles[k]];
        runningVehicles := Erase(runningVehicles, arrivedVehicles[k]);
      }
      assert arrivedVehicles[..|arrivedVehicles|] == arrivedVehicles;
    }

    /** `UpdateInOutVehicles`: the lists after one step, and the channel to match. */
    method UpdateInOutVehicles()
      requires NoDuplicates(runningVehicles) && NoDuplicates(departedVehicles) && NoDuplicates(arrivedVehicles)
      requires Elements(runningVehicles) !! Elements(departedVehicles)
      requires Elements(arrivedVehicles) <= Present()
      requires Elements(departedVehicles) !! nodes.Keys
      requires ChannelInOrder(Elements(runningVehicles))
      modifies this`runningVehicles, this`departedVehicles, this`arrivedVehicles, this`nodes, this`owner
      modifies channel`phyList, channel.CellSet()`content
      ensures runningVehicles ==
              EraseAll(old(runningVehicles), OnlyArrived(old(arrivedVehicles), old(departedVehicles)))
      ensures departedVehicles == EraseAll(old(departedVehicles), old(arrivedVehicles))
      ensures NoDuplicates(runningVehicles) && NoDuplicates(departedVehicles)
      ensures Elements(runningVehicles) == Elements(old(runningVehicles)) - Elements(old(arrivedVehicles))
      ensures Elements(departedVehicles) == Elements(old(departedVehicles)) - Elements(old(arrivedVehicles))
      ensures ChannelInOrder(Present())
      ensures nodes.Keys <= old(nodes.Keys) + Elements(old(departedVehicles))
      ensures forall v :: v in nodes ==> fresh(nodes[v]) || (v in old(nodes) && nodes[v] == old(nodes)[v])
    {
      hide EraseAll, OnlyArrived, ChannelInOrder, NoDuplicates, Elements;
      ghost var running, departed, arrived := runningVehicles, departedVehicles, arrivedVehicles;
      ListsAfterStep(running, departed, arrived);
      DropPassingVehicles();
      CreateNetworkDevices(departedVehicles, Elements(running));
      DestroyNetworkDevices(arrivedVehicles, Elements(running) + Elements(departedVehicles));
      EraseArrivedFromRunning();
    }

    /** Where the channel last saw each node. */
    ghost function Positions(): map<VehicleId, Point>
      reads this`nodes, nodes.Values
    {
      map v | v in nodes :: nodes[v].placed
    }

    lemma DistinctRadios(vs: set<VehicleId>)
      requires ChannelInOrder(vs)
      ensures forall v, w :: v in nodes && w in nodes && v != w ==> nodes[v] != nodes[w]
    {
    }

    /** The reported positions of the vehicles in `vs` lie inside the channel's area. */
    ghost predicate InsideGrid(vs: set<VehicleId>, positions: VehicleId -> Point)
      reads channel`cells, channel`range
    {
      channel.range > 0.0 &&
      forall v :: v in vs && Reported(positions(v)) ==> channel.HasCell(positions(v))
    }

    method UpdateNodePosition(v: VehicleId, newPos: Point, ghost vs: set<VehicleId>)
      requires ChannelInOrder(vs) && v in vs
      requires Reported(newPos) ==> channel.HasCell(newPos)
      modifies nodes.Values, channel.CellSet()`content
      ensures ChannelInOrder(vs)
      ensures Positions() == Moved(old(Positions()), v, newPos)
    {
      hide OvnisWifiChannel.Stored, OvnisWifiChannel.ColumnsNumbered;
      hide OvnisWifiChannel.CellSet, OvnisWifiChannel.HasCell;
      if v in nodes {
        var phy := nodes[v];
        if newPos.x > 0.0 && newPos.y > 0.0 {
          DistinctRadios(vs);
          phy.position := newPos;
          channel.MovePhy(phy);
        }
      }
    }

    /** One of the two loops of `UpdateVehiclesPositions`. */
    method UpdatePositionsOf(ids: seq<VehicleId>, positions: VehicleId -> Point, ghost vs: set<VehicleId>)
      requires ChannelInOrder(vs)
      requires Elements(ids) <= vs
      requires InsideGrid(vs, positions)
      modifies nodes.Values, channel.CellSet()`content
      ensures ChannelInOrder(vs)
      ensures Positions() == MovedAll(old(Positions()), ids, positions)
    {
      hide ChannelInOrder, OvnisWifiChannel.HasCell, OvnisWifiChannel.CellSet, Positions, Moved;
      for k := 0 to |ids|
        invariant ChannelInOrder(vs)
        invariant Positions() == MovedAll(old(Positions()), ids[..k], positions)
      {
        assert ids[..k + 1][..k] == ids[..k];
        assert ids[k] in Elements(ids);
        UpdateNodePosition(ids[k], positions(ids[k]), vs);
      }
      assert ids[..|ids|] == ids;
    }

    /** Every vehicle in `vs` that the traffic simulator reported stands where it was reported. */
    ghost predicate UpToDate(vs: set<VehicleId>, positions: VehicleId -> Point)
      reads this`nodes, nodes.Values
    {
      forall v :: v in vs && positions(v).x > 0.0 && positions(v).y > 0.0 ==>
        v in Positions() && Positions()[v] == positions(v)
    }

    method UpdateVehiclesPositions(positions: VehicleId -> Point)
      requires ChannelInOrder(Present()) && InsideGrid(Present(), positions)
      modifies nodes.Values, channel.CellSet()`content
      ensures ChannelInOrder(Present())
      ensures Positions() ==
              MovedAll(MovedAll(old(Positions()), runningVehicles, positions), departedVehicles, positions)
    {
      hide ChannelInOrder, InsideGrid, OvnisWifiChannel.CellSet, Positions, MovedAll;
      UpdatePositionsOf(runningVehicles, positions, Present());
      UpdatePositionsOf(departedVehicles, positions, Present());
    }

    lemma NodesArePlaced()
      requires ChannelInOrder(Present())
      ensures Present() <= Positions().Keys
    {
    }

    lemma {:induction false} NowUpToDate(m: map<VehicleId, Point>, positions: VehicleId -> Point)
      requires Present() <= m.Keys
      requires Positions() == MovedAll(MovedAll(m, runningVehicles, positions), departedVehicles, positions)
      ensures UpToDate(Present(), positions)
    {
      BothLoopsReach(m, runningVehicles, departedVehicles, positions);
    }

    /** The list updates at the head of a step: yesterday's departures are running now, and the
        traffic simulator's answer replaces the temporary lists. */
    method BeginStep(departed: seq<VehicleId>, arrived: seq<VehicleId>)
      requires Valid() && Feasible(departed, arrived)
      modifies this`runningVehicles, this`departedVehicles, this`arrivedVehicles, this`inserted, this`gone
      ensures runningVehicles == old(runningVehicles + departedVehicles)
      ensures departedVehicles == departed && arrivedVehicles == arrived
      ensures inserted == old(inserted) + Elements(departed) && gone == old(gone) + Elements(arrived)
      ensures NoDuplicates(runningVehicles)
      ensures Elements(runningVehicles) == old(Present()) && Elements(runningVehicles) !! Elements(departed)
      ensures ChannelInOrder(Elements(runningVehicles))
    {
      hide NoDuplicates, Elements;
      hide OvnisWifiChannel.CellConsistent, OvnisWifiChannel.Home, OvnisWifiChannel.Rectangular;
      hide OvnisWifiChannel.ColumnsNumbered, OvnisWifiChannel.Separate, OvnisWifiChannel.NumbersLow;
      hide OvnisWifiChannel.CellSet;
      JoinDistinct(runningVehicles, departedVehicles);
      assert ChannelInOrder(Elements(runningVehicles + departedVehicles));
      runningVehicles := runningVehicles + departedVehicles;
      arrivedVehicles, departedVehicles := [], [];
      departedVehicles, arrivedVehicles := departed, arrived;
      inserted, gone := inserted + Elements(departed), gone + Elements(arrived);
    }

    /** One step of the simulation, with what the traffic simulator answered as its parameters.
        Before the stop time the lists and the channel stay in lockstep; the last step takes the
        radios of all running vehicles off the channel. */
    method TrafficSimulationStep(departed: seq<VehicleId>, arrived: seq<VehicleId>,
                                 positions: VehicleId -> Point, beforeStopTime: bool)
      requires Valid() && Feasible(departed, arrived)
      requires InsideGrid(Present() + Elements(departed), positions)
      modifies this, nodes.Values, channel`phyList, channel.CellSet()`content
      ensures runningVehicles == EraseAll(old(runningVehicles + departedVehicles), OnlyArrived(arrived, departed))
      ensures departedVehicles == EraseAll(departed, arrived)
      ensures inserted == old(inserted) + Elements(departed) && gone == old(gone) + Elements(arrived)
      ensures ListsInOrder()
      ensures ChannelInOrder(if beforeStopTime then Present() else Elements(departedVehicles))
      ensures UpToDate(Present(), positions)
    {
      hide ChannelInOrder, NoDuplicates, EraseAll, OnlyArrived, OvnisWifiChannel.CellSet, Positions, MovedAll;
      BeginStep(departed, arrived);
      UpdateInOutVehicles();
      ghost var before := Positions();
      assert Present() <= before.Keys by { NodesArePlaced(); }
      UpdateVehiclesPositions(positions);
      NowUpToDate(before, positions);
      if !beforeStopTime {
        DestroyNetworkDevices(runningVehicles, Present());
      }
    }
  }
}
