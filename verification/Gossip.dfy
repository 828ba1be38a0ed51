/** Traffic knowledge gossip: src/recordEntry.cpp, src/knowledge.cpp (`record`) and
src/applications/dissemination/dissemination.cpp.

Every vehicle keeps, per edge, the history of samples it accepted and sends the latest ones on.
The classes update their records in place; `Recorded` and `ToSend` say what they do to the value of
a store, and `Network` runs any number of vehicles over a medium that may lose, repeat and reorder
packets.  The estimation method is "last", the default of the traffic information system.
*/
module Gossip {
  import opened Collections

  // ---------------------------------------------------------------- stores as values

  datatype Sample = Sample(date: real, value: real)

  datatype Data = Data(edgeId: string, date: real, travelTime: real)

  type Store = map<string, seq<Sample>>

  function LatestDate(h: seq<Sample>): real {
    if h == [] then 0.0 else h[|h| - 1].date
  }

  function LatestValue(h: seq<Sample>): real {
    if h == [] then 0.0 else h[|h| - 1].value
  }

  /** An entry accepts its first non-negative date and then only later ones. */
  function Added(h: seq<Sample>, date: real, value: real): seq<Sample> {
    if date >= 0.0 && (date > LatestDate(h) || h == []) then h + [Sample(date, value)] else h
  }

  predicate Fresher(s: Store, d: Data) {
    d.edgeId !in s || LatestDate(s[d.edgeId]) < d.date
  }

  function Recorded(s: Store, d: Data): Store {
    if Fresher(s, d) then
      s[d.edgeId := Added(if d.edgeId in s then s[d.edgeId] else [], d.date, d.travelTime)]
    else s
  }

  function RecordedAll(s: Store, ds: seq<Data>): Store
    decreases |ds|
  {
    if ds == [] then s else RecordedAll(Recorded(s, ds[0]), ds[1..])
  }

  function LatestOf(s: Store, e: string): Data
    requires e in s
  {
    Data(e, LatestDate(s[e]), LatestValue(s[e]))
  }

  /** The latest sample of each requested edge that is known, in the order requested. */
  function ToSend(s: Store, edges: seq<string>): seq<Data> {
    if edges == [] then []
    else (if edges[0] in s then [LatestOf(s, edges[0])] else []) + ToSend(s, edges[1..])
  }

  // ---------------------------------------------------------------- what is recorded and what is sent

  /** An entry takes a sample exactly when its date is not negative and later than its last one. */
  lemma EntryTakesIff(h: seq<Sample>, date: real, value: real)
    ensures Added(h, date, value) ==
              if date >= 0.0 && (h == [] || h[|h| - 1].date < date) then h + [Sample(date, value)] else h
  {
  }

  function KnownCount(s: Store, edges: seq<string>): nat {
    if edges == [] then 0
    else KnownCount(s, edges[..|edges| - 1]) + if edges[|edges| - 1] in s then 1 else 0
  }

  lemma {:induction false} KnownCountFirst(s: Store, edges: seq<string>)
    requires edges != []
    ensures KnownCount(s, edges) == (if edges[0] in s then 1 else 0) + KnownCount(s, edges[1..])
  {
    if |edges| > 1 {
      var front := edges[..|edges| - 1];
      KnownCountFirst(s, front);
      assert front[1..] == edges[1..][..|edges| - 2];
    } else {
      assert edges[..0] == [] && edges[1..] == [];
    }
  }

  /** As many records are sent as requested edges are known. */
  lemma {:induction false} SentCount(s: Store, edges: seq<string>)
    ensures |ToSend(s, edges)| == KnownCount(s, edges)
  {
    if edges != [] {
      SentCount(s, edges[1..]);
      KnownCountFirst(s, edges);
    }
  }

  /** The last sample of every known edge asked for is sent, in the order asked. */
  lemma {:induction false} SentInOrder(s: Store, edges: seq<string>, i: nat)
    requires i < |edges| && edges[i] in s
    ensures var k, h := KnownCount(s, edges[..i]), s[edges[i]];
            && k < |ToSend(s, edges)|
            && (h != [] ==> ToSend(s, edges)[k] == Data(edges[i], h[|h| - 1].date, h[|h| - 1].value))
            && (h == [] ==> ToSend(s, edges)[k] == Data(edges[i], 0.0, 0.0))
  {
    if i > 0 {
      SentInOrder(s, edges[1..], i - 1);
      KnownCountFirst(s, edges[..i]);
      assert edges[..i][1..] == edges[1..][..i - 1];
    }
  }

  /** Every known edge's last sample stands behind those of the known edges asked for before it. */
  ghost predicate SentInPlace(s: Store, edges: seq<string>, sent: seq<Data>) {
    forall i :: 0 <= i < |edges| && edges[i] in s && s[edges[i]] != [] ==>
      var k, h := KnownCount(s, edges[..i]), s[edges[i]];
      k < |sent| && sent[k] == Data(edges[i], h[|h| - 1].date, h[|h| - 1].value)
  }

  lemma EverySentInPlace(s: Store, edges: seq<string>)
    ensures SentInPlace(s, edges, ToSend(s, edges))
  {
    hide KnownCount, ToSend;
    forall i | 0 <= i < |edges| && edges[i] in s && s[edges[i]] != []
      ensures var k, h := KnownCount(s, edges[..i]), s[edges[i]];
              k < |ToSend(s, edges)| && ToSend(s, edges)[k] == Data(edges[i], h[|h| - 1].date, h[|h| - 1].value)
    {
      SentInOrder(s, edges, i);
    }
  }

  // ---------------------------------------------------------------- the classes

  function Samples(times: seq<real>, values: seq<real>): (h: seq<Sample>)
    requires |times| == |values|
    ensures |h| == |times|
  {
    seq(|times|, k requires 0 <= k < |times| => Sample(times[k], values[k]))
  }

  class RecordEntry {
    var times: seq<real>
    var values: seq<real>
    var packetIds: seq<int>
    const memoryMin: real := 0.0

    ghost predicate Valid()
      reads this
    {
      |times| == |values| == |packetIds|
    }

    ghost function View(): seq<Sample>
      requires Valid()
      reads this
    {
      Samples(times, values)
    }

    constructor ()
      ensures Valid() && View() == []
    {
      times, values, packetIds := [], [], [];
    }

    method GetLatestTime() returns (time: real)
      requires Valid()
      ensures time == LatestDate(View())
    {
      if |times| == 0 { return 0.0; }
      time := times[|times| - 1];
    }

    method GetLatestValue() returns (value: real)
      requires Valid()
      ensures value == LatestValue(View())
    {
      if |values| == 0 { return 0.0; }
      value := values[|values| - 1];
    }

    method Add(packetId: int, time: real, value: real)
      requires Valid()
      modifies this
      ensures Valid() && View() == Added(old(View()), time, value)
    {
      var latest := GetLatestTime();
      if time >= memoryMin && (time > latest || |times| == 0) {
        times := times + [time];
        values := values + [value];
        packetIds := packetIds + [packetId];
        assert View() == old(View()) + [Sample(time, value)];
      }
    }
  }

  class Knowledge {
    var travelTimes: map<string, RecordEntry>

    ghost predicate Valid()
      reads this, travelTimes.Values
    {
      && (forall e :: e in travelTimes ==> travelTimes[e].Valid())
      && forall e, f :: e in travelTimes && f in travelTimes && e != f ==> travelTimes[e] != travelTimes[f]
    }

    ghost function View(): Store
      requires Valid()
      reads this, travelTimes.Values
    {
      map e | e in travelTimes :: travelTimes[e].View()
    }

    constructor ()
      ensures Valid() && View() == map[] && fresh(travelTimes.Values)
    {
      travelTimes := map[];
    }

    /** The map's subscript operator: a missing entry is created empty. */
    method EntryOf(edgeId: string) returns (entry: RecordEntry)
      requires Valid()
      modifies this
      ensures Valid() && fresh(travelTimes.Values - old(travelTimes.Values))
      ensures edgeId in travelTimes && travelTimes[edgeId] == entry
      ensures View() == if edgeId in old(View()) then old(View()) else old(View())[edgeId := []]
    {
      hide Samples, Added;
      if edgeId in travelTimes {
        entry := travelTimes[edgeId];
      } else {
        entry := new RecordEntry();
        travelTimes := travelTimes[edgeId := entry];
      }
    }

    /** `travelTimes[edgeId].add(...)` for an entry that is there. */
    method AddTo(edgeId: string, date: real, value: real)
      requires Valid() && edgeId in travelTimes
      modifies travelTimes[edgeId]
      ensures Valid() && View() == old(View())[edgeId := Added(old(View())[edgeId], date, value)]
    {
      hide Added, Samples;
      travelTimes[edgeId].Add(0, date, value);
    }

    /** The guard of `record`: a new edge, or a date later than the last heard. */
    method IsFresher(data: Data) returns (fresher: bool)
      requires Valid()
      ensures fresher <==> Fresher(View(), data)
    {
      fresher := true;
      if data.edgeId in travelTimes {
        var latest := travelTimes[data.edgeId].GetLatestTime();
        fresher := latest < data.date;
      }
    }

    /** Records only what is fresher than the last heard; the result says whether it tried to. */
    method Record(data: Data) returns (fresher: bool)
      requires Valid()
      modifies this, travelTimes.Values
      ensures Valid() && fresh(travelTimes.Values - old(travelTimes.Values))
      ensures View() == Recorded(old(View()), data)
      ensures fresher <==> Fresher(old(View()), data)
    {
      fresher := IsFresher(data);
      if fresher {
        hide View, Fresher, Added;
        ghost var before := View();
        var _ := EntryOf(data.edgeId);
        assert before[data.edgeId := []][data.edgeId := Added([], data.date, data.travelTime)]
            == before[data.edgeId := Added([], data.date, data.travelTime)];
        AddTo(data.edgeId, data.date, data.travelTime);
      }
    }

    method RecordAll(data: seq<Data>)
      requires Valid()
      modifies this, travelTimes.Values
      ensures Valid() && fresh(travelTimes.Values - old(travelTimes.Values))
      ensures View() == RecordedAll(old(View()), data)
    {
      ghost var before := View();
      var i := 0;
      while i < |data|
        invariant 0 <= i <= |data|
        invariant Valid() && fresh(travelTimes.Values - old(travelTimes.Values))
        invariant RecordedAll(View(), data[i..]) == RecordedAll(before, data)
      {
        var _ := Record(data[i]);
        assert data[i..][1..] == data[i + 1..];
        i := i + 1;
      }
    }
  }

  method GetTrafficInformationToSend(knowledge: Knowledge, edges: seq<string>) returns (trafficData: seq<Data>)
    requires knowledge.Valid()
    ensures trafficData == ToSend(knowledge.View(), edges)
    ensures |trafficData| == KnownCount(knowledge.View(), edges)
    ensures SentInPlace(knowledge.View(), edges, trafficData)
  {
    ghost var s := knowledge.View();
    hide KnownCount, SentInPlace;
    SentCount(s, edges);
    EverySentInPlace(s, edges);
    trafficData := [];
    if |knowledge.travelTimes| > 0 {
      var i := 0;
      while i < |edges|
        invariant 0 <= i <= |edges|
        invariant trafficData + ToSend(s, edges[i..]) == ToSend(s, edges)
      {
        var e := edges[i];
        assert edges[i..][1..] == edges[i + 1..];
        if e in knowledge.travelTimes {
          var packetDate := knowledge.travelTimes[e].GetLatestTime();
          var packetValue := knowledge.travelTimes[e].GetLatestValue();
          var data := Data(e, packetDate, packetValue);
          assert data == LatestOf(s, e);
          assert trafficData + ([data] + ToSend(s, edges[i + 1..])) == trafficData + [data] + ToSend(s, edges[i + 1..]);
          trafficData := trafficData + [data];
        }
        i := i + 1;
      }
    } else {
      NothingKnown(s, edges);
    }
  }

  lemma {:induction false} NothingKnown(s: Store, edges: seq<string>)
    requires s == map[]
    ensures ToSend(s, edges) == []
  {
    if edges != [] { NothingKnown(s, edges[1..]); }
  }

  // ---------------------------------------------------------------- what a store remembers

  ghost predicate Increasing(h: seq<Sample>) {
    forall a, b :: 0 <= a < b < |h| ==> h[a].date < h[b].date
  }

  /** The entry of edge `e` holds samples that were all heard, in increasing date order. */
  ghost predicate EntrySound(h: seq<Sample>, e: string, heard: set<Data>) {
    && h != []
    && h[0].date >= 0.0 && Increasing(h)
    && forall k :: 0 <= k < |h| ==> Data(e, h[k].date, h[k].value) in heard
  }

  /** The store's latest record of every edge is a heard one, and none heard is later. */
  ghost predicate Summarizes(s: Store, heard: set<Data>) {
    && (forall e :: e in s ==> EntrySound(s[e], e, heard))
    && forall d :: d in heard ==> d.edgeId in s && d.date <= LatestDate(s[d.edgeId])
  }

  lemma EntryKeptSound(h: seq<Sample>, e: string, heard: set<Data>, more: set<Data>)
    requires EntrySound(h, e, heard) && heard <= more
    ensures EntrySound(h, e, more)
  {
  }

  lemma AddKeepsSound(h: seq<Sample>, d: Data, heard: set<Data>)
    requires h == [] || EntrySound(h, d.edgeId, heard)
    requires d.date >= 0.0 && (h == [] || LatestDate(h) < d.date)
    ensures EntrySound(Added(h, d.date, d.travelTime), d.edgeId, heard + {d})
    ensures LatestDate(Added(h, d.date, d.travelTime)) == d.date
  {
    var g := Added(h, d.date, d.travelTime);
    assert g == h + [Sample(d.date, d.travelTime)];
    forall a, b | 0 <= a < b < |g| ensures g[a].date < g[b].date {
      if b == |h| && a < |h| - 1 { assert h[a].date < h[|h| - 1].date; }
    }
    forall k | 0 <= k < |g| ensures Data(d.edgeId, g[k].date, g[k].value) in heard + {d} {
      if k < |h| { assert g[k] == h[k]; }
    }
    assert h != [] ==> g[0] == h[0];
  }

  /** Latest dates of sound entries are not negative. */
  lemma LatestNotNegative(h: seq<Sample>, e: string, heard: set<Data>)
    requires EntrySound(h, e, heard)
    ensures LatestDate(h) >= 0.0
  {
    if |h| > 1 { assert h[0].date < h[|h| - 1].date; }
  }

  /** Recording keeps the store a summary of what was heard exactly when the date is not negative
      or the edge is already known: a negative date on an unknown edge leaves an empty entry. */
  lemma RecordSummarizesIff(s: Store, heard: set<Data>, d: Data)
    requires Summarizes(s, heard)
    ensures Summarizes(Recorded(s, d), heard + {d}) <==> d.date >= 0.0 || d.edgeId in s
  {
    var t, more := Recorded(s, d), heard + {d};
    forall e | e in s ensures EntrySound(s[e], e, more) {
      EntryKeptSound(s[e], e, heard, more);
    }
    if d.edgeId in s {
      LatestNotNegative(s[d.edgeId], d.edgeId, heard);
    }
    if Fresher(s, d) && d.date >= 0.0 {
      var h := if d.edgeId in s then s[d.edgeId] else [];
      AddKeepsSound(h, d, heard);
    } else if d.edgeId !in s {
      assert t[d.edgeId] == [];
    } else {
      assert t == s;
    }
  }

  lemma ElementsSplit(ds: seq<Data>)
    requires ds != []
    ensures Elements(ds) == {ds[0]} + Elements(ds[1..])
  {
    forall d | d in Elements(ds) ensures d in {ds[0]} + Elements(ds[1..]) {
      var k :| 0 <= k < |ds| && ds[k] == d;
      if k > 0 { assert ds[1..][k - 1] == d; }
    }
    forall d | d in Elements(ds[1..]) ensures d in Elements(ds) {
      var k :| 0 <= k < |ds[1..]| && ds[1..][k] == d;
      assert ds[k + 1] == d;
    }
  }

  lemma {:induction false} RecordAllSummarizes(s: Store, heard: set<Data>, ds: seq<Data>)
    requires Summarizes(s, heard)
    requires forall k :: 0 <= k < |ds| ==> ds[k].date >= 0.0
    ensures Summarizes(RecordedAll(s, ds), heard + Elements(ds))
    decreases |ds|
  {
    hide Summarizes, Recorded;
    if ds == [] {
      assert heard + Elements(ds) == heard;
    } else {
      RecordSummarizesIff(s, heard, ds[0]);
      RecordAllSummarizes(Recorded(s, ds[0]), heard + {ds[0]}, ds[1..]);
      ElementsSplit(ds);
      assert heard + Elements(ds) == heard + {ds[0]} + Elements(ds[1..]);
    }
  }

  /** Recording never takes a latest date back. */
  lemma RecordNeverGoesBack(s: Store, heard: set<Data>, d: Data, e: string)
    requires Summarizes(s, heard) && e in s
    ensures e in Recorded(s, d) && LatestDate(s[e]) <= LatestDate(Recorded(s, d)[e])
  {
    LatestNotNegative(s[e], e, heard);
  }

  lemma {:induction false} RecordAllNeverGoesBack(s: Store, heard: set<Data>, ds: seq<Data>, e: string)
    requires Summarizes(s, heard) && e in s
    requires forall k :: 0 <= k < |ds| ==> ds[k].date >= 0.0
    ensures e in RecordedAll(s, ds) && LatestDate(s[e]) <= LatestDate(RecordedAll(s, ds)[e])
    decreases |ds|
  {
    if ds != [] {
      RecordNeverGoesBack(s, heard, ds[0], e);
      RecordSummarizesIff(s, heard, ds[0]);
      RecordAllNeverGoesBack(Recorded(s, ds[0]), heard + {ds[0]}, ds[1..], e);
    }
  }

  // ---------------------------------------------------------------- a network of vehicles

  type NodeId = nat

  /** `air` holds every packet ever sent: a packet may be delivered never, once or many times, to
      anyone, in any order.  `heard` and `observed` record what happened. */
  datatype Network = Network(
    stores: map<NodeId, Store>,
    air: seq<seq<Data>>,
    heard: map<NodeId, set<Data>>,
    observed: set<Data>)

  datatype Step =
    | Observe(node: NodeId, data: Data)
    | Send(node: NodeId, edges: seq<string>)
    | Deliver(node: NodeId, packet: nat)

  const QUIET := Network(map[], [], map[], {})

  function StoreOf(n: Network, v: NodeId): Store {
    if v in n.stores then n.stores[v] else map[]
  }

  function HeardBy(n: Network, v: NodeId): set<Data> {
    if v in n.heard then n.heard[v] else {}
  }

  function Next(n: Network, step: Step): Network {
    match step
    case Observe(v, d) =>
      n.(stores := n.stores[v := Recorded(StoreOf(n, v), d)],
         heard := n.heard[v := HeardBy(n, v) + {d}],
         observed := n.observed + {d})
    case Send(v, edges) =>
      n.(air := n.air + [ToSend(StoreOf(n, v), edges)])
    case Deliver(v, p) =>
      if p < |n.air| then
        n.(stores := n.stores[v := RecordedAll(StoreOf(n, v), n.air[p])],
           heard := n.heard[v := HeardBy(n, v) + Elements(n.air[p])])
      else n
  }

  function Run(n: Network, steps: seq<Step>): Network
    decreases |steps|
  {
    if steps == [] then n else Run(Next(n, steps[0]), steps[1..])
  }

  /** Observations carry simulation times, which are never negative. */
  ghost predicate Timely(steps: seq<Step>) {
    forall k :: 0 <= k < |steps| && steps[k].Observe? ==> steps[k].data.date >= 0.0
  }

  ghost predicate Safe(n: Network) {
    && (forall v :: Summarizes(StoreOf(n, v), HeardBy(n, v)))
    && (forall v :: HeardBy(n, v) <= n.observed)
    && (forall p, k :: 0 <= p < |n.air| && 0 <= k < |n.air[p]| ==> n.air[p][k] in n.observed)
    && forall d :: d in n.observed ==> d.date >= 0.0
  }

  lemma {:induction false} SentIsHeard(s: Store, heard: set<Data>, edges: seq<string>)
    requires Summarizes(s, heard)
    ensures forall k :: 0 <= k < |ToSend(s, edges)| ==> ToSend(s, edges)[k] in heard
  {
    if edges != [] {
      SentIsHeard(s, heard, edges[1..]);
      if edges[0] in s {
        assert EntrySound(s[edges[0]], edges[0], heard);
        assert LatestOf(s, edges[0]) in heard;
      }
    }
  }

  lemma VehicleUpdateKeepsSafe(n: Network, v: NodeId, store: Store, heard: set<Data>, observed: set<Data>)
    requires Safe(n) && Summarizes(store, heard)
    requires heard <= observed && n.observed <= observed
    requires forall d :: d in observed ==> d.date >= 0.0
    ensures Safe(n.(stores := n.stores[v := store], heard := n.heard[v := heard], observed := observed))
  {
    hide Summarizes;
    var m := n.(stores := n.stores[v := store], heard := n.heard[v := heard], observed := observed);
    forall u ensures Summarizes(StoreOf(m, u), HeardBy(m, u)) && HeardBy(m, u) <= m.observed {
      if u != v {
        assert StoreOf(m, u) == StoreOf(n, u) && HeardBy(m, u) == HeardBy(n, u);
        assert HeardBy(n, u) <= n.observed;
      }
    }
  }

  lemma SendKeepsSafe(n: Network, v: NodeId, edges: seq<string>)
    requires Safe(n)
    ensures Safe(Next(n, Send(v, edges)))
  {
    hide Summarizes;
    var m := Next(n, Send(v, edges));
    SentIsHeard(StoreOf(n, v), HeardBy(n, v), edges);
    assert HeardBy(n, v) <= n.observed;
    forall u ensures Summarizes(StoreOf(m, u), HeardBy(m, u)) && HeardBy(m, u) <= n.observed {
      assert StoreOf(m, u) == StoreOf(n, u) && HeardBy(m, u) == HeardBy(n, u);
    }
  }

  /** Every step keeps the network safe. */
  lemma StepKeepsSafe(n: Network, step: Step)
    requires Safe(n) && (step.Observe? ==> step.data.date >= 0.0)
    ensures Safe(Next(n, step))
  {
    hide Summarizes;
    match step {
      case Observe(v, d) =>
        RecordSummarizesIff(StoreOf(n, v), HeardBy(n, v), d);
        assert HeardBy(n, v) <= n.observed;
        VehicleUpdateKeepsSafe(n, v, Recorded(StoreOf(n, v), d), HeardBy(n, v) + {d}, n.observed + {d});
      case Send(v, edges) =>
        SendKeepsSafe(n, v, edges);
      case Deliver(v, p) =>
        if p < |n.air| {
          RecordAllSummarizes(StoreOf(n, v), HeardBy(n, v), n.air[p]);
          assert HeardBy(n, v) <= n.observed && Elements(n.air[p]) <= n.observed;
          VehicleUpdateKeepsSafe(n, v, RecordedAll(StoreOf(n, v), n.air[p]),
                                 HeardBy(n, v) + Elements(n.air[p]), n.observed);
        }
    }
  }

  lemma {:induction false} RunKeepsSafe(n: Network, steps: seq<Step>)
    requires Safe(n) && Timely(steps)
    ensures Safe(Run(n, steps))
    decreases |steps|
  {
    if steps != [] {
      StepKeepsSafe(n, steps[0]);
      TimelyTail(steps);
      RunKeepsSafe(Next(n, steps[0]), steps[1..]);
    }
  }

  /** No step of any run takes a vehicle's latest date for an edge back, or forgets the edge. */
  lemma {:induction false} LatestNeverGoesBack(n: Network, steps: seq<Step>, v: NodeId, e: string)
    requires Safe(n) && Timely(steps) && e in StoreOf(n, v)
    ensures e in StoreOf(Run(n, steps), v)
    ensures LatestDate(StoreOf(n, v)[e]) <= LatestDate(StoreOf(Run(n, steps), v)[e])
    decreases |steps|
  {
    if steps != [] {
      var m := Next(n, steps[0]);
      StepKeepsSafe(n, steps[0]);
      assert Summarizes(StoreOf(n, v), HeardBy(n, v));
      match steps[0] {
        case Observe(u, d) =>
          if u == v { RecordNeverGoesBack(StoreOf(n, v), HeardBy(n, v), d, e); }
        case Send(_, _) =>
        case Deliver(u, p) =>
          if u == v && p < |n.air| {
            RecordAllNeverGoesBack(StoreOf(n, v), HeardBy(n, v), n.air[p], e);
          }
      }
      TimelyTail(steps);
      LatestNeverGoesBack(m, steps[1..], v, e);
    }
  }

  lemma TimelyTail(steps: seq<Step>)
    requires Timely(steps) && steps != []
    ensures Timely(steps[1..])
  {
    forall k | 0 <= k < |steps[1..]| && steps[1..][k].Observe? ensures steps[1..][k].data.date >= 0.0 {
      assert steps[1..][k] == steps[k + 1];
    }
  }

  /** Packets stay in the air. */
  lemma {:induction false} AirKept(n: Network, steps: seq<Step>, p: nat)
    requires p < |n.air|
    ensures p < |Run(n, steps).air| && Run(n, steps).air[p] == n.air[p]
    decreases |steps|
  {
    if steps != [] {
      AirKept(Next(n, steps[0]), steps[1..], p);
    }
  }

  /** Progress: what a vehicle sends makes whoever receives it, however much later, know every edge
      asked for that the sender knew, with a record at least as late, and keep knowing it. */
  lemma {:induction false} KnowledgeSpreads(
      n: Network, v: NodeId, edges: seq<string>, between: seq<Step>, w: NodeId, after: seq<Step>, e: string)
    requires Safe(n) && Timely(between) && Timely(after)
    requires e in edges && e in StoreOf(n, v)
    ensures var sent := Next(n, Send(v, edges));
            var received := Next(Run(sent, between), Deliver(w, |n.air|));
            var later := StoreOf(Run(received, after), w);
            e in later && LatestDate(StoreOf(n, v)[e]) <= LatestDate(later[e])
  {
    hide Summarizes, Recorded;
    var sent := Next(n, Send(v, edges));
    var p := |n.air|;
    StepKeepsSafe(n, Send(v, edges));
    RunKeepsSafe(sent, between);
    AirKept(sent, between, p);
    var m := Run(sent, between);
    StepKeepsSafe(m, Deliver(w, p));
    var r := Next(m, Deliver(w, p));
    var i :| 0 <= i < |edges| && edges[i] == e;
    SentInOrder(StoreOf(n, v), edges, i);
    var d := ToSend(StoreOf(n, v), edges)[KnownCount(StoreOf(n, v), edges[..i])];
    assert d in Elements(m.air[p]) && d in HeardBy(r, w);
    HeardIsKnown(StoreOf(r, w), HeardBy(r, w), d);
    LatestNeverGoesBack(r, after, w, e);
  }

  lemma HeardIsKnown(s: Store, heard: set<Data>, d: Data)
    requires Summarizes(s, heard) && d in heard
    ensures d.edgeId in s && d.date <= LatestDate(s[d.edgeId])
  {
  }

  /** One measured value per edge and date. */
  ghost predicate SingleValued(ds: set<Data>) {
    forall c, d :: c in ds && d in ds && c.edgeId == d.edgeId && c.date == d.date ==> c == d
  }

  ghost predicate IsLatest(d: Data, heard: set<Data>) {
    d in heard && forall c :: c in heard && c.edgeId == d.edgeId ==> c.date <= d.date
  }

  /** Safety of every run: whatever is lost, repeated or reordered, a vehicle knows an edge exactly
      if it heard of it, and then its latest record is the one of greatest date among those it
      observed or was delivered; and everything anyone stores was really observed by someone. */
  lemma {:induction false} LatestIsGreatestHeard(steps: seq<Step>, v: NodeId)
    requires Timely(steps)
    ensures var n := Run(QUIET, steps); var s := StoreOf(n, v);
            && (forall e :: e in s ==> IsLatest(LatestOf(s, e), HeardBy(n, v)))
            && (forall d :: d in HeardBy(n, v) ==> d.edgeId in s)
            && (forall e, k :: e in s && 0 <= k < |s[e]| ==>
                  Data(e, s[e][k].date, s[e][k].value) in n.observed)
  {
    assert Safe(QUIET);
    RunKeepsSafe(QUIET, steps);
    var n := Run(QUIET, steps);
    var s := StoreOf(n, v);
    assert Summarizes(s, HeardBy(n, v));
    forall e | e in s ensures IsLatest(LatestOf(s, e), HeardBy(n, v)) {
      assert EntrySound(s[e], e, HeardBy(n, v));
      var last := s[e][|s[e]| - 1];
      assert LatestOf(s, e) == Data(e, last.date, last.value);
    }
    forall e, k | e in s && 0 <= k < |s[e]|
      ensures Data(e, s[e][k].date, s[e][k].value) in n.observed
    {
      assert EntrySound(s[e], e, HeardBy(n, v));
    }
  }

  /** Convergence: two vehicles whose greatest heard dates for an edge agree hold the same record,
      provided no edge has two values for one date. */
  lemma {:induction false} SameMaximaAgree(steps: seq<Step>, v: NodeId, w: NodeId, c: Data, d: Data)
    requires Timely(steps) && SingleValued(Run(QUIET, steps).observed)
    requires IsLatest(c, HeardBy(Run(QUIET, steps), v)) && IsLatest(d, HeardBy(Run(QUIET, steps), w))
    requires c.edgeId == d.edgeId && c.date == d.date
    ensures var n := Run(QUIET, steps);
            && c.edgeId in StoreOf(n, v) && c.edgeId in StoreOf(n, w)
            && LatestOf(StoreOf(n, v), c.edgeId) == LatestOf(StoreOf(n, w), c.edgeId) == c == d
  {
    LatestIsGreatestHeard(steps, v);
    LatestIsGreatestHeard(steps, w);
    RunKeepsSafe(QUIET, steps);
    var n := Run(QUIET, steps);
    var a, b := LatestOf(StoreOf(n, v), c.edgeId), LatestOf(StoreOf(n, w), c.edgeId);
    assert HeardBy(n, v) <= n.observed && HeardBy(n, w) <= n.observed;
    assert IsLatest(a, HeardBy(n, v)) && IsLatest(b, HeardBy(n, w));
    assert a.date == c.date && b.date == d.date;
  }
}
