/** The neighbour table of src/devices/wifi/beaconing-adhoc-wifi-mac.cc: a counter per neighbour that
a beacon refills and every own beacon decreases, and a removal loop whose bound shrinks as it runs.

The map is visited in some order, which may differ from tick to tick.  The iterator of the removal
loop is an index that is compared with the size of the vector as it is then.
*/
module BeaconTable {
  import opened Collections

  type Mac48Address = a: nat | a < 0x1_0000_0000_0000
  type Table = map<Mac48Address, nat>

  // ---------------------------------------------------------------- one tick

  function Decreased(list: Table): Table {
    map a | a in list :: if list[a] != 0 then list[a] - 1 else 0
  }

  /** The neighbours whose counter is zero, in the order the map is visited. */
  function Expired(order: seq<Mac48Address>, list: Table): seq<Mac48Address>
    requires forall a :: a in order ==> a in list
  {
    if order == [] then []
    else
      var last := |order| - 1;
      Expired(order[..last], list) + if list[order[last]] == 0 then [order[last]] else []
  }

  function Zeros(list: Table): set<Mac48Address> {
    set a | a in list && list[a] == 0
  }

  /** How many of `k` expired neighbours one tick removes. */
  function Removals(k: nat): (n: nat)
    ensures n <= k
  {
    if k == 0 then 0 else k / 2 + 1
  }

  function Removed(expired: seq<Mac48Address>): seq<Mac48Address> {
    expired[|expired| - Removals(|expired|)..]
  }

  function AfterTick(order: seq<Mac48Address>, list: Table): Table
    requires forall a :: a in order ==> a in list
  {
    var gone := Removed(Expired(order, list));
    map a | a in list && a !in gone :: Decreased(list)[a]
  }

  function Backwards<T>(s: seq<T>): seq<T> {
    if s == [] then [] else Backwards(s[1..]) + [s[0]]
  }

  lemma {:induction false} ExpiredOfNone(list: Table)
    ensures Expired([], list) == []
  {
  }

  lemma {:induction false} ExpiredOneMore(order: seq<Mac48Address>, list: Table, k: nat)
    requires k < |order| && forall a :: a in order ==> a in list
    ensures Expired(order[..k + 1], list) == Expired(order[..k], list) + if list[order[k]] == 0 then [order[k]] else []
  {
    assert order[..k + 1][..k] == order[..k];
  }

  lemma {:induction false} ExpiredMembers(order: seq<Mac48Address>, list: Table)
    requires forall a :: a in order ==> a in list
    ensures forall a :: a in Expired(order, list) <==> a in order && list[a] == 0
  {
    if order != [] {
      var init, a := order[..|order| - 1], order[|order| - 1];
      ExpiredMembers(init, list);
      assert order == init + [a];
    }
  }

  lemma {:induction false} ExpiredDistinct(order: seq<Mac48Address>, list: Table)
    requires NoDuplicates(order) && forall a :: a in order ==> a in list
    ensures NoDuplicates(Expired(order, list))
  {
    if order != [] {
      var init, a := order[..|order| - 1], order[|order| - 1];
      ExpiredDistinct(init, list);
      ExpiredMembers(init, list);
      var e := Expired(init, list);
      assert a !in init;
      assert a !in e;
      hide Expired;
      assert forall i :: 0 <= i < |e| ==> e[i] in e;
    }
  }

  lemma {:induction false} ExpiredAreZeros(order: seq<Mac48Address>, list: Table)
    requires NoDuplicates(order) && forall a :: a in order ==> a in list
    ensures forall a :: a in Expired(order, list) <==> a in order && list[a] == 0
    ensures NoDuplicates(Expired(order, list))
  {
    ExpiredMembers(order, list);
    ExpiredDistinct(order, list);
  }

  /** What a tick takes away was at zero; everything else is one lower. */
  lemma {:induction false} TickFacts(order: seq<Mac48Address>, list: Table)
    requires Lists(order, list.Keys)
    ensures forall a :: a in Removed(Expired(order, list)) ==> a in list && list[a] == 0
    ensures forall a :: a in AfterTick(order, list) <==> a in list && a !in Removed(Expired(order, list))
    ensures forall a :: a in AfterTick(order, list) ==> AfterTick(order, list)[a] == Decreased(list)[a]
    ensures Expired(order, list) == [] ==> AfterTick(order, list) == Decreased(list)
  {
    ExpiredAreZeros(order, list);
    var e := Expired(order, list);
    hide Expired, Decreased;
    assert forall a :: a in Removed(e) ==> a in e;
  }

  // ---------------------------------------------------------------- the table in place

  class BeaconingAdhocWifiMac {
    var neighborList: Table
    /** Neighbours reported lost, in the order they were reported. */
    var lost: seq<Mac48Address>
    const numberBeaconLost: nat
    /** Own beacons so far, and how many of them there were at a neighbour's last beacon. */
    ghost var ticks: nat
    ghost var heard: map<Mac48Address, nat>

    /** A counter is what is left of N after the own beacons since the neighbour was heard. */
    ghost predicate Valid()
      reads this
    {
      && numberBeaconLost < 0x1_0000 && neighborList.Keys == heard.Keys
      && forall a :: a in neighborList ==>
           heard[a] <= ticks && neighborList[a] == Left(numberBeaconLost, ticks - heard[a])
    }

    constructor (numberBeaconLost: nat)
      requires numberBeaconLost < 0x1_0000
      ensures Valid() && neighborList == map[] && lost == [] && this.numberBeaconLost == numberBeaconLost
    {
      this.numberBeaconLost := numberBeaconLost;
      neighborList, lost, ticks, heard := map[], [], 0, map[];
    }

    method ProcessBeacon(addrFrom: Mac48Address)
      requires Valid()
      modifies this
      ensures Valid() && neighborList == old(neighborList)[addrFrom := numberBeaconLost]
      ensures heard == old(heard)[addrFrom := ticks] && ticks == old(ticks) && lost == old(lost)
    {
      if addrFrom !in neighborList {
        neighborList := neighborList[addrFrom := numberBeaconLost];
      }
      neighborList := neighborList[addrFrom := numberBeaconLost];
      heard := heard[addrFrom := ticks];
    }

    /** The first loop: counters go down, neighbours at zero are noted. */
    method DecreaseCounters(order: seq<Mac48Address>) returns (arrayToErase: seq<Mac48Address>)
      requires Lists(order, neighborList.Keys)
      modifies this`neighborList
      ensures neighborList == Decreased(old(neighborList)) && arrayToErase == Expired(order, old(neighborList))
    {
      hide Expired;
      arrayToErase := [];
      ExpiredOfNone(neighborList);
      assert order[..0] == [];
      for k := 0 to |order|
        invariant neighborList.Keys == old(neighborList).Keys
        invariant forall i :: 0 <= i < k ==> neighborList[order[i]] == Decreased(old(neighborList))[order[i]]
        invariant forall i :: k <= i < |order| ==> neighborList[order[i]] == old(neighborList)[order[i]]
        invariant arrayToErase == Expired(order[..k], old(neighborList))
      {
        var a := order[k];
        ExpiredOneMore(order, old(neighborList), k);
        var index := neighborList[a];
        if index != 0 {
          index := index - 1;
          neighborList := neighborList[a := index];
        } else {
          arrayToErase := arrayToErase + [a];
        }
      }
      assert order[..|order|] == order;
    }

    /** The second loop: it runs while the index is at most the size that is left, and never takes
        from an empty vector. */
    method EraseFromTheBack(expired: seq<Mac48Address>)
      requires expired != []
      modifies this`neighborList, this`lost
      ensures neighborList == map a | a in old(neighborList) && a !in Removed(expired) :: old(neighborList)[a]
      ensures lost == old(lost) + Backwards(Removed(expired))
    {
      var arrayToErase := expired;
      var it := 0;
      while it <= |arrayToErase|
        invariant |arrayToErase| == |expired| - it && it <= Removals(|expired|)
        invariant arrayToErase == expired[..|expired| - it]
        invariant neighborList == map a | a in old(neighborList) && a !in expired[|expired| - it..] ::
                            old(neighborList)[a]
        invariant lost == old(lost) + Backwards(expired[|expired| - it..])
        decreases |arrayToErase|
      {
        var size := |arrayToErase|;
        var addr := arrayToErase[size - 1];
        arrayToErase := arrayToErase[..size - 1];
        var gone := expired[size..];
        assert expired[size - 1..] == [addr] + gone;
        neighborList := map a | a in neighborList && a != addr :: neighborList[a];
        lost := lost + [addr];
        it := it + 1;
      }
    }

    method DecreaseBeaconCount(order: seq<Mac48Address>)
      requires Valid() && Lists(order, neighborList.Keys)
      modifies this
      ensures Valid() && ticks == old(ticks) + 1
      ensures neighborList == AfterTick(order, old(neighborList))
      ensures lost == old(lost) + Backwards(Removed(Expired(order, old(neighborList))))
      ensures forall a :: a in neighborList ==> heard[a] == old(heard)[a]
      ensures forall a :: a in lost[|old(lost)|..] ==> a in old(heard) && ticks - old(heard)[a] >= numberBeaconLost + 1
    {
      hide Expired, Removed, Backwards, AfterTick;
      ghost var before, expired := neighborList, Expired(order, neighborList);
      TickFacts(order, before);
      Sweep(order);
      BackwardsSame(Removed(expired));
      assert lost[|old(lost)|..] == Backwards(Removed(expired));
      ticks := ticks + 1;
      heard := map a | a in neighborList :: heard[a];
    }

    /** The body of `DecreaseBeaconCount`. */
    method Sweep(order: seq<Mac48Address>)
      requires Lists(order, neighborList.Keys)
      modifies this`neighborList, this`lost
      ensures neighborList == AfterTick(order, old(neighborList))
      ensures lost == old(lost) + Backwards(Removed(Expired(order, old(neighborList))))
    {
      hide Expired, Removed, Backwards;
      ghost var before := neighborList;
      TickFacts(order, before);
      NothingRemoved();
      if |neighborList| != 0 {
        var arrayToErase := DecreaseCounters(order);
        if arrayToErase != [] {
          EraseFromTheBack(arrayToErase);
        }
      } else {
        EmptyTable(order, before);
      }
    }
  }

  lemma NothingRemoved()
    ensures Removed([]) == [] && Backwards<Mac48Address>([]) == []
  {
  }

  lemma {:induction false} EmptyTable(order: seq<Mac48Address>, list: Table)
    requires Lists(order, list.Keys) && |list| == 0
    ensures order == [] && list == map[] && Expired(order, list) == [] && AfterTick(order, list) == map[]
  {
    DistinctCount(order);
    assert list.Keys == Elements(order);
    assert |list.Keys| == |list|;
  }

  function Left(n: nat, silent: nat): nat {
    if silent < n then n - silent else 0
  }

  lemma {:induction false} BackwardsSame<T>(s: seq<T>)
    ensures |Backwards(s)| == |s| && forall a :: a in Backwards(s) <==> a in s
  {
    if s != [] { BackwardsSame(s[1..]); }
  }

  // ---------------------------------------------------------------- runs

  datatype Event = Beacon(from: Mac48Address) | Tick(order: seq<Mac48Address>)

  function After(n: nat, list: Table, e: Event): Table
    requires e.Tick? ==> forall a :: a in e.order ==> a in list
  {
    match e
    case Beacon(a) => list[a := n]
    case Tick(order) => AfterTick(order, list)
  }

  ghost predicate Legal(n: nat, list: Table, events: seq<Event>)
    decreases events
  {
    events == [] ||
    ((events[0].Tick? ==> Lists(events[0].order, list.Keys)) && Legal(n, After(n, list, events[0]), events[1..]))
  }

  ghost function Run(n: nat, list: Table, events: seq<Event>): Table
    requires Legal(n, list, events)
    decreases events
  {
    if events == [] then list else Run(n, After(n, list, events[0]), events[1..])
  }

  function TickCount(events: seq<Event>): nat {
    if events == [] then 0 else (if events[0].Tick? then 1 else 0) + TickCount(events[1..])
  }

  /** Nobody but the batch is at zero when an own beacon goes out, and the batch stays silent. */
  ghost predicate OnlyBatchExpires(n: nat, list: Table, events: seq<Event>, batch: set<Mac48Address>)
    requires Legal(n, list, events)
    decreases events
  {
    events == [] ||
    (&& (match events[0] case Beacon(a) => a !in batch case Tick(_) => Zeros(list) <= batch)
     && OnlyBatchExpires(n, After(n, list, events[0]), events[1..], batch))
  }

  function PowerOf2(m: nat): nat {
    if m == 0 then 1 else 2 * PowerOf2(m - 1)
  }

  /** The members of a batch that are still in the table. */
  ghost function Present(batch: set<Mac48Address>, list: Table): set<Mac48Address> {
    set a | a in batch && a in list
  }

  lemma {:induction false} BatchBeforeTick(order: seq<Mac48Address>, list: Table, batch: set<Mac48Address>)
    requires Lists(order, list.Keys) && Zeros(list) <= batch
    requires forall a :: a in batch && a in list ==> list[a] == 0
    ensures Present(batch, list) == Elements(Expired(order, list))
  {
    hide Expired;
    ExpiredAreZeros(order, list);
    assert Present(batch, list) == Zeros(list);
  }

  lemma {:induction false} BatchAfterTick(order: seq<Mac48Address>, list: Table, batch: set<Mac48Address>, cut: nat)
    requires Lists(order, list.Keys) && Zeros(list) <= batch
    requires forall a :: a in batch && a in list ==> list[a] == 0
    requires cut == |Expired(order, list)| - Removals(|Expired(order, list)|)
    ensures Present(batch, AfterTick(order, list)) == Elements(Expired(order, list)[..cut])
    ensures forall a :: a in batch && a in AfterTick(order, list) ==> AfterTick(order, list)[a] == 0
  {
    hide Expired, AfterTick;
    var e := Expired(order, list);
    ExpiredAreZeros(order, list);
    TickFacts(order, list);
    StaysWhenBefore(e, cut);
  }

  /** One tick halves what is left of an expired batch. */
  lemma TickHalvesTheBatch(order: seq<Mac48Address>, list: Table, batch: set<Mac48Address>)
    requires Lists(order, list.Keys) && Zeros(list) <= batch
    requires forall a :: a in batch && a in list ==> list[a] == 0
    ensures var next := AfterTick(order, list);
            && (forall a :: a in batch && a in next ==> next[a] == 0)
            && |Present(batch, next)| == |Present(batch, list)| - Removals(|Present(batch, list)|)
  {
    hide Expired, AfterTick, Present, Zeros, Removals, Elements;
    var e := Expired(order, list);
    ExpiredAreZeros(order, list);
    BatchBeforeTick(order, list, batch);
    DistinctCount(e);
    var cut := |e| - Removals(|e|);
    BatchAfterTick(order, list, batch, cut);
    DistinctCount(e[..cut]);
  }

  lemma StaysWhenBefore<T>(e: seq<T>, cut: nat)
    requires NoDuplicates(e) && cut <= |e|
    ensures forall a :: a in e[..cut] <==> a in e && a !in e[cut..]
  {
    assert e == e[..cut] + e[cut..];
  }

  lemma {:induction false} DistinctCount<T>(s: seq<T>)
    requires NoDuplicates(s)
    ensures |Elements(s)| == |s|
  {
    if s != [] {
      var init, a := s[..|s| - 1], s[|s| - 1];
      DistinctCount(init);
      assert s == init + [a];
      assert Elements(s) == Elements(init) + {a};
    }
  }

  /** A batch of fewer than 2^m silent neighbours at zero is gone within m own beacons, whatever
      beacons others send in between and in whatever order the map is visited. */
  lemma {:induction false} SilentBatchGoes(n: nat, list: Table, events: seq<Event>, batch: set<Mac48Address>, m: nat)
    requires Legal(n, list, events) && OnlyBatchExpires(n, list, events, batch)
    requires forall a :: a in batch && a in list ==> list[a] == 0
    requires |Present(batch, list)| < PowerOf2(m) && TickCount(events) >= m
    ensures forall a :: a in batch ==> a !in Run(n, list, events)
    decreases events
  {
    var left := Present(batch, list);
    if events == [] {
      assert forall a :: a in batch && a in list ==> a in left;
    } else {
      var next := After(n, list, events[0]);
      var leftThen := Present(batch, next);
      match events[0] {
        case Beacon(a) =>
          assert leftThen == left;
          SilentBatchGoes(n, next, events[1..], batch, m);
        case Tick(order) =>
          TickHalvesTheBatch(order, list, batch);
          SilentBatchGoes(n, next, events[1..], batch, if m == 0 then 0 else m - 1);
      }
    }
  }

  // ---------------------------------------------------------------- who is spared

  lemma {:induction false} ExpiredConcat(a: seq<Mac48Address>, b: seq<Mac48Address>, list: Table)
    requires forall x :: x in a + b ==> x in list
    ensures Expired(a + b, list) == Expired(a, list) + Expired(b, list)
  {
    if b == [] {
      assert a + b == a;
    } else {
      var init, last := b[..|b| - 1], b[|b| - 1];
      assert (a + b)[..|a + b| - 1] == a + init && b == init + [last];
      ExpiredConcat(a, init, list);
    }
  }

  /** At least as many others at zero come later as the tick removes. */
  predicate Spared(order: seq<Mac48Address>, list: Table, i: nat)
    requires i < |order| && forall a :: a in order ==> a in list
  {
    |Expired(order[i + 1..], list)| >= Removals(|Expired(order, list)|)
  }

  /** A neighbour at zero survives a tick exactly when it is spared. */
  lemma {:induction false} SurvivesIff(order: seq<Mac48Address>, list: Table, i: nat)
    requires Lists(order, list.Keys) && i < |order| && list[order[i]] == 0
    ensures order[i] in AfterTick(order, list) <==> Spared(order, list, i)
    ensures order[i] in AfterTick(order, list) ==> AfterTick(order, list)[order[i]] == 0
  {
    hide Expired, AfterTick;
    TickFacts(order, list);
    ExpiredAreZeros(order, list);
    var e := Expired(order, list);
    var before, later := Expired(order[..i], list), Expired(order[i + 1..], list);
    assert e == before + [order[i]] + later by {
      ExpiredOneMore(order, list, i);
      ExpiredConcat(order[..i + 1], order[i + 1..], list);
      assert order == order[..i + 1] + order[i + 1..];
    }
    var cut := |e| - Removals(|e|);
    assert e[|before|] == order[i];
    if |before| < cut {
      assert order[i] in e[..cut];
      StaysWhenBefore(e, cut);
    } else {
      assert e[cut..][|before| - cut] == order[i];
    }
  }

  /** Spared at every own beacon of the run. */
  ghost predicate SparedThroughout(n: nat, list: Table, events: seq<Event>, a: Mac48Address)
    requires Legal(n, list, events)
    decreases events
  {
    events == [] ||
    (&& (match events[0]
         case Beacon(_) => true
         case Tick(order) => exists i :: 0 <= i < |order| && order[i] == a && Spared(order, list, i))
     && SparedThroughout(n, After(n, list, events[0]), events[1..], a))
  }

  /** Over any run a silent neighbour at zero stays exactly when it is spared every time. */
  lemma {:induction false} SilentStaysIff(n: nat, list: Table, events: seq<Event>, a: Mac48Address)
    requires Legal(n, list, events) && a in list && list[a] == 0 && Beacon(a) !in events
    ensures a in Run(n, list, events) <==> SparedThroughout(n, list, events, a)
    decreases events
  {
    if events != [] {
      hide AfterTick, Spared;
      var next := After(n, list, events[0]);
      assert Beacon(a) !in events[1..];
      match events[0] {
        case Beacon(b) =>
          assert b != a;
          SilentStaysIff(n, next, events[1..], a);
        case Tick(order) =>
          var i :| 0 <= i < |order| && order[i] == a;
          SurvivesIff(order, list, i);
          if a in next {
            SilentStaysIff(n, next, events[1..], a);
          } else {
            GoneStaysGone(n, next, events[1..], a);
          }
      }
    }
  }

  lemma {:induction false} GoneStaysGone(n: nat, list: Table, events: seq<Event>, a: Mac48Address)
    requires Legal(n, list, events) && a !in list && Beacon(a) !in events
    ensures a !in Run(n, list, events)
    decreases events
  {
    if events != [] {
      GoneStaysGone(n, After(n, list, events[0]), events[1..], a);
    }
  }

  // ---------------------------------------------------------------- a neighbour that starves

  /** Neighbours 2j+1 and 2j+2 make up pair j; every pair falls silent for as long as N allows, is
      taken away at the next own beacon, and is heard again at once. */
  function Ascending(count: nat): (r: seq<Mac48Address>)
    requires count <= 0x1_0000_0000
    ensures |r| == count
  {
    seq(count, i requires 0 <= i < count => i)
  }

  function Counter(n: nat, s: nat, a: nat): nat
    requires s <= n
  {
    if a == 0 then 0
    else
      var j := (a - 1) / 2;
      if j >= s then j - s else j + n + 1 - s
  }

  /** Neighbour 0 and pairs 0 to n; pair `s` is at zero, and so is neighbour 0. */
  function Crowd(n: nat, s: nat): Table
    requires s <= n < 0x1_0000
  {
    map a: Mac48Address | a < 2 * n + 3 :: Counter(n, s, a)
  }

  function NextPair(n: nat, s: nat): nat {
    if s < n then s + 1 else 0
  }

  function Round(count: nat, pair: nat): seq<Event>
    requires count <= 0x2_0002 && pair < 0x1_0000
  {
    [Tick(Ascending(count)), Beacon(2 * pair + 1), Beacon(2 * pair + 2)]
  }

  function Rounds(n: nat, s: nat, r: nat): seq<Event>
    requires s <= n < 0x1_0000
    decreases r
  {
    if r == 0 then [] else Round(2 * n + 3, s) + Rounds(n, NextPair(n, s), r - 1)
  }

  lemma AscendingLists(list: Table, count: nat)
    requires count <= 0x1_0000_0000 && forall a: Mac48Address :: a in list <==> a < count
    ensures Lists(Ascending(count), list.Keys)
  {
    forall a: Mac48Address ensures a in Ascending(count) <==> a < count {
      if a < count { assert Ascending(count)[a] == a; }
    }
  }

  lemma {:induction false} CrowdExpires(n: nat, s: nat, k: nat)
    requires s <= n < 0x1_0000 && k <= 2 * n + 3
    ensures Expired(Ascending(2 * n + 3)[..k], Crowd(n, s)) ==
              (if k == 0 then [] else if k <= 2 * s + 1 then [0] else if k == 2 * s + 2 then [0, 2 * s + 1]
               else [0, 2 * s + 1, 2 * s + 2])
  {
    var order, list := Ascending(2 * n + 3), Crowd(n, s);
    if k > 0 {
      CrowdExpires(n, s, k - 1);
      ExpiredOneMore(order, list, k - 1);
      assert list[order[k - 1]] == Counter(n, s, k - 1);
    }
  }

  lemma {:induction false} CrowdAfterTick(n: nat, s: nat)
    requires s <= n < 0x1_0000
    ensures var order := Ascending(2 * n + 3);
            var next := AfterTick(order, Crowd(n, s));
            && Lists(order, Crowd(n, s).Keys)
            && (forall a :: a in next <==> a in Crowd(n, s) && a != 2 * s + 1 && a != 2 * s + 2)
            && forall a :: a in next ==> next[a] == Decreased(Crowd(n, s))[a]
  {
    hide Expired, AfterTick, Ascending, Lists, Decreased;
    var order := Ascending(2 * n + 3);
    AscendingLists(Crowd(n, s), 2 * n + 3);
    CrowdExpires(n, s, 2 * n + 3);
    assert order[..2 * n + 3] == order;
    assert Removed([0, 2 * s + 1, 2 * s + 2]) == [2 * s + 1, 2 * s + 2];
    TickFacts(order, Crowd(n, s));
  }

  lemma {:induction false} CrowdTick(n: nat, s: nat)
    requires s <= n < 0x1_0000
    ensures var order := Ascending(2 * n + 3);
            && Lists(order, Crowd(n, s).Keys)
            && AfterTick(order, Crowd(n, s))[2 * s + 1 := n][2 * s + 2 := n] == Crowd(n, NextPair(n, s))
  {
    hide Expired, AfterTick, Ascending, Counter;
    CrowdAfterTick(n, s);
    var next := AfterTick(Ascending(2 * n + 3), Crowd(n, s))[2 * s + 1 := n][2 * s + 2 := n];
    forall a | a in next ensures next[a] == Counter(n, NextPair(n, s), a) {
      CounterStep(n, s, a);
    }
  }

  lemma CounterStep(n: nat, s: nat, a: nat)
    requires s <= n && a < 2 * n + 3
    ensures Counter(n, NextPair(n, s), a) ==
              if a == 2 * s + 1 || a == 2 * s + 2 then n
              else if Counter(n, s, a) != 0 then Counter(n, s, a) - 1 else 0
  {
  }

  /** A round and what follows it. */
  lemma {:induction false} RoundThen(n: nat, list: Table, count: nat, pair: nat, rest: seq<Event>, next: Table)
    requires count <= 0x2_0002 && pair < 0x1_0000 && Lists(Ascending(count), list.Keys)
    requires next == AfterTick(Ascending(count), list)[2 * pair + 1 := n][2 * pair + 2 := n]
    requires Legal(n, next, rest)
    ensures var events := Round(count, pair) + rest;
            && Legal(n, list, events) && Run(n, list, events) == Run(n, next, rest)
            && TickCount(events) == 1 + TickCount(rest)
            && (Beacon(0) in events <==> Beacon(0) in rest)
  {
    hide AfterTick;
    var events := Round(count, pair) + rest;
    var first := AfterTick(Ascending(count), list);
    var second := first[2 * pair + 1 := n];
    var one := [Beacon(2 * pair + 2)] + rest;
    var two := [Beacon(2 * pair + 1)] + one;
    assert one[1..] == rest && two[1..] == one && events[1..] == two;
    assert Legal(n, second, one) && Run(n, second, one) == Run(n, next, rest) && TickCount(one) == TickCount(rest);
    assert Legal(n, first, two) && Run(n, first, two) == Run(n, next, rest) && TickCount(two) == TickCount(rest);
    assert events[0] == Tick(Ascending(count)) && After(n, list, events[0]) == first;
  }

  lemma {:induction false} RoundsKeepTheFirst(n: nat, s: nat, r: nat)
    requires s <= n < 0x1_0000
    ensures Legal(n, Crowd(n, s), Rounds(n, s, r)) && TickCount(Rounds(n, s, r)) == r
    ensures 0 in Run(n, Crowd(n, s), Rounds(n, s, r)) && Beacon(0) !in Rounds(n, s, r)
    decreases r
  {
    if r == 0 {
      assert Ascending(2 * n + 3)[0] == 0;
    } else {
      hide AfterTick, Lists, Round, Crowd;
      var t := NextPair(n, s);
      RoundsKeepTheFirst(n, t, r - 1);
      CrowdTick(n, s);
      RoundThen(n, Crowd(n, s), 2 * n + 3, s, Rounds(n, t, r - 1), Crowd(n, t));
    }
  }

  function GatheredCounter(n: nat, m: nat, a: nat): nat
    requires m <= n
  {
    if a == 0 then n - m else n - m + (a - 1) / 2
  }

  /** While the crowd assembles: pair `m` has just been heard, the others one own beacon apart. */
  function Gathered(n: nat, m: nat): Table
    requires m <= n < 0x1_0000
  {
    map a: Mac48Address | a < 2 * m + 3 :: GatheredCounter(n, m, a)
  }

  function Gathering(n: nat, m: nat, r: nat): seq<Event>
    requires m <= n < 0x1_0000
    decreases n - m
  {
    if m == n then Rounds(n, 0, r) else Round(2 * m + 3, m + 1) + Gathering(n, m + 1, r)
  }

  lemma {:induction false} GatheredTick(n: nat, m: nat)
    requires m < n < 0x1_0000
    ensures var order := Ascending(2 * m + 3);
            && Lists(order, Gathered(n, m).Keys)
            && AfterTick(order, Gathered(n, m))[2 * m + 3 := n][2 * m + 4 := n] == Gathered(n, m + 1)
  {
    hide Expired, AfterTick, Ascending, Lists;
    var order, list := Ascending(2 * m + 3), Gathered(n, m);
    AscendingLists(list, 2 * m + 3);
    NobodyExpires(order, list);
    TickFacts(order, list);
    var next := AfterTick(order, list)[2 * m + 3 := n][2 * m + 4 := n];
    forall a | a in next ensures next[a] == GatheredCounter(n, m + 1, a) {
      assert a < 2 * m + 3 ==> list[a] == GatheredCounter(n, m, a);
    }
  }

  lemma HasMember<T>(s: seq<T>)
    requires s != []
    ensures exists k :: 0 <= k < |s| && s[k] in s
  {
    assert s[0] in s;
  }

  lemma {:induction false} NobodyExpires(order: seq<Mac48Address>, list: Table)
    requires Lists(order, list.Keys) && forall a :: a in list ==> list[a] != 0
    ensures Expired(order, list) == []
  {
    ExpiredAreZeros(order, list);
    var e := Expired(order, list);
    if e != [] { HasMember(e); }
  }

  lemma {:induction false} GatheringKeepsTheFirst(n: nat, m: nat, r: nat)
    requires m <= n < 0x1_0000
    ensures Legal(n, Gathered(n, m), Gathering(n, m, r)) && TickCount(Gathering(n, m, r)) == n - m + r
    ensures 0 in Run(n, Gathered(n, m), Gathering(n, m, r)) && Beacon(0) !in Gathering(n, m, r)
    decreases n - m
  {
    if m == n {
      RoundsKeepTheFirst(n, 0, r);
      assert Gathered(n, n) == Crowd(n, 0);
    } else {
      hide AfterTick, Lists, Round, Gathered;
      GatheringKeepsTheFirst(n, m + 1, r);
      GatheredTick(n, m);
      RoundThen(n, Gathered(n, m), 2 * m + 3, m + 1, Gathering(n, m + 1, r), Gathered(n, m + 1));
    }
  }

  /** From the empty table: neighbour 0 is heard once and never again. */
  function Starving(n: nat, r: nat): seq<Event>
    requires n < 0x1_0000
  {
    [Beacon(0), Beacon(1), Beacon(2)] + Gathering(n, 0, r)
  }

  lemma FirstThree(n: nat)
    requires n < 0x1_0000
    ensures var empty: Table := map[]; empty[0 := n][1 := n][2 := n] == Gathered(n, 0)
  {
  }

  /** For every N: a neighbour heard once may stay in the table for any number of own beacons, if
      others keep expiring and coming back; the removal takes the last ones of the vector first. */
  lemma {:induction false} SilentNeighbourMayStay(n: nat, r: nat)
    requires n < 0x1_0000
    ensures var events := Starving(n, r);
            && Legal(n, map[], events) && TickCount(events) == n + r
            && events[0] == Beacon(0) && Beacon(0) !in events[1..]
            && 0 in Run(n, map[], events)
  {
    hide Gathering, AfterTick, Lists, Gathered;
    GatheringKeepsTheFirst(n, 0, r);
    FirstThree(n);
    var empty: Table := map[];
    var rest := Gathering(n, 0, r);
    var one := [Beacon(2)] + rest;
    var two := [Beacon(1)] + one;
    assert one[1..] == rest && two[1..] == one && Starving(n, r)[1..] == two;
    var second := empty[0 := n][1 := n];
    assert Legal(n, second, one) && Run(n, second, one) == Run(n, Gathered(n, 0), rest);
    assert Legal(n, empty[0 := n], two) && Run(n, empty[0 := n], two) == Run(n, Gathered(n, 0), rest);
    assert TickCount(two) == TickCount(one) == TickCount(rest);
  }
}
