/** The receive lock of src/devices/wifi/ovnis-wifi-phy.cc.

The PHY reacts to arriving packets, transmissions and channel changes, and keeps one cancellable
end-of-reception event.  `Phy` is its state as a value; the state helper of the simulator library,
whose code is not part of this model, is represented by its `rxing` flag and its four end times.
The accounting fields record what became of every packet that arrived.
*/
module PhyReceive {
  import opened Collections

  type Time = real

  datatype PhyMode = TX | RX | SWITCHING | CCA_BUSY | IDLE

  datatype EndEvent = EndEvent(due: Time, packet: nat)

  datatype Postponed = Postponed(due: Time, channel: nat)

  /** What became of a packet: dropped on arrival, locked (being received), or ended. */
  datatype Fate = Dropped | Locked | ReceivedOk | ReceivedWithError | CutByTransmission | CutBySwitch

  datatype Phy = Phy(
    now: Time,
    // the state helper
    rxing: bool,
    endTx: Time,
    endRx: Time,
    endSwitching: Time,
    endCcaBusy: Time,
    // the PHY's own fields
    channelNumber: nat,
    endRxEvent: Option<EndEvent>,
    // channel changes waiting for the end of a transmission, in the order they will run
    postponed: seq<Postponed>,
    // accounting
    arrived: nat,
    fate: map<nat, Fate>,
    lockTime: Time,
    lockChannel: nat,
    // channels set at time zero since the last lock
    retuned: seq<nat>)

  const INITIAL := Phy(0.0, false, 0.0, 0.0, 0.0, 0.0, 1, None, [], 0, map[], 0.0, 1, [])

  // ---------------------------------------------------------------- the state helper

  function GetState(p: Phy): PhyMode {
    if p.endTx > p.now then TX
    else if p.rxing then RX
    else if p.endSwitching > p.now then SWITCHING
    else if p.endCcaBusy > p.now then CCA_BUSY
    else IDLE
  }

  function GetDelayUntilIdle(p: Phy): Time {
    match GetState(p)
    case TX => p.endTx - p.now
    case RX => p.endRx - p.now
    case SWITCHING => p.endSwitching - p.now
    case CCA_BUSY => p.endCcaBusy - p.now
    case IDLE => 0.0
  }

  function Latest(a: Time, b: Time): Time { if a < b then b else a }

  function SwitchMaybeToCcaBusy(p: Phy, duration: Time): Phy {
    p.(endCcaBusy := Latest(p.endCcaBusy, p.now + duration))
  }

  function SwitchToRx(p: Phy, duration: Time): Phy {
    p.(rxing := true, endRx := p.now + duration)
  }

  function SwitchToTx(p: Phy, duration: Time): Phy {
    p.(rxing := false, endRx := if p.rxing then p.now else p.endRx, endTx := p.now + duration)
  }

  function SwitchToChannelSwitching(p: Phy, delay: Time): Phy {
    p.(rxing := false,
       endRx := if p.rxing then p.now else p.endRx,
       endCcaBusy := if p.now < p.endCcaBusy then p.now else p.endCcaBusy,
       endSwitching := p.now + delay)
  }

  // ---------------------------------------------------------------- handlers

  /** An arriving packet: how long it lasts, whether its power exceeds the detection threshold, and
      how long the interference helper says the medium stays busy. */
  datatype Arrival = Arrival(rxDuration: Time, aboveThreshold: bool, delayUntilCcaEnd: Time)

  function MaybeCcaBusy(p: Phy, delayUntilCcaEnd: Time): Phy {
    if delayUntilCcaEnd != 0.0 then SwitchMaybeToCcaBusy(p, delayUntilCcaEnd) else p
  }

  function Drop(p: Phy): Phy {
    p.(arrived := p.arrived + 1, fate := p.fate[p.arrived := Dropped])
  }

  function Lock(p: Phy, rxDuration: Time): Phy {
    SwitchToRx(p, rxDuration).(
      endRxEvent := Some(EndEvent(p.now + rxDuration, p.arrived)),
      arrived := p.arrived + 1,
      fate := p.fate[p.arrived := Locked],
      lockTime := p.now,
      lockChannel := p.channelNumber,
      retuned := [])
  }

  function AfterArrival(p: Phy, a: Arrival): Phy {
    var endRx := p.now + a.rxDuration;
    match GetState(p)
    case SWITCHING | RX | TX =>
      if endRx > p.now + GetDelayUntilIdle(p) then MaybeCcaBusy(Drop(p), a.delayUntilCcaEnd) else Drop(p)
    case CCA_BUSY | IDLE =>
      if a.aboveThreshold then Lock(p, a.rxDuration)
      else MaybeCcaBusy(Drop(p), a.delayUntilCcaEnd)
  }

  /** Cancelling the end-of-reception event ends the locked packet. */
  function CutReception(p: Phy, outcome: Fate): Phy {
    if p.endRxEvent.Some? then
      p.(endRxEvent := None, fate := p.fate[p.endRxEvent.value.packet := outcome])
    else p
  }

  function AfterSend(p: Phy, txDuration: Time): Phy {
    var q := if GetState(p) == RX then CutReception(p, CutByTransmission) else p;
    SwitchToTx(q, txDuration)
  }

  function SwitchChannel(p: Phy, nch: nat, delay: Time): Phy {
    SwitchToChannelSwitching(p, delay).(channelNumber := nch)
  }

  /** The effect of `SetChannelNumber`, called directly or as a postponed event.  Nothing cancels or
      replaces an event that is already postponed. */
  function AfterChannelRequest(p: Phy, nch: nat, delay: Time): Phy {
    if p.now == 0.0 then p.(channelNumber := nch, retuned := p.retuned + [nch])
    else
      match GetState(p)
      case RX => SwitchChannel(CutReception(p, CutBySwitch), nch, delay)
      case TX => p.(postponed := p.postponed + [Postponed(p.now + GetDelayUntilIdle(p), nch)])
      case CCA_BUSY | IDLE => SwitchChannel(p, nch, delay)
      case SWITCHING => p
  }

  /** The end-of-reception event runs; `ok` is the outcome of the error model. */
  function AfterEnd(p: Phy, ok: bool): Phy {
    if p.endRxEvent.Some? then
      p.(endRxEvent := None, rxing := false,
         fate := p.fate[p.endRxEvent.value.packet := if ok then ReceivedOk else ReceivedWithError])
    else p
  }

  // ---------------------------------------------------------------- interleavings

  datatype Event =
    | Tick(t: Time)
    | Arrive(a: Arrival)
    | Transmit(txDuration: Time)
    | RequestChannel(nch: nat, delay: Time)
    | FirePostponed(delay: Time)
    | FireEnd(ok: bool)

  function WithoutFirst(p: Phy): Phy
    requires p.postponed != []
  {
    p.(postponed := p.postponed[1..])
  }

  function Handle(p: Phy, e: Event): Phy {
    match e
    case Tick(t) => p.(now := t)
    case Arrive(a) => AfterArrival(p, a)
    case Transmit(d) => AfterSend(p, d)
    case RequestChannel(nch, delay) => AfterChannelRequest(p, nch, delay)
    case FirePostponed(delay) =>
      if p.postponed == [] then p
      else AfterChannelRequest(WithoutFirst(p), p.postponed[0].channel, delay)
    case FireEnd(ok) => AfterEnd(p, ok)
  }

  /** The simulator's side: time never passes a pending event, and events run when they are due, the
      postponed ones in the order in which they were scheduled.  Packets and delays have non-negative
      lengths. */
  predicate Possible(p: Phy, e: Event) {
    match e
    case Tick(t) =>
      && p.now <= t
      && (p.endRxEvent.Some? ==> t <= p.endRxEvent.value.due)
      && (forall w :: w in p.postponed ==> t <= w.due)
    case Arrive(a) => a.rxDuration >= 0.0 && a.delayUntilCcaEnd >= 0.0
    case Transmit(d) => d >= 0.0
    case RequestChannel(_, delay) => delay >= 0.0
    case FirePostponed(delay) => delay >= 0.0 && p.postponed != [] && p.postponed[0].due == p.now
    case FireEnd(_) => p.endRxEvent.Some? && p.endRxEvent.value.due == p.now
  }

  /** The callers' side: no transmission while transmitting or switching, and no channel change
      while switching or while one is still postponed. */
  predicate Permitted(p: Phy, e: Event) {
    match e
    case Transmit(_) => GetState(p) != TX && GetState(p) != SWITCHING
    case RequestChannel(_, _) => GetState(p) != SWITCHING && p.postponed == []
    case _ => true
  }

  /** The assertions the source makes when it handles an event. */
  predicate AssertionsHold(p: Phy, e: Event) {
    match e
    case Tick(_) => true
    case Arrive(a) =>
      (GetState(p) == CCA_BUSY || GetState(p) == IDLE) && a.aboveThreshold ==> p.endRxEvent == None
    case Transmit(_) => GetState(p) != TX && GetState(p) != SWITCHING
    case RequestChannel(_, _) => p.now != 0.0 ==> GetState(p) != SWITCHING
    case FirePostponed(_) => p.now != 0.0 ==> GetState(p) != SWITCHING
    case FireEnd(_) =>
      GetState(p) == RX && p.endRxEvent.Some? && p.endRxEvent.value.due == p.endRx == p.now
  }

  function Run(p: Phy, events: seq<Event>): Phy
    decreases |events|
  {
    if events == [] then p else Run(Handle(p, events[0]), events[1..])
  }

  predicate PermittedRun(p: Phy, events: seq<Event>)
    decreases |events|
  {
    events == [] ||
    (Possible(p, events[0]) && Permitted(p, events[0]) && PermittedRun(Handle(p, events[0]), events[1..]))
  }

  // ---------------------------------------------------------------- the invariant

  ghost predicate Ledger(p: Phy) {
    && (forall k :: k in p.fate <==> 0 <= k < p.arrived)
    && (forall k :: k in p.fate ==> (p.fate[k] == Locked <==> p.endRxEvent.Some? && p.endRxEvent.value.packet == k))
  }

  /** The channel a locked packet is received on by now. */
  function CurrentChannel(p: Phy): nat {
    if p.retuned == [] then p.lockChannel else p.retuned[|p.retuned| - 1]
  }

  /** A pending change is due at the end of the transmission, or now. */
  ghost predicate DueInTime(p: Phy) {
    forall w :: w in p.postponed ==> p.now <= w.due && (w.due == p.now || w.due <= p.endTx)
  }

  /** Receiving means exactly one pending end event, for the one locked packet; only what was asked
      for at time zero has changed its channel; and at most one change of channel is pending. */
  ghost predicate Consistent(p: Phy) {
    && p.now >= 0.0
    && (p.rxing <==> p.endRxEvent.Some?)
    && (p.rxing ==>
          && p.endRxEvent.value.due == p.endRx && p.now <= p.endRx
          && p.endRxEvent.value.packet < p.arrived
          && p.endTx <= p.now && p.endSwitching <= p.now
          && 0.0 <= p.lockTime <= p.now
          && p.channelNumber == CurrentChannel(p)
          && (p.lockTime > 0.0 ==> p.retuned == []))
    && (p.endTx > p.now ==> p.endSwitching <= p.now)
    && |p.postponed| <= 1 && DueInTime(p)
    && (p.postponed != [] ==> p.endSwitching <= p.now)
    && Ledger(p)
  }

  /** In a consistent state every possible and permitted event meets the source's assertions. */
  lemma AssertionsNeverFail(p: Phy, e: Event)
    requires Consistent(p) && Possible(p, e) && Permitted(p, e)
    ensures AssertionsHold(p, e)
  {
  }

  lemma ArrivalKeepsConsistent(p: Phy, a: Arrival)
    requires Consistent(p) && Possible(p, Arrive(a))
    ensures Consistent(AfterArrival(p, a))
  {
  }

  lemma CutKeepsLedger(p: Phy, outcome: Fate)
    requires Consistent(p) && p.endRxEvent.Some? && outcome != Locked
    ensures Ledger(CutReception(p, outcome)) && CutReception(p, outcome).endRxEvent == None
  {
  }

  lemma SendKeepsConsistent(p: Phy, d: Time)
    requires Consistent(p) && Possible(p, Transmit(d)) && Permitted(p, Transmit(d))
    ensures Consistent(AfterSend(p, d))
  {
    if GetState(p) == RX { CutKeepsLedger(p, CutByTransmission); }
  }

  lemma ChannelChangeKeepsConsistent(p: Phy, nch: nat, delay: Time)
    requires Consistent(p) && delay >= 0.0 && p.postponed == [] && (p.now == 0.0 || GetState(p) != SWITCHING)
    ensures Consistent(AfterChannelRequest(p, nch, delay))
  {
    if GetState(p) == RX { CutKeepsLedger(p, CutBySwitch); }
  }

  lemma EndKeepsConsistent(p: Phy, ok: bool)
    requires Consistent(p) && Possible(p, FireEnd(ok))
    ensures Consistent(AfterEnd(p, ok))
  {
  }

  /** Every interleaving keeps the receive lock consistent. */
  lemma HandleKeepsConsistent(p: Phy, e: Event)
    requires Consistent(p) && Possible(p, e) && Permitted(p, e)
    ensures Consistent(Handle(p, e))
  {
    match e {
      case Tick(t) =>
      case Arrive(a) => ArrivalKeepsConsistent(p, a);
      case Transmit(d) => SendKeepsConsistent(p, d);
      case RequestChannel(nch, delay) => ChannelChangeKeepsConsistent(p, nch, delay);
      case FirePostponed(delay) =>
        ChannelChangeKeepsConsistent(WithoutFirst(p), p.postponed[0].channel, delay);
      case FireEnd(ok) => EndKeepsConsistent(p, ok);
    }
  }

  // ---------------------------------------------------------------- what each handler does

  /** A packet is received exactly when it is strong enough and the radio is neither transmitting nor
      receiving nor switching; its end is then due after its own duration.  Any other is dropped, and
      makes the medium busy longer only if it outlasts what the radio is doing. */
  lemma ArrivalLocksIff(p: Phy, a: Arrival)
    requires Consistent(p) && Possible(p, Arrive(a))
    ensures var q := Handle(p, Arrive(a));
            var locks := a.aboveThreshold && p.endTx <= p.now && !p.rxing && p.endSwitching <= p.now;
            var end := p.now + a.rxDuration;
            var outlasts := (p.endTx > p.now ==> end > p.endTx) && (p.rxing ==> end > p.endRx) &&
                            (p.endSwitching > p.now ==> end > p.endSwitching);
            && q.arrived == p.arrived + 1
            && q.fate == p.fate[p.arrived := if locks then Locked else Dropped]
            && q.endRxEvent == (if locks then Some(EndEvent(end, p.arrived)) else p.endRxEvent)
            && (q.rxing <==> locks || p.rxing) && q.endRx == (if locks then end else p.endRx)
            && q.lockChannel == (if locks then p.channelNumber else p.lockChannel)
            && (q.endCcaBusy > p.now <==>
                  p.endCcaBusy > p.now || (!locks && outlasts && a.delayUntilCcaEnd > 0.0))
            && (q.endCcaBusy > p.endCcaBusy ==> !locks && q.endCcaBusy == p.now + a.delayUntilCcaEnd)
            && (!locks && outlasts && a.delayUntilCcaEnd > 0.0 ==> q.endCcaBusy >= p.now + a.delayUntilCcaEnd)
            && q.endCcaBusy >= p.endCcaBusy
            && (q.now, q.endTx, q.endSwitching, q.channelNumber, q.postponed) ==
               (p.now, p.endTx, p.endSwitching, p.channelNumber, p.postponed)
  {
  }

  /** A transmission lasts its duration; a packet being received is cut, any other keeps its fate. */
  lemma TransmissionCuts(p: Phy, d: Time)
    requires Consistent(p) && Possible(p, Transmit(d)) && Permitted(p, Transmit(d))
    ensures var q := Handle(p, Transmit(d));
            && q.endTx == p.now + d && !q.rxing && q.endRxEvent == None
            && q.endRx == (if p.rxing then p.now else p.endRx)
            && q.fate == (if p.rxing then p.fate[p.endRxEvent.value.packet := CutByTransmission] else p.fate)
            && (q.now, q.endSwitching, q.endCcaBusy, q.channelNumber, q.postponed, q.arrived) ==
               (p.now, p.endSwitching, p.endCcaBusy, p.channelNumber, p.postponed, p.arrived)
  {
  }

  /** A channel request at time zero takes effect at once; during a transmission it waits for its end;
      while switching it does nothing; otherwise the radio is on the new channel, deaf until the
      delay is over, and a packet being received is cut. */
  lemma RequestSwitches(p: Phy, nch: nat, delay: Time)
    requires Consistent(p)
    ensures var q := Handle(p, RequestChannel(nch, delay));
            if p.now == 0.0 then q == p.(channelNumber := nch, retuned := p.retuned + [nch])
            else if p.endTx > p.now then q == p.(postponed := p.postponed + [Postponed(p.endTx, nch)])
            else if p.endSwitching > p.now then q == p
            else
              && q.channelNumber == nch && q.endSwitching == p.now + delay
              && !q.rxing && q.endRxEvent == None && q.endRx == (if p.rxing then p.now else p.endRx)
              && q.endCcaBusy <= p.now && (p.endCcaBusy <= p.now ==> q.endCcaBusy == p.endCcaBusy)
              && q.fate == (if p.rxing then p.fate[p.endRxEvent.value.packet := CutBySwitch] else p.fate)
              && (q.now, q.endTx, q.postponed, q.arrived) == (p.now, p.endTx, p.postponed, p.arrived)
  {
  }

  /** What waits is the first request made, and running it is making it then. */
  lemma PostponedTakesEffect(p: Phy, nch: nat, delay: Time)
    requires Consistent(p) && p.now > 0.0 && p.endTx > p.now && p.postponed == [] && delay >= 0.0
    ensures var waiting := Handle(p, RequestChannel(nch, delay));
            var due := Handle(waiting, Tick(p.endTx));
            var q := Handle(due, FirePostponed(delay));
            && waiting.channelNumber == p.channelNumber
            && Possible(waiting, Tick(p.endTx)) && Possible(due, FirePostponed(delay))
            && q.channelNumber == nch && q.endSwitching == p.endTx + delay && q.postponed == []
  {
  }

  /** The end of a reception frees the radio and settles the fate of its packet alone. */
  lemma EndSettles(p: Phy, ok: bool)
    requires Consistent(p) && Possible(p, FireEnd(ok))
    ensures var q := Handle(p, FireEnd(ok));
            q == p.(endRxEvent := None, rxing := false,
                    fate := p.fate[p.endRxEvent.value.packet := if ok then ReceivedOk else ReceivedWithError])
  {
  }

  predicate Ended(f: Fate) {
    f != Locked
  }

  /** A fate is decided once: a dropped or ended packet keeps its fate, and a locked one goes from
      locked straight to one end. */
  lemma FateIsFinal(p: Phy, e: Event, k: nat)
    requires Consistent(p) && Possible(p, e) && Permitted(p, e) && k < p.arrived
    ensures k in p.fate && k in Handle(p, e).fate
    ensures Ended(p.fate[k]) ==> Handle(p, e).fate[k] == p.fate[k]
    ensures !Ended(p.fate[k]) ==> Handle(p, e).fate[k] != Dropped
  {
  }

  // ---------------------------------------------------------------- whole runs

  /** No packet is forgotten, an ended one keeps its fate, and a locked one is never dropped. */
  ghost predicate Follows(p: Phy, q: Phy) {
    && p.arrived <= q.arrived
    && forall k :: k in p.fate ==>
         && k in q.fate
         && (Ended(p.fate[k]) ==> q.fate[k] == p.fate[k])
         && (!Ended(p.fate[k]) ==> q.fate[k] != Dropped)
  }

  lemma HandleFollows(p: Phy, e: Event)
    requires Consistent(p) && Possible(p, e) && Permitted(p, e)
    ensures Follows(p, Handle(p, e))
  {
    forall k | k in p.fate
      ensures k in Handle(p, e).fate
      ensures Ended(p.fate[k]) ==> Handle(p, e).fate[k] == p.fate[k]
      ensures !Ended(p.fate[k]) ==> Handle(p, e).fate[k] != Dropped
    {
      FateIsFinal(p, e, k);
    }
  }

  lemma FollowsOn(p: Phy, q: Phy, r: Phy)
    requires Follows(p, q) && Follows(q, r)
    ensures Follows(p, r)
  {
  }

  /** Over any run the lock stays consistent and every fate stays decided. */
  lemma {:induction false} RunKeepsConsistent(p: Phy, events: seq<Event>)
    requires Consistent(p) && PermittedRun(p, events)
    ensures Consistent(Run(p, events)) && Follows(p, Run(p, events))
    decreases |events|
  {
    if events != [] {
      hide Handle, Consistent, Possible, Permitted, Follows;
      var q := Handle(p, events[0]);
      HandleKeepsConsistent(p, events[0]);
      HandleFollows(p, events[0]);
      RunKeepsConsistent(q, events[1..]);
      FollowsOn(p, q, Run(q, events[1..]));
    }
  }

  /** From the start of the simulation, whatever the interleaving: receiving and pending end event
      go together, no assertion of the source fails at the next event, and at most one packet is
      locked while every other one that arrived has exactly one final fate. */
  lemma {:induction false} ReceiveLockHolds(events: seq<Event>, e: Event)
    requires PermittedRun(INITIAL, events)
    ensures var p := Run(INITIAL, events);
            && (GetState(p) == RX <==> p.endRxEvent.Some?)
            && (Possible(p, e) && Permitted(p, e) ==> AssertionsHold(p, e))
            && (forall k: nat :: k < p.arrived ==> k in p.fate)
            && (forall k: nat :: k < p.arrived && p.fate[k] == Locked ==>
                  p.endRxEvent.Some? && p.endRxEvent.value.packet == k)
  {
    RunKeepsConsistent(INITIAL, events);
    var p := Run(INITIAL, events);
    if Possible(p, e) && Permitted(p, e) { AssertionsNeverFail(p, e); }
  }

  /** A packet received to its end was received on one channel exactly when no channel was set at
      time zero after it was locked, or the last one set was the one it was locked on; a packet locked
      after time zero always was. */
  lemma {:induction false} ReceivedOnOneChannelIff(events: seq<Event>, ok: bool)
    requires PermittedRun(INITIAL, events)
    requires Possible(Run(INITIAL, events), FireEnd(ok))
    ensures var p := Run(INITIAL, events);
            && (p.channelNumber == p.lockChannel <==>
                  p.retuned == [] || p.retuned[|p.retuned| - 1] == p.lockChannel)
            && (p.lockTime > 0.0 ==> p.retuned == [])
  {
    RunKeepsConsistent(INITIAL, events);
  }

  /** A packet locked at time zero may be received on a channel it was not sent on. */
  lemma RetunedAtTimeZero()
    ensures var events := [Arrive(Arrival(1.0, true, 0.0)), RequestChannel(5, 0.0), Tick(1.0)];
            var p := Run(INITIAL, events);
            PermittedRun(INITIAL, events) && Possible(p, FireEnd(true)) && p.channelNumber == 5 && p.lockChannel == 1
  {
    var locked := Handle(INITIAL, Arrive(Arrival(1.0, true, 0.0)));
    var retuned := Handle(locked, RequestChannel(5, 0.0));
    var end := Handle(retuned, Tick(1.0));
    assert Run(end, []) == end && PermittedRun(end, []);
    assert Run(retuned, [Tick(1.0)]) == end && PermittedRun(retuned, [Tick(1.0)]);
    var last := [RequestChannel(5, 0.0), Tick(1.0)];
    assert last[1..] == [Tick(1.0)];
    assert Run(locked, last) == end && PermittedRun(locked, last);
    var all := [Arrive(Arrival(1.0, true, 0.0)), RequestChannel(5, 0.0), Tick(1.0)];
    assert all[1..] == last;
  }

  // ---------------------------------------------------------------- a second channel request

  ghost predicate AssertionsHoldThroughout(p: Phy, events: seq<Event>)
    decreases |events|
  {
    events == [] ||
    (AssertionsHold(p, events[0]) && AssertionsHoldThroughout(Handle(p, events[0]), events[1..]))
  }

  /** A run that only the simulator and the MAC drive: no more requests, legal transmissions, and a
      change of channel that takes time. */
  ghost predicate WithoutRequests(p: Phy, events: seq<Event>)
    decreases |events|
  {
    events == [] ||
    (&& Possible(p, events[0])
     && !events[0].RequestChannel?
     && (events[0].Transmit? ==> Permitted(p, events[0]))
     && (events[0].FirePostponed? ==> events[0].delay > 0.0)
     && WithoutRequests(Handle(p, events[0]), events[1..]))
  }

  /** Two changes are pending, or one that is due while the radio switches. */
  ghost predicate Doomed(p: Phy) {
    && p.now > 0.0
    && (p.rxing <==> p.endRxEvent.Some?)
    && (|| (|p.postponed| >= 2 && p.endSwitching <= p.now && DueInTime(p))
        || (&& p.postponed != [] && p.endSwitching > p.now && p.endTx <= p.now && !p.rxing
            && forall w :: w in p.postponed ==> w.due == p.now))
  }

  lemma {:induction false} DoomedStaysDoomed(p: Phy, e: Event)
    requires Doomed(p) && WithoutRequests(p, [e]) && AssertionsHold(p, e)
    ensures Doomed(Handle(p, e))
  {
    assert p.postponed[0] in p.postponed;
    match e
    case Tick(t) =>
    case Arrive(_) =>
    case Transmit(_) =>
    case FirePostponed(delay) =>
      var q := WithoutFirst(p);
      assert forall w :: w in q.postponed ==> w in p.postponed;
      assert GetState(q) == GetState(p);
    case FireEnd(_) =>
  }

  lemma {:induction false} DoomedFails(p: Phy, events: seq<Event>)
    requires Doomed(p) && WithoutRequests(p, events) && Run(p, events).postponed == []
    ensures !AssertionsHoldThroughout(p, events)
    decreases |events|
  {
    hide Handle, Possible, Permitted, AssertionsHold, Doomed;
    DoomedWaits(p);
    if AssertionsHold(p, events[0]) {
      assert WithoutRequests(p, [events[0]]);
      DoomedStaysDoomed(p, events[0]);
      DoomedFails(Handle(p, events[0]), events[1..]);
    }
  }

  lemma DoomedWaits(p: Phy)
    requires Doomed(p)
    ensures p.postponed != []
  {
  }

  lemma {:induction false} PermittedRunsHold(p: Phy, events: seq<Event>)
    requires Consistent(p) && WithoutRequests(p, events)
    ensures AssertionsHoldThroughout(p, events)
    decreases |events|
  {
    if events != [] {
      AssertionsNeverFail(p, events[0]);
      HandleKeepsConsistent(p, events[0]);
      hide Handle, Possible, AssertionsHold, Consistent;
      PermittedRunsHold(Handle(p, events[0]), events[1..]);
    }
  }

  /** A change of channel asked for outside time zero leads to a failed assertion, once everything
      pending has run, exactly when the radio is switching or another change is already pending:
      during a transmission, at its end, or in any other state, whatever happens in between. */
  lemma {:induction false} RequestIsSafeIff(p: Phy, nch: nat, delay: Time, events: seq<Event>)
    requires Consistent(p) && p.now > 0.0 && delay > 0.0
    requires var q := Handle(p, RequestChannel(nch, delay));
             WithoutRequests(q, events) && Run(q, events).postponed == []
    ensures AssertionsHoldThroughout(p, [RequestChannel(nch, delay)] + events) <==>
              GetState(p) != SWITCHING && p.postponed == []
  {
    var e := RequestChannel(nch, delay);
    var q := Handle(p, e);
    assert ([e] + events)[1..] == events;
    if GetState(p) != SWITCHING {
      if p.postponed == [] {
        ChannelChangeKeepsConsistent(p, nch, delay);
        PermittedRunsHold(q, events);
      } else {
        SecondRequestDooms(p, nch, delay);
        DoomedFails(q, events);
      }
    }
  }

  /** In a transmission the second request joins the first; at its end it switches first. */
  lemma SecondRequestDooms(p: Phy, nch: nat, delay: Time)
    requires Consistent(p) && p.now > 0.0 && delay > 0.0 && p.postponed != []
    ensures Doomed(Handle(p, RequestChannel(nch, delay)))
    ensures GetState(p) == TX ==> |Handle(p, RequestChannel(nch, delay)).postponed| == 2
    ensures GetState(p) != TX ==> Handle(p, RequestChannel(nch, delay)).endSwitching > p.now
  {
    assert p.postponed[0] in p.postponed;
  }

  /** The ordinary failing case can always be completed: two requests during one transmission, and
      both changes run at its end. */
  lemma SecondRequestInTransmission(p: Phy, nch: nat, delay: Time)
    requires Consistent(p) && p.now > 0.0 && delay > 0.0 && GetState(p) == TX
    requires |p.postponed| == 1 && p.postponed[0].due == p.endTx
    ensures var q := Handle(p, RequestChannel(nch, delay));
            var events := [Tick(p.endTx), FirePostponed(delay), FirePostponed(delay)];
            && WithoutRequests(q, events) && Run(q, events).postponed == []
            && !AssertionsHoldThroughout(q, events)
  {
    var q := Handle(p, RequestChannel(nch, delay));
    var fire := FirePostponed(delay);
    var due := Handle(q, Tick(p.endTx));
    var switching := Handle(due, fire);
    var end := Handle(switching, fire);
    assert q.postponed == [p.postponed[0], Postponed(p.endTx, nch)];
    assert due.postponed == q.postponed && switching.postponed == due.postponed[1..];
    assert due.postponed[1..] == [Postponed(p.endTx, nch)] && end.postponed == [];
    assert [fire][1..] == [];
    assert WithoutRequests(end, []) && Run(end, []) == end;
    assert WithoutRequests(switching, [fire]) && Run(switching, [fire]) == end;
    assert [fire, fire][1..] == [fire];
    assert WithoutRequests(due, [fire, fire]) && Run(due, [fire, fire]) == end;
    var events := [Tick(p.endTx), fire, fire];
    assert events[1..] == [fire, fire];
    SecondRequestDooms(p, nch, delay);
    DoomedFails(q, events);
  }

  /** The same for a request made when the first change is due and has not run yet. */
  lemma SecondRequestAtTheEnd(p: Phy, nch: nat, delay: Time)
    requires Consistent(p) && p.now > 0.0 && delay > 0.0 && GetState(p) != TX && p.postponed != []
    ensures var q := Handle(p, RequestChannel(nch, delay));
            var events := [FirePostponed(delay)];
            && WithoutRequests(q, events) && Run(q, events).postponed == []
            && !AssertionsHoldThroughout(q, events)
  {
    assert p.postponed[0] in p.postponed;
    var q := Handle(p, RequestChannel(nch, delay));
    var end := Handle(q, FirePostponed(delay));
    assert WithoutRequests(end, []) && Run(end, []) == end;
    SecondRequestDooms(p, nch, delay);
    DoomedFails(q, [FirePostponed(delay)]);
  }

  // ---------------------------------------------------------------- the class

  class OvnisWifiPhy {
    // the simulator's clock
    var clock: Time
    // m_state
    var rxing: bool
    var endTx: Time
    var endRx: Time
    var endSwitching: Time
    var endCcaBusy: Time
    // the PHY's fields and its scheduled events
    var channelNumber: nat
    var endRxEvent: Option<EndEvent>
    var postponed: seq<Postponed>
    const channelSwitchDelay: Time
    // packets are numbered as they arrive; the rest is accounting
    var arrived: nat
    ghost var fate: map<nat, Fate>
    ghost var lockTime: Time
    ghost var lockChannel: nat
    ghost var retuned: seq<nat>

    ghost function View(): Phy
      reads this
    {
      Phy(clock, rxing, endTx, endRx, endSwitching, endCcaBusy, channelNumber, endRxEvent, postponed,
          arrived, fate, lockTime, lockChannel, retuned)
    }

    ghost predicate Valid()
      reads this
    {
      Consistent(View()) && channelSwitchDelay >= 0.0
    }

    constructor (channelSwitchDelay: Time)
      requires channelSwitchDelay >= 0.0
      ensures Valid() && View() == INITIAL && this.channelSwitchDelay == channelSwitchDelay
    {
      clock, rxing, endTx, endRx, endSwitching, endCcaBusy := 0.0, false, 0.0, 0.0, 0.0, 0.0;
      channelNumber, endRxEvent, postponed := 1, None, [];
      this.channelSwitchDelay := channelSwitchDelay;
      arrived, fate, lockTime, lockChannel, retuned := 0, map[], 0.0, 1, [];
    }

    method State() returns (mode: PhyMode)
      ensures mode == GetState(View())
    {
      if endTx > clock { return TX; }
      if rxing { return RX; }
      if endSwitching > clock { return SWITCHING; }
      if endCcaBusy > clock { return CCA_BUSY; }
      return IDLE;
    }

    method DelayUntilIdle() returns (delay: Time)
      ensures delay == GetDelayUntilIdle(View())
    {
      var mode := State();
      match mode {
        case TX => delay := endTx - clock;
        case RX => delay := endRx - clock;
        case SWITCHING => delay := endSwitching - clock;
        case CCA_BUSY => delay := endCcaBusy - clock;
        case IDLE => delay := 0.0;
      }
    }

    /** `NotifyRxDrop` for a packet that just arrived. */
    method NotifyDrop()
      modifies this`arrived, this`fate
      ensures View() == Drop(old(View()))
    {
      fate := fate[arrived := Dropped];
      arrived := arrived + 1;
    }

    method MaybeBusy(delayUntilCcaEnd: Time)
      modifies this`endCcaBusy
      ensures View() == MaybeCcaBusy(old(View()), delayUntilCcaEnd)
    {
      if delayUntilCcaEnd != 0.0 {
        if endCcaBusy < clock + delayUntilCcaEnd {
          endCcaBusy := clock + delayUntilCcaEnd;
        }
      }
    }

    /** `m_state->SwitchToRx (rxDuration)`. */
    method BeginRx(rxDuration: Time)
      modifies this`rxing, this`endRx
      ensures View() == SwitchToRx(old(View()), rxDuration)
    {
      rxing, endRx := true, clock + rxDuration;
    }

    /** The radio synchronises with the packet and schedules the end of its reception. */
    method SyncTo(rxDuration: Time)
      requires endRxEvent == None
      modifies this
      ensures View() == Lock(old(View()), rxDuration)
    {
      hide SwitchToRx;
      ghost var receiving := SwitchToRx(View(), rxDuration);
      BeginRx(rxDuration);
      endRxEvent, arrived := Some(EndEvent(clock + rxDuration, arrived)), arrived + 1;
      fate := fate[arrived - 1 := Locked];
      lockTime, lockChannel, retuned := clock, channelNumber, [];
      assert View() == receiving.(endRxEvent := endRxEvent, arrived := arrived, fate := fate,
                                  lockTime := lockTime, lockChannel := lockChannel, retuned := []);
    }

    method StartReceivePacket(a: Arrival)
      requires Valid() && Possible(View(), Arrive(a))
      modifies this
      ensures Valid() && View() == Handle(old(View()), Arrive(a))
    {
      HandleKeepsConsistent(View(), Arrive(a));
      AssertionsNeverFail(View(), Arrive(a));
      hide Consistent, GetState, GetDelayUntilIdle, Lock, Drop, MaybeCcaBusy;
      var end := clock + a.rxDuration;
      var mode := State();
      if mode == SWITCHING || mode == RX || mode == TX {
        var delay := DelayUntilIdle();
        NotifyDrop();
        if end > clock + delay {
          MaybeBusy(a.delayUntilCcaEnd);
        }
      } else if a.aboveThreshold {
        SyncTo(a.rxDuration);
      } else {
        NotifyDrop();
        MaybeBusy(a.delayUntilCcaEnd);
      }
    }

    /** `m_endRxEvent.Cancel()`. */
    method CancelEnd(ghost outcome: Fate)
      modifies this`endRxEvent, this`fate
      ensures View() == CutReception(old(View()), outcome)
    {
      if endRxEvent.Some? {
        fate := fate[endRxEvent.value.packet := outcome];
      }
      endRxEvent := None;
    }

    method SendPacket(txDuration: Time)
      requires Valid() && Possible(View(), Transmit(txDuration)) && Permitted(View(), Transmit(txDuration))
      modifies this
      ensures Valid() && View() == Handle(old(View()), Transmit(txDuration))
    {
      HandleKeepsConsistent(View(), Transmit(txDuration));
      var mode := State();
      assert mode != TX && mode != SWITCHING;
      if mode == RX {
        CancelEnd(CutByTransmission);
      }
      if rxing { endRx := clock; }
      rxing := false;
      endTx := clock + txDuration;
    }

    method SwitchToSwitching(nch: nat)
      modifies this
      ensures View() == SwitchChannel(old(View()), nch, channelSwitchDelay)
    {
      if rxing { endRx := clock; }
      rxing := false;
      if clock < endCcaBusy { endCcaBusy := clock; }
      endSwitching := clock + channelSwitchDelay;
      channelNumber := nch;
    }

    /** `ok` is false when an assertion of the source fails. */
    method SetChannelNumber(nch: nat) returns (ok: bool)
      modifies this
      ensures ok <==> AssertionsHold(old(View()), RequestChannel(nch, channelSwitchDelay))
      ensures View() == Handle(old(View()), RequestChannel(nch, channelSwitchDelay))
      ensures old(Valid()) && old(Permitted(View(), RequestChannel(nch, channelSwitchDelay))) ==> Valid() && ok
    {
      if Valid() && Permitted(View(), RequestChannel(nch, channelSwitchDelay)) {
        ChannelChangeKeepsConsistent(View(), nch, channelSwitchDelay);
      }
      hide Consistent;
      if clock == 0.0 {
        channelNumber, retuned := nch, retuned + [nch];
        return true;
      }
      var mode := State();
      if mode == SWITCHING {
        return false;
      }
      if mode == RX {
        CancelEnd(CutBySwitch);
        SwitchToSwitching(nch);
      } else if mode == TX {
        var delay := DelayUntilIdle();
        postponed := postponed + [Postponed(clock + delay, nch)];
      } else {
        SwitchToSwitching(nch);
      }
      return true;
    }

    /** The simulator runs the first postponed `SetChannelNumber`. */
    method RunPostponed() returns (ok: bool)
      requires Possible(View(), FirePostponed(channelSwitchDelay))
      modifies this
      ensures ok <==> AssertionsHold(old(View()), FirePostponed(channelSwitchDelay))
      ensures View() == Handle(old(View()), FirePostponed(channelSwitchDelay))
      ensures old(Valid()) ==> Valid() && ok
    {
      if Valid() {
        AssertionsNeverFail(View(), FirePostponed(channelSwitchDelay));
        HandleKeepsConsistent(View(), FirePostponed(channelSwitchDelay));
      }
      var nch := postponed[0].channel;
      postponed := postponed[1..];
      ok := SetChannelNumber(nch);
    }

    method EndReceive(ok: bool)
      requires Valid() && Possible(View(), FireEnd(ok))
      modifies this
      ensures Valid() && View() == Handle(old(View()), FireEnd(ok))
    {
      HandleKeepsConsistent(View(), FireEnd(ok));
      AssertionsNeverFail(View(), FireEnd(ok));
      var mode := State();
      assert mode == RX;
      assert endRxEvent.value.due == clock;
      fate := fate[endRxEvent.value.packet := if ok then ReceivedOk else ReceivedWithError];
      endRxEvent := None;
      rxing := false;
    }
  }
}
