/** The On/Off traffic source of src/applications/model/onoff-application.cc.

The source alternates between on and off periods.  A send is scheduled for the time the next packet
will be full at the constant bit rate; cancelling it turns the bits earned so far into residual
bits.  Time is exact (`real`).  `Source` is the state as a value, with two accounting fields the
program does not have; the class below it updates the same state in place.
*/
module OnOffSource {
  import opened Collections

  datatype Config = Config(rate: nat, pktSize: nat, maxBytes: nat)

  predicate Sane(c: Config) {
    c.rate > 0 && c.pktSize > 0
  }

  datatype TimerKind = StartTimer | StopTimer

  datatype Timer = Timer(due: real, kind: TimerKind)

  /** `pendingTime` is the total time a send was pending, `cancels` how many sends were cancelled. */
  datatype Source = Source(
    now: real,
    residualBits: int,
    lastStartTime: real,
    totBytes: nat,
    sendEvent: Option<real>,
    startStopEvent: Option<Timer>,
    pendingTime: real,
    cancels: nat)

  const INITIAL := Source(0.0, 0, 0.0, 0, None, None, 0.0, 0)

  // ---------------------------------------------------------------- handlers

  /** Bits earned since the last start or send while a send is pending. */
  function InFlight(c: Config, s: Source): real {
    if s.sendEvent.Some? then c.rate as real * (s.now - s.lastStartTime) else 0.0
  }

  function Cancelled(c: Config, s: Source): Source {
    var t :=
      if s.sendEvent.Some? then
        s.(residualBits := s.residualBits + InFlight(c, s).Floor, cancels := s.cancels + 1)
      else s;
    t.(sendEvent := None, startStopEvent := None)
  }

  function Scheduled(c: Config, s: Source): Source
    requires Sane(c)
  {
    if c.maxBytes == 0 || s.totBytes < c.maxBytes then
      var bits := c.pktSize * 8 - s.residualBits;
      s.(sendEvent := Some(s.now + bits as real / c.rate as real))
    else
      Cancelled(c, s)
  }

  function Started(c: Config, s: Source, offInterval: real): Source {
    Cancelled(c, s).(startStopEvent := Some(Timer(s.now + offInterval, StartTimer)))
  }

  function Stopped(c: Config, s: Source): Source {
    Cancelled(c, s)
  }

  function SendingStarted(c: Config, s: Source, onInterval: real): Source
    requires Sane(c)
  {
    var expired := s.(startStopEvent := None, lastStartTime := s.now);
    Scheduled(c, expired).(startStopEvent := Some(Timer(s.now + onInterval, StopTimer)))
  }

  function SendingStopped(c: Config, s: Source, offInterval: real): Source {
    var expired := s.(startStopEvent := None);
    Cancelled(c, expired).(startStopEvent := Some(Timer(s.now + offInterval, StartTimer)))
  }

  function PacketSent(c: Config, s: Source): Source
    requires Sane(c)
  {
    var expired := s.(sendEvent := None);
    Scheduled(c, expired.(totBytes := s.totBytes + c.pktSize, lastStartTime := s.now, residualBits := 0))
  }

  function Advanced(s: Source, t: real): Source {
    s.(now := t, pendingTime := if s.sendEvent.Some? then s.pendingTime + (t - s.now) else s.pendingTime)
  }

  // ---------------------------------------------------------------- runs

  datatype Event =
    | Tick(t: real)
    | Start(offInterval: real)
    | Stop
    | FireStart(onInterval: real)
    | FireStop(offInterval: real)
    | FireSend

  /** When the simulator may take an event: time never passes a pending event, and a handler runs
      when its event is due.  Start and stop may come from outside at any time. */
  predicate Enabled(s: Source, e: Event) {
    match e
    case Tick(t) =>
      && s.now <= t
      && (s.sendEvent.Some? ==> t <= s.sendEvent.value)
      && (s.startStopEvent.Some? ==> t <= s.startStopEvent.value.due)
    case Start(off) => off >= 0.0
    case Stop => true
    case FireStart(on) => on >= 0.0 && s.startStopEvent == Some(Timer(s.now, StartTimer))
    case FireStop(off) => off >= 0.0 && s.startStopEvent == Some(Timer(s.now, StopTimer))
    case FireSend => s.sendEvent == Some(s.now)
  }

  function Handle(c: Config, s: Source, e: Event): Source
    requires Sane(c)
  {
    match e
    case Tick(t) => Advanced(s, t)
    case Start(off) => Started(c, s, off)
    case Stop => Stopped(c, s)
    case FireStart(on) => SendingStarted(c, s, on)
    case FireStop(off) => SendingStopped(c, s, off)
    case FireSend => PacketSent(c, s)
  }

  predicate EnabledRun(c: Config, s: Source, events: seq<Event>)
    requires Sane(c)
    decreases |events|
  {
    events == [] || (Enabled(s, events[0]) && EnabledRun(c, Handle(c, s, events[0]), events[1..]))
  }

  function Run(c: Config, s: Source, events: seq<Event>): Source
    requires Sane(c)
    decreases |events|
  {
    if events == [] then s else Run(c, Handle(c, s, events[0]), events[1..])
  }

  // ---------------------------------------------------------------- the invariant

  /** Bits earned by pending sends that no packet, residual bit or bit in flight accounts for. */
  function Drift(c: Config, s: Source): real {
    c.rate as real * s.pendingTime - (8 * s.totBytes + s.residualBits) as real - InFlight(c, s)
  }

  /** Residual bits never exceed a packet; the pending send is due exactly when the packet is
      full; each cancellation loses less than one bit and nothing else is lost or gained. */
  predicate Conserved(c: Config, s: Source)
  {
    && 0 <= s.residualBits <= 8 * c.pktSize
    && (s.sendEvent.Some? ==>
          && s.lastStartTime <= s.now <= s.sendEvent.value
          && c.rate as real * (s.sendEvent.value - s.lastStartTime) == (8 * c.pktSize - s.residualBits) as real
          && (s.startStopEvent.Some? ==> s.startStopEvent.value.kind == StopTimer)
          && (c.maxBytes != 0 ==> s.totBytes < c.maxBytes))
    && (c.maxBytes != 0 ==> s.totBytes < c.maxBytes + c.pktSize)
    && 0.0 <= Drift(c, s) <= s.cancels as real
    && (s.cancels > 0 ==> Drift(c, s) < s.cancels as real)
  }

  lemma InFlightIs(c: Config, s: Source)
    ensures s.sendEvent.Some? ==> InFlight(c, s) == c.rate as real * (s.now - s.lastStartTime)
  {
  }

  lemma InFlightBounded(c: Config, s: Source)
    requires Sane(c) && Conserved(c, s)
    ensures 0.0 <= InFlight(c, s)
    ensures s.sendEvent.Some? ==> InFlight(c, s) <= (8 * c.pktSize - s.residualBits) as real
  {
    if s.sendEvent.Some? {
      ScaleOrder(0.0, s.now - s.lastStartTime, c.rate as real);
      ScaleOrder(s.now - s.lastStartTime, s.sendEvent.value - s.lastStartTime, c.rate as real);
    }
  }

  lemma ScaleOrder(a: real, b: real, r: real)
    requires r >= 0.0 && a <= b
    ensures r * a <= r * b
  {
  }

  lemma CancelConserves(c: Config, s: Source)
    requires Sane(c) && Conserved(c, s)
    ensures Conserved(c, Cancelled(c, s))
  {
    InFlightBounded(c, s);
  }

  lemma QuotientTimes(r: real, x: real, b: real)
    requires r > 0.0
    ensures r * ((x + b / r) - x) == b
  {
  }

  lemma QuotientNotNegative(a: real, r: real)
    requires a >= 0.0 && r > 0.0
    ensures a / r >= 0.0
  {
  }

  lemma NothingEarned(r: real, t: real)
    requires t == 0.0
    ensures r * t == 0.0
  {
  }

  /** Scheduling a packet conserves when no send was pending and the start time is now. */
  lemma ScheduleConserves(c: Config, s: Source)
    requires Sane(c) && Conserved(c, s) && s.sendEvent == None && s.lastStartTime == s.now
    requires s.startStopEvent.Some? ==> s.startStopEvent.value.kind == StopTimer
    ensures Conserved(c, Scheduled(c, s))
  {
    if c.maxBytes == 0 || s.totBytes < c.maxBytes {
      var bits := (c.pktSize * 8 - s.residualBits) as real;
      var t := Scheduled(c, s);
      QuotientTimes(c.rate as real, s.now, bits);
      QuotientNotNegative(bits, c.rate as real);
      assert c.rate as real * (t.sendEvent.value - t.lastStartTime) == bits;
      InFlightIs(c, t);
      NothingEarned(c.rate as real, t.now - t.lastStartTime);
      assert Drift(c, t) == Drift(c, s) by { hide Scheduled; }
    } else {
      CancelConserves(c, s);
    }
  }

  lemma TickConserves(c: Config, s: Source, t: real)
    requires Sane(c) && Conserved(c, s) && Enabled(s, Tick(t))
    ensures Conserved(c, Advanced(s, t))
  {
    if s.sendEvent.Some? {
      Distribute(c.rate as real, s.pendingTime, t - s.now);
      Distribute(c.rate as real, s.now - s.lastStartTime, t - s.now);
      assert Drift(c, Advanced(s, t)) == Drift(c, s);
    }
  }

  lemma StartSendingConserves(c: Config, s: Source, on: real)
    requires Sane(c) && Conserved(c, s) && Enabled(s, FireStart(on))
    ensures Conserved(c, SendingStarted(c, s, on))
  {
    var expired := s.(startStopEvent := None, lastStartTime := s.now);
    assert s.sendEvent == None;
    assert Drift(c, expired) == Drift(c, s);
    ScheduleConserves(c, expired);
    SetTimerConserves(c, Scheduled(c, expired), s.now + on, StopTimer);
  }

  lemma SetTimerConserves(c: Config, s: Source, due: real, kind: TimerKind)
    requires Conserved(c, s) && (s.sendEvent.Some? ==> kind == StopTimer)
    ensures Conserved(c, s.(startStopEvent := Some(Timer(due, kind))))
  {
    hide InFlight;
    TimersDoNotMatter(c, s, Some(Timer(due, kind)));
  }

  /** A packet carries exactly the residual bits and the bits in flight when its event is due. */
  lemma SentBalances(c: Config, s: Source)
    requires Sane(c) && Conserved(c, s) && s.sendEvent == Some(s.now)
    ensures Conserved(c, s.(sendEvent := None, totBytes := s.totBytes + c.pktSize,
                           lastStartTime := s.now, residualBits := 0))
  {
    var sent := s.(sendEvent := None, totBytes := s.totBytes + c.pktSize, lastStartTime := s.now, residualBits := 0);
    assert InFlight(c, s) == (8 * c.pktSize - s.residualBits) as real;
    assert Drift(c, sent) == Drift(c, s);
  }

  lemma SendPacketConserves(c: Config, s: Source)
    requires Sane(c) && Conserved(c, s) && Enabled(s, FireSend)
    ensures Conserved(c, PacketSent(c, s))
  {
    SentBalances(c, s);
    ScheduleConserves(c, s.(sendEvent := None, totBytes := s.totBytes + c.pktSize,
                           lastStartTime := s.now, residualBits := 0));
  }

  /** Every event keeps the books balanced. */
  lemma HandleConserves(c: Config, s: Source, e: Event)
    requires Sane(c) && Conserved(c, s) && Enabled(s, e)
    ensures Conserved(c, Handle(c, s, e))
  {
    hide Conserved, Scheduled, InFlight;
    match e {
      case Tick(t) => TickConserves(c, s, t);
      case Start(off) =>
        CancelConserves(c, s);
        SetTimerConserves(c, Cancelled(c, s), s.now + off, StartTimer);
      case Stop => CancelConserves(c, s);
      case FireStart(on) => StartSendingConserves(c, s, on);
      case FireStop(off) =>
        ExpiredConserves(c, s);
        CancelConserves(c, s.(startStopEvent := None));
        SetTimerConserves(c, Cancelled(c, s.(startStopEvent := None)), s.now + off, StartTimer);
      case FireSend => SendPacketConserves(c, s);
    }
  }

  lemma ExpiredConserves(c: Config, s: Source)
    requires Conserved(c, s)
    ensures Conserved(c, s.(startStopEvent := None))
  {
    hide InFlight;
    TimersDoNotMatter(c, s, None);
  }

  lemma TimersDoNotMatter(c: Config, s: Source, timer: Option<Timer>)
    ensures InFlight(c, s.(startStopEvent := timer)) == InFlight(c, s)
  {
  }

  lemma Distribute(r: real, a: real, b: real)
    ensures r * (a + b) == r * a + r * b
  {
  }

  /** Conservation over every run, from the start of the simulation. */
  lemma {:induction false} RunConserves(c: Config, s: Source, events: seq<Event>)
    requires Sane(c) && Conserved(c, s) && EnabledRun(c, s, events)
    ensures Conserved(c, Run(c, s, events))
    decreases |events|
  {
    if events != [] {
      HandleConserves(c, s, events[0]);
      RunConserves(c, Handle(c, s, events[0]), events[1..]);
    }
  }

  /** Bits sent and bits earned: over any run the packets, residual bits and bits in flight make up
      the bit rate times the time a send was pending, up to less than one bit per cancellation. */
  lemma {:induction false} BitsAccountedFor(c: Config, events: seq<Event>)
    requires Sane(c) && EnabledRun(c, INITIAL, events)
    ensures var s := Run(c, INITIAL, events);
            && 0 <= s.residualBits <= 8 * c.pktSize
            && 0.0 <= Drift(c, s)
            && (if s.cancels == 0 then Drift(c, s) == 0.0 else Drift(c, s) < s.cancels as real)
            && (c.maxBytes != 0 ==> s.totBytes < c.maxBytes + c.pktSize)
  {
    assert Conserved(c, INITIAL) by {
      assert c.rate as real * 0.0 == 0.0;
    }
    RunConserves(c, INITIAL, events);
  }

  // ---------------------------------------------------------------- on and off periods

  /** The limit on bytes is reached. */
  predicate AllSent(c: Config, s: Source) {
    c.maxBytes != 0 && s.totBytes >= c.maxBytes
  }

  /** An on period is due to end after its interval, and its first packet when it is full; at the limit
      neither is scheduled but the end. */
  lemma OnPeriodBegins(c: Config, s: Source, on: real)
    requires Sane(c) && Conserved(c, s) && Enabled(s, FireStart(on))
    ensures var q := Handle(c, s, FireStart(on));
            && q.startStopEvent == Some(Timer(s.now + on, StopTimer))
            && (q.sendEvent.Some? <==> !AllSent(c, s))
            && (q.sendEvent.Some? ==>
                  c.rate as real * (q.sendEvent.value - s.now) == (8 * c.pktSize - s.residualBits) as real)
            && q.totBytes == s.totBytes && q.residualBits == s.residualBits && q.lastStartTime == s.now
  {
    QuotientTimes(c.rate as real, s.now, (c.pktSize * 8 - s.residualBits) as real);
  }

  /** An off period, begun by the timer or from outside, is due to end after its interval; no packet is
      scheduled, and the whole bits of an interrupted one are kept. */
  lemma OffPeriodBegins(c: Config, s: Source, off: real, e: Event)
    requires Sane(c) && Conserved(c, s) && Enabled(s, e) && (e == FireStop(off) || e == Start(off))
    ensures var q := Handle(c, s, e);
            && q.startStopEvent == Some(Timer(s.now + off, StartTimer)) && q.sendEvent == None
            && q.totBytes == s.totBytes && q.cancels == s.cancels + (if s.sendEvent.Some? then 1 else 0)
            && (s.sendEvent == None ==> q.residualBits == s.residualBits)
            && (s.sendEvent.Some? ==>
                  && q.residualBits as real <= s.residualBits as real + c.rate as real * (s.now - s.lastStartTime)
                  && s.residualBits as real + c.rate as real * (s.now - s.lastStartTime) <
                     (q.residualBits + 1) as real)
  {
  }

  lemma StopLeavesNothing(c: Config, s: Source)
    requires Sane(c)
    ensures var q := Handle(c, s, Stop);
            q.sendEvent == None && q.startStopEvent == None && q.totBytes == s.totBytes
  {
  }

  /** A packet that is due is sent, and the next one is due a whole packet later unless the limit is
      reached, which leaves nothing scheduled. */
  lemma PacketGoesOut(c: Config, s: Source)
    requires Sane(c) && Conserved(c, s) && Enabled(s, FireSend)
    ensures var q := Handle(c, s, FireSend);
            && q.totBytes == s.totBytes + c.pktSize && q.residualBits == 0 && q.lastStartTime == s.now
            && (q.sendEvent.Some? <==> !AllSent(c, q))
            && (q.sendEvent.Some? ==> c.rate as real * (q.sendEvent.value - s.now) == (8 * c.pktSize) as real)
            && q.startStopEvent == (if AllSent(c, q) then None else s.startStopEvent)
  {
    QuotientTimes(c.rate as real, s.now, (c.pktSize * 8) as real);
  }

  ghost predicate OnlySends(events: seq<Event>) {
    forall e :: e in events ==> e.Tick? || e.FireSend?
  }

  /** Whatever is sent meanwhile, an on period ends when its interval is over and not otherwise, unless
      the limit is reached. */
  lemma {:induction false} OnPeriodLasts(c: Config, s: Source, due: real, events: seq<Event>)
    requires Sane(c) && Conserved(c, s) && s.startStopEvent == Some(Timer(due, StopTimer))
    requires EnabledRun(c, s, events) && OnlySends(events)
    ensures var q := Run(c, s, events);
            && (q.startStopEvent == Some(Timer(due, StopTimer)) || (q.startStopEvent == None && AllSent(c, q)))
            && forall off :: Enabled(q, FireStop(off)) ==> q.now == due
    decreases |events|
  {
    if events != [] {
      var e, q := events[0], Handle(c, s, events[0]);
      assert e in events && forall x :: x in events[1..] ==> x in events;
      HandleConserves(c, s, e);
      if e.FireSend? { PacketGoesOut(c, s); }
      if q.startStopEvent == None {
        AllSentStays(c, q, events[1..]);
      } else {
        OnPeriodLasts(c, q, due, events[1..]);
      }
    }
  }

  /** With nothing scheduled only time passes. */
  lemma {:induction false} AllSentStays(c: Config, s: Source, events: seq<Event>)
    requires Sane(c) && AllSent(c, s) && s.startStopEvent == None && s.sendEvent == None
    requires EnabledRun(c, s, events) && OnlySends(events)
    ensures var q := Run(c, s, events);
            q.startStopEvent == None && q.sendEvent == None && q.totBytes == s.totBytes
    decreases |events|
  {
    if events != [] {
      assert events[0] in events && forall x :: x in events[1..] ==> x in events;
      AllSentStays(c, Handle(c, s, events[0]), events[1..]);
    }
  }

  /** During an off period nothing is sent, and it ends when its interval is over. */
  lemma {:induction false} OffPeriodLasts(c: Config, s: Source, due: real, events: seq<Event>)
    requires Sane(c) && s.startStopEvent == Some(Timer(due, StartTimer)) && s.sendEvent == None
    requires EnabledRun(c, s, events) && OnlySends(events)
    ensures var q := Run(c, s, events);
            && q.startStopEvent == Some(Timer(due, StartTimer)) && q.totBytes == s.totBytes
            && forall on :: Enabled(q, FireStart(on)) ==> q.now == due
    decreases |events|
  {
    if events != [] {
      assert events[0] in events && forall x :: x in events[1..] ==> x in events;
      OffPeriodLasts(c, Handle(c, s, events[0]), due, events[1..]);
    }
  }

  // ---------------------------------------------------------------- the class

  class OnOffApplication {
    const config: Config
    var residualBits: int
    var lastStartTime: real
    var totBytes: nat
    var sendEvent: Option<real>
    var startStopEvent: Option<Timer>
    var socketOpen: bool
    /** The simulator's clock, and the accounting fields of `Source`. */
    ghost var now: real
    ghost var pendingTime: real
    ghost var cancels: nat

    ghost function View(): Source
      reads this
    {
      Source(now, residualBits, lastStartTime, totBytes, sendEvent, startStopEvent, pendingTime, cancels)
    }

    ghost predicate Valid()
      reads this
    {
      Sane(config) && Conserved(config, View())
    }

    constructor (config: Config)
      requires Sane(config)
      ensures Valid() && this.config == config && View() == INITIAL
    {
      this.config := config;
      residualBits, lastStartTime, totBytes := 0, 0.0, 0;
      sendEvent, startStopEvent, socketOpen := None, None, false;
      now, pendingTime, cancels := 0.0, 0.0, 0;
      new;
      assert config.rate as real * 0.0 == 0.0;
    }

    /** Time passes; not part of the program. */
    ghost method Clock(t: real)
      requires Valid() && Enabled(View(), Tick(t))
      modifies this
      ensures Valid() && View() == Advanced(old(View()), t)
    {
      TickConserves(config, View(), t);
      if sendEvent.Some? { pendingTime := pendingTime + (t - now); }
      now := t;
    }

    method CancelEvents(time: real)
      requires Valid() && time == now
      modifies this
      ensures Valid() && View() == Cancelled(config, old(View()))
    {
      hide Conserved, InFlight;
      CancelConserves(config, View());
      InFlightIs(config, View());
      if sendEvent.Some? {
        var delta := time - lastStartTime;
        var bits := config.rate as real * delta;
        assert bits == InFlight(config, View());
        residualBits := residualBits + bits.Floor;
        cancels := cancels + 1;
      }
      sendEvent := None;
      startStopEvent := None;
    }

    method StartApplication(time: real, offInterval: real)
      requires Valid() && time == now && offInterval >= 0.0
      modifies this
      ensures Valid() && View() == Handle(config, old(View()), Start(offInterval))
    {
      HandleConserves(config, View(), Start(offInterval));
      if !socketOpen { socketOpen := true; }
      CancelEvents(time);
      startStopEvent := Some(Timer(time + offInterval, StartTimer));
    }

    method StopApplication(time: real)
      requires Valid() && time == now
      modifies this
      ensures Valid() && View() == Handle(config, old(View()), Stop)
    {
      CancelEvents(time);
      socketOpen := false;
    }

    method ScheduleNextTx(time: real)
      requires Valid() && time == now && sendEvent == None && lastStartTime == time
      requires startStopEvent.Some? ==> startStopEvent.value.kind == StopTimer
      modifies this
      ensures Valid() && View() == Scheduled(config, old(View()))
    {
      ScheduleConserves(config, View());
      if config.maxBytes == 0 || totBytes < config.maxBytes {
        var bits := config.pktSize * 8 - residualBits;
        assert bits >= 0;
        var nextTime := bits as real / config.rate as real;
        sendEvent := Some(time + nextTime);
      } else {
        StopApplication(time);
      }
    }

    method ScheduleStartEvent(time: real, offInterval: real)
      requires Valid() && sendEvent == None
      modifies this`startStopEvent
      ensures Valid() && startStopEvent == Some(Timer(time + offInterval, StartTimer))
    {
      SetTimerConserves(config, View(), time + offInterval, StartTimer);
      startStopEvent := Some(Timer(time + offInterval, StartTimer));
    }

    method StartSending(time: real, onInterval: real)
      requires Valid() && time == now && Enabled(View(), FireStart(onInterval))
      modifies this
      ensures Valid() && View() == Handle(config, old(View()), FireStart(onInterval))
    {
      HandleConserves(config, View(), FireStart(onInterval));
      startStopEvent := None;
      lastStartTime := time;
      assert Drift(config, View()) == Drift(config, old(View()));
      ScheduleNextTx(time);
      startStopEvent := Some(Timer(time + onInterval, StopTimer));
    }

    method StopSending(time: real, offInterval: real)
      requires Valid() && time == now && Enabled(View(), FireStop(offInterval))
      modifies this
      ensures Valid() && View() == Handle(config, old(View()), FireStop(offInterval))
    {
      HandleConserves(config, View(), FireStop(offInterval));
      ExpiredConserves(config, View());
      hide Conserved, Cancelled;
      startStopEvent := None;
      CancelEvents(time);
      ScheduleStartEvent(time, offInterval);
    }

    method SendPacket(time: real)
      requires Valid() && time == now && Enabled(View(), FireSend)
      modifies this
      ensures Valid() && View() == Handle(config, old(View()), FireSend)
      ensures totBytes == old(totBytes) + config.pktSize
    {
      HandleConserves(config, View(), FireSend);
      sendEvent := None;
      totBytes := totBytes + config.pktSize;
      lastStartTime := time;
      residualBits := 0;
      SentBalances(config, old(View()));
      ScheduleNextTx(time);
    }
  }
}
