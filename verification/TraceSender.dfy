/** A sender that plays a video trace: src/applications/model/udp-trace-client.cc.

A trace is a list of frames; a frame of type B is sent together with the frame before it.  Sending
one packet through the socket is recorded by its size.
*/
module TraceSender {

  type UInt32 = x: int | 0 <= x < 0x1_0000_0000
  type UInt16 = x: int | 0 <= x < 0x1_0000

  datatype TraceEntry = TraceEntry(timeToSend: UInt32, packetSize: UInt16, frameType: char)

  // ---------------------------------------------------------------- loading

  /** Absolute times become delays; a B frame has none and leaves the previous time as it is. */
  function Delays(trace: seq<TraceEntry>, prevTime: UInt32): (r: seq<TraceEntry>)
    ensures |r| == |trace|
  {
    if trace == [] then []
    else
      var e := trace[0];
      if e.frameType == 'B' then [e.(timeToSend := 0)] + Delays(trace[1..], prevTime)
      else [e.(timeToSend := (e.timeToSend - prevTime) % 0x1_0000_0000)] + Delays(trace[1..], e.timeToSend)
  }

  function Total(entries: seq<TraceEntry>): nat {
    if entries == [] then 0 else entries[0].timeToSend + Total(entries[1..])
  }

  /** The time of the last frame that is not of type B, or the time before the first. */
  function LastTime(trace: seq<TraceEntry>, prevTime: UInt32): UInt32 {
    if trace == [] then prevTime
    else LastTime(trace[1..], if trace[0].frameType == 'B' then prevTime else trace[0].timeToSend)
  }

  /** The times of the frames that are not of type B never go down. */
  predicate Ascending(trace: seq<TraceEntry>, prevTime: UInt32) {
    trace == [] ||
    (if trace[0].frameType == 'B' then Ascending(trace[1..], prevTime)
     else prevTime <= trace[0].timeToSend && Ascending(trace[1..], trace[0].timeToSend))
  }

  /** Up to every frame the delays add up to the time of the last frame that is not of type B,
      exactly when the times never go down; a step down costs a turn of the 32-bit counter. */
  lemma {:induction false} DelaysTelescope(trace: seq<TraceEntry>, prevTime: UInt32)
    ensures prevTime + Total(Delays(trace, prevTime)) >= LastTime(trace, prevTime)
    ensures (prevTime + Total(Delays(trace, prevTime)) - LastTime(trace, prevTime)) % 0x1_0000_0000 == 0
    ensures prevTime + Total(Delays(trace, prevTime)) == LastTime(trace, prevTime) <==> Ascending(trace, prevTime)
  {
    if trace != [] {
      var e := trace[0];
      DelaysTelescope(trace[1..], if e.frameType == 'B' then prevTime else e.timeToSend);
    }
  }

  /** The same for every beginning of the trace. */
  lemma {:induction false} DelaysOfPrefix(trace: seq<TraceEntry>, prevTime: UInt32, i: nat)
    requires i <= |trace|
    ensures Delays(trace, prevTime)[..i] == Delays(trace[..i], prevTime)
    ensures Ascending(trace, prevTime) ==>
              prevTime + Total(Delays(trace, prevTime)[..i]) == LastTime(trace[..i], prevTime)
  {
    if i > 0 {
      var e := trace[0];
      var next := if e.frameType == 'B' then prevTime else e.timeToSend;
      DelaysOfPrefix(trace[1..], next, i - 1);
      assert trace[..i] == [e] + trace[1..][..i - 1];
      var d := Delays(trace, prevTime);
      assert d[..i] == [d[0]] + d[1..][..i - 1];
    }
  }

  // ---------------------------------------------------------------- fragments

  function Fragments(size: nat, max: nat): seq<nat>
    requires max > 0
  {
    Repeat(max, size / max) + [size % max]
  }

  function Repeat(x: nat, n: nat): seq<nat> {
    if n == 0 then [] else Repeat(x, n - 1) + [x]
  }

  function Sum(s: seq<nat>): nat {
    if s == [] then 0 else Sum(s[..|s| - 1]) + s[|s| - 1]
  }

  function Times(x: nat, n: nat): nat { n * x }

  lemma OneMoreTime(x: nat, n: nat)
    requires n > 0
    ensures Times(x, n - 1) + x == Times(x, n)
    ensures Times(x, 0) == 0
  {
  }

  lemma {:induction false} RepeatFacts(x: nat, n: nat)
    ensures Sum(Repeat(x, n)) == Times(x, n) && |Repeat(x, n)| == n
    ensures forall f :: f in Repeat(x, n) ==> f == x
  {
    if n > 0 {
      RepeatFacts(x, n - 1);
      assert Repeat(x, n)[..n - 1] == Repeat(x, n - 1);
      OneMoreTime(x, n);
      hide Times;
    }
  }

  /** The fragments make up the frame and none is too big; there is always one more than full ones. */
  lemma FragmentsMakeTheFrame(size: nat, max: nat)
    requires max > 0
    ensures Sum(Fragments(size, max)) == size
    ensures |Fragments(size, max)| == size / max + 1
    ensures forall f :: f in Fragments(size, max) ==> f <= max
  {
    RepeatFacts(max, size / max);
    var fs := Fragments(size, max);
    assert fs[..|fs| - 1] == Repeat(max, size / max);
    assert Times(max, size / max) + size % max == size;
  }

  // ---------------------------------------------------------------- sending

  /** The frame reached from `start` in `k` steps around the trace. */
  function Position(start: nat, k: nat, n: nat): (p: nat)
    requires start < n
    ensures p < n
  {
    if k == 0 then start
    else
      var p := Position(start, k - 1, n);
      if p + 1 == n then 0 else p + 1
  }

  function WaitAt(entries: seq<TraceEntry>, start: nat, k: nat): UInt32
    requires start < |entries|
  {
    entries[Position(start, k, |entries|)].timeToSend
  }

  function FramesSent(entries: seq<TraceEntry>, max: nat, start: nat, k: nat): seq<nat>
    requires start < |entries| && max > 0
  {
    if k == 0 then []
    else FramesSent(entries, max, start, k - 1) +
           Fragments(entries[Position(start, k - 1, |entries|)].packetSize, max)
  }

  /** After `k` frames the sender stands before a frame with a delay, for the first time. */
  ghost predicate StopsAfter(entries: seq<TraceEntry>, start: nat, k: nat)
    requires start < |entries|
  {
    k >= 1 && WaitAt(entries, start, k) != 0 && forall j :: 1 <= j < k ==> WaitAt(entries, start, j) == 0
  }

  predicate SomeDelay(entries: seq<TraceEntry>) {
    exists i :: 0 <= i < |entries| && entries[i].timeToSend != 0
  }

  class UdpTraceClient {
    var entries: seq<TraceEntry>
    var currentEntry: nat
    var maxPacketSize: UInt16
    /** The sizes of the packets handed to the socket. */
    var sent: seq<nat>

    ghost predicate Valid()
      reads this
    {
      entries != [] ==> currentEntry < |entries|
    }

    constructor (maxPacketSize: UInt16)
      ensures Valid() && entries == [] && sent == [] && this.maxPacketSize == maxPacketSize
    {
      entries, currentEntry, sent := [], 0, [];
      this.maxPacketSize := maxPacketSize;
    }

    method LoadDefaultTrace(defaultEntries: seq<TraceEntry>)
      modifies this
      ensures Valid() && entries == old(entries) + Delays(defaultEntries, 0) && currentEntry == 0
      ensures sent == old(sent) && maxPacketSize == old(maxPacketSize)
    {
      var prevTime: UInt32 := 0;
      for i := 0 to |defaultEntries|
        invariant entries + Delays(defaultEntries[i..], prevTime) == old(entries) + Delays(defaultEntries, 0)
        invariant sent == old(sent) && maxPacketSize == old(maxPacketSize)
      {
        var entry := defaultEntries[i];
        assert defaultEntries[i..][1..] == defaultEntries[i + 1..];
        if entry.frameType == 'B' {
          entry := entry.(timeToSend := 0);
        } else {
          var tmp := entry.timeToSend;
          entry := entry.(timeToSend := (entry.timeToSend - prevTime) % 0x1_0000_0000);
          prevTime := tmp;
        }
        entries := entries + [entry];
      }
      currentEntry := 0;
    }

    method SendFrame(size: UInt16)
      requires maxPacketSize > 0
      modifies this`sent
      ensures sent == old(sent) + Fragments(size, maxPacketSize)
    {
      for i := 0 to size / maxPacketSize
        invariant sent == old(sent) + Repeat(maxPacketSize, i)
      {
        sent := sent + [maxPacketSize];
      }
      sent := sent + [size % maxPacketSize];
    }

    /** Sends frames until one has to wait; the result is the wait before the next call.  Without any
        delay in the trace the loop has no end. */
    method Send() returns (delay: UInt32)
      requires Valid() && entries != [] && maxPacketSize > 0
      requires SomeDelay(entries)
      modifies this`sent, this`currentEntry
      ensures Valid() && delay == entries[currentEntry].timeToSend && delay != 0
      ensures exists k :: 1 <= k <= |entries| && StopsAfter(entries, old(currentEntry), k) &&
                          currentEntry == Position(old(currentEntry), k, |entries|) &&
                          sent == old(sent) + FramesSent(entries, maxPacketSize, old(currentEntry), k)
    {
      hide Fragments;
      ghost var start, n := currentEntry, |entries|;
      ghost var lap := StopWithinLap(entries, start);
      ghost var k := 0;
      assert FramesSent(entries, maxPacketSize, start, 0) == [];
      SendFrame(entries[currentEntry].packetSize);
      NextAround(currentEntry, n);
      currentEntry := (currentEntry + 1) % |entries|;
      k := 1;
      while entries[currentEntry].timeToSend == 0
        invariant 1 <= k <= lap <= n && currentEntry == Position(start, k, n)
        invariant forall j :: 1 <= j < k ==> WaitAt(entries, start, j) == 0
        invariant sent == old(sent) + FramesSent(entries, maxPacketSize, start, k)
        decreases lap - k
      {
        assert WaitAt(entries, start, k) == 0;
        SendFrame(entries[currentEntry].packetSize);
        NextAround(currentEntry, n);
        currentEntry := (currentEntry + 1) % |entries|;
        k := k + 1;
      }
      assert StopsAfter(entries, start, k);
      delay := entries[currentEntry].timeToSend;
    }
  }

  lemma NextAround(p: nat, n: nat)
    requires p < n
    ensures (p + 1) % n == if p + 1 == n then 0 else p + 1
  {
  }

  lemma {:induction false} WithinOneLap(start: nat, k: nat, n: nat)
    requires start < n && k <= n
    ensures Position(start, k, n) == if start + k < n then start + k else start + k - n
  {
    if k > 0 { WithinOneLap(start, k - 1, n); }
  }

  /** Around the trace any number of times. */
  lemma {:induction false} PositionIs(start: nat, k: nat, n: nat)
    requires start < n
    ensures Position(start, k, n) == (start + k) % n
  {
    if k > 0 {
      PositionIs(start, k - 1, n);
      NextRemainder(start + k - 1, n);
    }
  }

  lemma NextRemainder(x: nat, n: nat)
    requires n > 0
    ensures (x + 1) % n == if x % n + 1 == n then 0 else x % n + 1
  {
    assert x == x / n * n + x % n;
    if x % n + 1 == n {
      assert x + 1 == (x / n + 1) * n + 0;
      RemainderUnique(x + 1, x / n + 1, 0, n);
    } else {
      assert x + 1 == x / n * n + (x % n + 1);
      RemainderUnique(x + 1, x / n, x % n + 1, n);
    }
  }

  lemma RemainderUnique(x: nat, q: nat, r: nat, n: nat)
    requires n > 0 && r < n && x == q * n + r
    ensures x % n == r
  {
    var d := x / n - q;
    assert x == x / n * n + x % n;
    assert d * n == r - x % n;
    WholeMultiple(d, n);
  }

  lemma WholeMultiple(d: int, n: int)
    requires n > 0
    ensures (d >= 1 ==> d * n >= n) && (d <= -1 ==> d * n <= -n)
  {
    if d >= 1 { assert (d - 1) * n >= 0; }
    if d <= -1 { assert (-1 - d) * n >= 0; }
  }

  /** The bytes of `k` frames from `start` on, around the trace. */
  function FrameBytes(entries: seq<TraceEntry>, start: nat, k: nat): nat
    requires entries != []
  {
    if k == 0 then 0 else FrameBytes(entries, start, k - 1) + entries[(start + k - 1) % |entries|].packetSize
  }

  /** Every byte of the frames passed is sent, and every packet but the last of a frame is full. */
  lemma {:induction false} EveryByteIsSent(entries: seq<TraceEntry>, max: nat, start: nat, k: nat)
    requires start < |entries| && max > 0
    ensures Sum(FramesSent(entries, max, start, k)) == FrameBytes(entries, start, k)
    ensures forall f :: f in FramesSent(entries, max, start, k) ==> f <= max
  {
    if k > 0 {
      EveryByteIsSent(entries, max, start, k - 1);
      PositionIs(start, k - 1, |entries|);
      var size := entries[(start + k - 1) % |entries|].packetSize;
      FragmentsMakeTheFrame(size, max);
      SumOfBoth(FramesSent(entries, max, start, k - 1), Fragments(size, max));
      hide Fragments;
    }
  }

  lemma {:induction false} SumOfBoth(a: seq<nat>, b: seq<nat>)
    ensures Sum(a + b) == Sum(a) + Sum(b)
  {
    if b == [] {
      assert a + b == a;
    } else {
      var front := b[..|b| - 1];
      SumOfBoth(a, front);
      assert (a + b)[..|a + b| - 1] == a + front;
    }
  }

  /** A frame with a delay is met within one lap. */
  lemma StopWithinLap(entries: seq<TraceEntry>, start: nat) returns (k: nat)
    requires start < |entries| && SomeDelay(entries)
    ensures 1 <= k <= |entries| && WaitAt(entries, start, k) != 0
  {
    var n := |entries|;
    var i :| 0 <= i < n && entries[i].timeToSend != 0;
    k := if i > start then i - start else i - start + n;
    WithinOneLap(start, k, n);
  }

  /** The loop ends exactly when some frame has a delay, and then within one lap. */
  lemma EndsIffSomeDelay(entries: seq<TraceEntry>, start: nat)
    requires start < |entries|
    ensures SomeDelay(entries) <==> exists k: nat :: StopsAfter(entries, start, k)
    ensures forall k: nat :: StopsAfter(entries, start, k) ==> k <= |entries|
  {
    if SomeDelay(entries) {
      var k := StopWithinLap(entries, start);
      FirstStop(entries, start, k);
    }
    forall k: nat | StopsAfter(entries, start, k)
      ensures k <= |entries| && SomeDelay(entries)
    {
      var p := Position(start, k, |entries|);
      assert entries[p].timeToSend != 0;
      var first := StopWithinLap(entries, start);
    }
  }

  lemma {:induction false} FirstStop(entries: seq<TraceEntry>, start: nat, k: nat)
    requires start < |entries| && k >= 1 && WaitAt(entries, start, k) != 0
    ensures exists j: nat :: j <= k && StopsAfter(entries, start, j)
  {
    if !StopsAfter(entries, start, k) {
      var j: nat :| 1 <= j < k && WaitAt(entries, start, j) != 0;
      FirstStop(entries, start, j);
    }
  }
}
