/** Message framing over a byte stream: src/traci/socket.cpp.

The stream takes and delivers bytes in pieces of any size.  A faulty socket may report an error at
any call; when the peer has closed, a receive call on the drained stream fails.
*/
module TraciSocket {
  import opened Collections
  import opened WireFormat
  import opened TraciStorage

  const LENGTH_LEN := 4

  // ---------------------------------------------------------------- frames

  type Payload = p: Bytes | |p| < 0x8000_0000 - LENGTH_LEN

  function EncodeFrame(p: Payload): Bytes {
    EncodeInt(TRACI, LENGTH_LEN + |p|) + p
  }

  datatype Framed = Message(payload: Bytes, rest: Bytes) | Short | BadLength(rest: Bytes)

  /** What one receive finds at the head of the stream. */
  function Frame(bs: Bytes): Framed {
    match IntAt(TRACI, bs, 0)
    case Invalid(_) => Short
    case Read(totalLen, n) =>
      IntIff(TRACI, bs, 0, totalLen);
      if totalLen <= LENGTH_LEN then BadLength(bs[n..])
      else if |bs| < totalLen then Short
      else Message(bs[n..totalLen], bs[totalLen..])
  }

  function EncodeFrames(ps: seq<Payload>): Bytes {
    if ps == [] then [] else EncodeFrame(ps[0]) + EncodeFrames(ps[1..])
  }

  /** What `n` receives in a row return, and what they leave in the stream. */
  function Frames(n: nat, bs: Bytes): Option<(seq<Bytes>, Bytes)> {
    if n == 0 then Some(([], bs))
    else
      match Frame(bs)
      case Message(p, rest) =>
        (match Frames(n - 1, rest)
         case None => None
         case Some((ps, end)) => Some(([p] + ps, end)))
      case _ => None
  }

  /** Four bytes of length, which counts them too, most significant first, and then the payload. */
  lemma FrameLayout(p: Payload)
    ensures var f := EncodeFrame(p);
            && |f| == 4 + |p| && f[4..] == p
            && Word(f[0], f[1], f[2], f[3]) == 4 + |p|
  {
    PlaceValues(4 + |p|);
    hide InOrder;
  }

  /** A receive returns a payload exactly when the payload is not empty and its frame comes first. */
  lemma FrameIff(p: Payload, rest: Bytes, bs: Bytes)
    ensures Frame(bs) == Message(p, rest) <==> p != [] && bs == EncodeFrame(p) + rest
    ensures bs == EncodeFrame([]) + rest ==> Frame(bs) == BadLength(rest)
  {
    hide IntAt, EncodeInt;
    var len := LENGTH_LEN + |p|;
    IntIff(TRACI, bs, 0, len);
    IntIff(TRACI, bs, 0, LENGTH_LEN);
    if |bs| >= len {
      assert bs == bs[0..4] + bs[4..len] + bs[len..];
    }
  }

  lemma {:induction false} FramesOneMore(ps: seq<Payload>, bs: Bytes, tail: Bytes, end: Bytes)
    requires ps != [] && Frame(bs) == Message(ps[0], tail)
    ensures Frames(|ps|, bs) == Some((ps, end)) <==> Frames(|ps| - 1, tail) == Some((ps[1..], end))
  {
    hide Frame;
    var others := Frames(|ps| - 1, tail);
    if others.Some? {
      assert ([ps[0]] + others.value.0)[1..] == others.value.0;
      assert ps == [ps[0]] + ps[1..];
    }
  }

  /** Any list of payloads comes back unchanged and in order exactly when none of them is empty. */
  lemma {:induction false} FramesRoundTrip(ps: seq<Payload>, rest: Bytes)
    ensures Frames(|ps|, EncodeFrames(ps) + rest) == Some((ps, rest)) <==> [] !in ps
  {
    hide Frame, EncodeFrame;
    if ps == [] {
      assert EncodeFrames(ps) + rest == rest;
    } else {
      var tail := EncodeFrames(ps[1..]) + rest;
      var bs := EncodeFrames(ps) + rest;
      assert bs == EncodeFrame(ps[0]) + tail;
      FrameIff(ps[0], tail, bs);
      if ps[0] != [] {
        hide Frames, EncodeFrames;
        FramesRoundTrip(ps[1..], rest);
        FramesOneMore(ps, bs, tail, rest);
        assert [] in ps <==> [] in ps[1..];
      }
    }
  }

  // ---------------------------------------------------------------- the socket

  datatype Outcome = Done | SocketException | AssertionFails

  class Socket {
    /** Bytes the peer has sent and this side has not received yet. */
    var incoming: Bytes
    /** Bytes handed to the stream. */
    var outgoing: Bytes
    var open: bool
    const faulty: bool
    const hostIsBig: bool

    constructor (faulty: bool, hostIsBig: bool)
      ensures this.faulty == faulty && this.hostIsBig == hostIsBig
      ensures open && incoming == [] && outgoing == []
    {
      this.faulty, this.hostIsBig := faulty, hostIsBig;
      incoming, outgoing, open := [], [], true;
    }

    /** One send call of the operating system: it takes at least one byte or fails. */
    method SystemSend(bytes: Bytes) returns (bytesSent: int)
      requires bytes != []
      modifies this`outgoing
      ensures bytesSent < 0 ==> faulty && outgoing == old(outgoing)
      ensures bytesSent >= 0 ==> 0 < bytesSent <= |bytes| && outgoing == old(outgoing) + bytes[..bytesSent]
    {
      if faulty {
        bytesSent :| -1 <= bytesSent <= |bytes| && bytesSent != 0;
      } else {
        bytesSent :| 0 < bytesSent <= |bytes|;
      }
      if bytesSent > 0 {
        outgoing := outgoing + bytes[..bytesSent];
      }
    }

    method Send(buffer: Bytes) returns (outcome: Outcome)
      modifies this`outgoing
      ensures outcome == Done && open ==> outgoing == old(outgoing) + buffer
      ensures outcome == Done && !open ==> outgoing == old(outgoing)
      ensures outcome != Done ==> outcome == SocketException && faulty && open
      ensures outcome != Done ==> exists k :: 0 <= k < |buffer| && outgoing == old(outgoing) + buffer[..k]
    {
      if !open {
        return Done;
      }
      var numbytes := |buffer|;
      ghost var sent := 0;
      while numbytes > 0
        invariant 0 <= numbytes <= |buffer| && sent == |buffer| - numbytes
        invariant outgoing == old(outgoing) + buffer[..sent]
      {
        var bytesSent := SystemSend(buffer[|buffer| - numbytes..]);
        if bytesSent < 0 {
          return SocketException;
        }
        assert buffer[..sent] + buffer[sent..][..bytesSent] == buffer[..sent + bytesSent];
        numbytes := numbytes - bytesSent;
        sent := sent + bytesSent;
      }
      assert buffer[..sent] == buffer;
      return Done;
    }

    method SendExact(b: Storage) returns (outcome: Outcome)
      requires |b.store| < 0x8000_0000 - LENGTH_LEN
      modifies this`outgoing
      ensures outcome == Done && open ==> outgoing == old(outgoing) + EncodeFrame(b.store)
      ensures outcome == Done && !open ==> outgoing == old(outgoing)
      ensures outcome != Done ==> outcome == SocketException && faulty && open
    {
      var lengthStorage := new Storage(hostIsBig);
      lengthStorage.WriteInt(LENGTH_LEN + |b.store|);
      var msg := lengthStorage.store + b.store;
      assert msg == EncodeFrame(b.store);
      outcome := Send(msg);
    }

    /** One receive call: between one byte and `len` bytes, or a failure. */
    method RecvAndCheck(buffer: array<Byte>, offset: nat, len: nat) returns (bytesReceived: nat, outcome: Outcome)
      requires 0 < len && offset + len <= buffer.Length
      modifies this`incoming, buffer
      ensures outcome == Done ==> 0 < bytesReceived <= len && bytesReceived <= |old(incoming)|
      ensures outcome == Done ==> incoming == old(incoming)[bytesReceived..]
      ensures outcome == Done ==> buffer[..offset] == old(buffer[..offset])
      ensures outcome == Done ==> buffer[offset..offset + bytesReceived] == old(incoming)[..bytesReceived]
      ensures outcome != Done ==> outcome == SocketException && (faulty || !open || old(incoming) == [])
    {
      if !open || incoming == [] {
        return 0, SocketException;
      }
      if faulty {
        var fails :| fails || !fails;
        if fails {
          return 0, SocketException;
        }
      }
      bytesReceived :| 0 < bytesReceived <= len && bytesReceived <= |incoming|;
      CopyTo(incoming[..bytesReceived], buffer, offset);
      incoming := incoming[bytesReceived..];
      outcome := Done;
    }

    static method CopyTo(bytes: Bytes, buffer: array<Byte>, offset: nat)
      requires offset + |bytes| <= buffer.Length
      modifies buffer
      ensures buffer[..offset] == old(buffer[..offset])
      ensures buffer[offset..offset + |bytes|] == bytes
    {
      for i := 0 to |bytes|
        invariant buffer[..offset] == old(buffer[..offset])
        invariant buffer[offset..offset + i] == bytes[..i]
      {
        buffer[offset + i] := bytes[i];
      }
    }

    method ReceiveComplete(buffer: array<Byte>, offset: nat, len: nat) returns (outcome: Outcome)
      requires offset + len <= buffer.Length
      modifies this`incoming, buffer
      ensures outcome == Done ==> len <= |old(incoming)| && incoming == old(incoming)[len..]
      ensures outcome == Done ==> buffer[..offset] == old(buffer[..offset])
      ensures outcome == Done ==> buffer[offset..offset + len] == old(incoming)[..len]
      ensures outcome != Done ==> outcome == SocketException && (faulty || !open || |old(incoming)| < len)
    {
      var left, at := len, offset;
      ghost var done := 0;
      while left > 0
        invariant left >= 0 && done + left == len && at == offset + done && done <= |old(incoming)|
        invariant incoming == old(incoming)[done..]
        invariant buffer[..offset] == old(buffer[..offset])
        invariant buffer[offset..at] == old(incoming)[..done]
      {
        ghost var before := buffer[..at];
        var bytesReceived;
        bytesReceived, outcome := RecvAndCheck(buffer, at, left);
        if outcome != Done {
          return;
        }
        assert buffer[..offset] == before[..offset] && buffer[offset..at] == before[offset..at];
        assert buffer[offset..at + bytesReceived] == buffer[offset..at] + buffer[at..at + bytesReceived];
        assert old(incoming)[done..][..bytesReceived] == old(incoming)[done..done + bytesReceived];
        assert old(incoming)[..done] + old(incoming)[done..done + bytesReceived] ==
               old(incoming)[..done + bytesReceived];
        left, at, done := left - bytesReceived, at + bytesReceived, done + bytesReceived;
      }
      return Done;
    }

    /** The first four bytes, as a number. */
    method ReceiveLength() returns (totalLen: Int32, outcome: Outcome)
      modifies this`incoming
      ensures outcome == Done ==> IntAt(TRACI, old(incoming), 0) == Read(totalLen, LENGTH_LEN)
      ensures outcome == Done ==> LENGTH_LEN <= |old(incoming)| && incoming == old(incoming)[LENGTH_LEN..]
      ensures outcome != Done ==> outcome == SocketException && (faulty || !open || |old(incoming)| < LENGTH_LEN)
    {
      hide EncodeAll;
      totalLen := 0;
      var buffer := new Byte[LENGTH_LEN](i => 0);
      outcome := ReceiveComplete(buffer, 0, LENGTH_LEN);
      if outcome == Done {
        var lengthStorage := new Storage(hostIsBig);
        lengthStorage.WritePacket(buffer[..]);
        assert buffer[..] == buffer[0..LENGTH_LEN];
        SamePrefix(lengthStorage.store, old(incoming));
        hide IntAt;
        var total := lengthStorage.ReadInt();
        totalLen := total.value;
      }
    }

    /** One message, whatever the pieces the stream delivers it in. */
    method ReceiveExact(msg: Storage) returns (outcome: Outcome)
      requires msg.Valid()
      modifies this`incoming, msg
      ensures outcome == Done ==>
                Frame(old(incoming)).Message? && incoming == Frame(old(incoming)).rest &&
                msg.Valid() && msg.store == Frame(old(incoming)).payload && msg.iter == 0
      ensures outcome == AssertionFails ==> Frame(old(incoming)).BadLength?
      ensures outcome != Done ==> msg.Valid() && msg.store == old(msg.store)
      ensures outcome == SocketException ==> faulty || !open || Frame(old(incoming)).Short?
    {
      hide EncodeAll, IntAt;
      var totalLen;
      totalLen, outcome := ReceiveLength();
      if outcome != Done {
        IntIff(TRACI, old(incoming), 0, 0);
        return;
      }
      if totalLen <= LENGTH_LEN {
        return AssertionFails;
      }
      var buffer := new Byte[totalLen](i => 0);
      outcome := ReceiveComplete(buffer, LENGTH_LEN, totalLen - LENGTH_LEN);
      if outcome != Done {
        return;
      }
      msg.Reset();
      msg.WritePacket(buffer[LENGTH_LEN..totalLen]);
      return Done;
    }
  }

  /** The length is read from the first four bytes. */
  lemma SamePrefix(a: Bytes, b: Bytes)
    requires |b| >= 4 && a == b[..4]
    ensures IntAt(TRACI, a, 0) == IntAt(TRACI, b, 0) && IntAt(TRACI, a, 0).Read?
  {
    assert a[0..4] == b[0..4];
  }
}
