/** Packets the vehicles exchange: the builders and readers of src/ovnisPacket.cpp.

A packet is built in a buffer of a size computed beforehand.  The tag buffer of ns-3 refuses to
write past its end (its assertion is a precondition here) and writes integers least significant
byte first and doubles as they lie in memory.  A reader that runs out of bytes gives up.
*/
module OvnisPacket {
  import opened WireFormat

  class TagBuffer {
    const data: array<Byte>
    var current: nat
    const hostIsBig: bool
    ghost var written: seq<Field>

    ghost predicate Valid()
      reads this, data
    {
      current <= data.Length && data[..current] == EncodeAll(TagFormat(hostIsBig), written)
    }

    constructor (size: nat, hostIsBig: bool)
      ensures Valid() && fresh(data) && data.Length == size && current == 0 && written == []
      ensures this.hostIsBig == hostIsBig
    {
      data := new Byte[size](i => 0);
      current, written := 0, [];
      this.hostIsBig := hostIsBig;
    }

    /** A buffer to read the given bytes from. */
    constructor Over(bytes: Bytes, hostIsBig: bool)
      ensures fresh(data) && data[..] == bytes && current == 0 && this.hostIsBig == hostIsBig
    {
      data := new Byte[|bytes|](i requires 0 <= i < |bytes| => bytes[i]);
      current, written := 0, [];
      this.hostIsBig := hostIsBig;
    }

    method Write(bytes: Bytes)
      requires current + |bytes| <= data.Length
      modifies this`current, data
      ensures current == old(current) + |bytes| && data[..current] == old(data[..current]) + bytes
    {
      for i := 0 to |bytes|
        invariant current == old(current) + i
        invariant data[..current] == old(data[..current]) + bytes[..i]
      {
        data[current] := bytes[i];
        current := current + 1;
      }
    }

    method WriteU32(value: Int32)
      requires Valid() && current + 4 <= data.Length
      modifies this, data
      ensures Valid() && current == old(current) + 4 && written == old(written) + [Int(value)]
    {
      hide EncodeAll;
      Write(LittleEndian(Unsigned32(value), 4));
      written := written + [Int(value)];
      EncodeSnoc(TagFormat(hostIsBig), old(written), Int(value));
    }

    method WriteDouble(value: Double64)
      requires Valid() && current + 8 <= data.Length
      modifies this, data
      ensures Valid() && current == old(current) + 8 && written == old(written) + [Real(value)]
    {
      hide EncodeAll;
      Write(InOrder(hostIsBig, value, 8));
      written := written + [Real(value)];
      EncodeSnoc(TagFormat(hostIsBig), old(written), Real(value));
    }

    /** The source writes the length and the characters in two calls. */
    method WriteText(text: Text)
      requires Valid() && current + 4 + |text| <= data.Length
      modifies this, data
      ensures Valid() && current == old(current) + 4 + |text| && written == old(written) + [Str(text)]
    {
      hide EncodeAll;
      WriteU32(|text|);
      LengthThenText(TagFormat(hostIsBig), old(written), text);
      Write(text);
      written := old(written) + [Str(text)];
    }

    /** Copies the next bytes out, or fails where they are missing. */
    method ReadBytes(size: nat) returns (r: Read<Bytes>)
      requires current <= data.Length
      modifies this`current
      ensures r == BytesAt(data[..], old(current), size) && current == r.next && current <= data.Length
    {
      if data.Length - current < size {
        return Invalid(current);
      }
      var bytes: Bytes := [];
      for i := 0 to size
        invariant current == old(current) + i && bytes == data[..][old(current)..current]
      {
        bytes := bytes + [data[current]];
        current := current + 1;
      }
      r := Read(bytes, current);
    }

    method ReadU32() returns (r: Read<Int32>)
      requires current <= data.Length
      modifies this`current
      ensures r == IntAt(TagFormat(hostIsBig), data[..], old(current)) && current == r.next && current <= data.Length
    {
      PowersOf256();
      var bytes := ReadBytes(4);
      r := match bytes case Invalid(n) => Invalid(n) case Read(b, n) => Read(Signed32(LittleValue(b)), n);
    }

    method ReadDouble() returns (r: Read<Double64>)
      requires current <= data.Length
      modifies this`current
      ensures r == RealAt(TagFormat(hostIsBig), data[..], old(current)) && current == r.next && current <= data.Length
    {
      PowersOf256();
      var bytes := ReadBytes(8);
      r := match bytes case Invalid(n) => Invalid(n) case Read(b, n) => Read(FromOrder(hostIsBig, b), n);
    }

    method ReadString() returns (r: Read<Text>)
      requires current <= data.Length
      modifies this`current
      ensures r == TextAt(TagFormat(hostIsBig), data[..], old(current)) && current == r.next && current <= data.Length
    {
      hide IntAt;
      var size := ReadU32();
      if size.Invalid? || size.value < 0 {
        return Invalid(current);
      }
      var bytes := ReadBytes(size.value);
      r := match bytes case Invalid(n) => Invalid(n) case Read(b, n) => Read(b, n);
    }
  }

  lemma {:induction false} LengthThenText(fmt: Format, before: seq<Field>, text: Text)
    ensures EncodeAll(fmt, before + [Str(text)]) == EncodeAll(fmt, before + [Int(|text|)]) + text
  {
    hide EncodeAll, EncodeInt;
    EncodeSnoc(fmt, before, Str(text));
    EncodeSnoc(fmt, before, Int(|text|));
    assert EncodeAll(fmt, before) + (EncodeInt(fmt, |text|) + text) ==
           EncodeAll(fmt, before) + EncodeInt(fmt, |text|) + text;
  }

  function TagFormat(hostIsBig: bool): Format {
    Format(false, hostIsBig)
  }

  datatype Data = Data(edgeId: Text, travelTime: Double64, date: Double64)

  /** Sending time, sender, position and type. */
  datatype Envelope = Envelope(timeStamp: Double64, senderId: Text, x: Double64, y: Double64, typ: Int32)

  ghost function HeaderFields(totalSize: Int32, e: Envelope): seq<Field> {
    [Int(totalSize), Real(e.timeStamp), Real(e.x), Real(e.y), Str(e.senderId), Int(e.typ)]
  }

  /** A packet: total size, header and body. */
  ghost predicate IsPacket(hostIsBig: bool, packet: Bytes, e: Envelope, body: seq<Field>) {
    |packet| < 0x8000_0000 && packet == EncodeAll(TagFormat(hostIsBig), HeaderFields(|packet|, e) + body)
  }

  ghost function RecordFields(r: Data): seq<Field> {
    [Str(r.edgeId), Real(r.travelTime), Real(r.date)]
  }

  ghost function RecordsFields(records: seq<Data>): seq<Field> {
    if records == [] then [] else RecordFields(records[0]) + RecordsFields(records[1..])
  }

  /** Where the parts of a packet are. */
  lemma {:induction false} HeaderLayout(hostIsBig: bool, packet: Bytes, e: Envelope, body: seq<Field>)
    requires IsPacket(hostIsBig, packet, e, body)
    ensures var fmt, n := TagFormat(hostIsBig), |e.senderId|;
            && 36 + n <= |packet|
            && packet[..4] == InOrder(false, |packet|, 4)
            && packet[4..12] == InOrder(hostIsBig, e.timeStamp, 8)
            && packet[12..20] == InOrder(hostIsBig, e.x, 8) && packet[20..28] == InOrder(hostIsBig, e.y, 8)
            && packet[28..32] == InOrder(false, n, 4) && packet[32..32 + n] == e.senderId
            && packet[32 + n..36 + n] == InOrder(false, Unsigned32(e.typ), 4)
            && packet[36 + n..] == EncodeAll(fmt, body)
  {
    hide EncodeAll, InOrder;
    var fmt := TagFormat(hostIsBig);
    HeaderEncoded(fmt, |packet|, e);
    EncodeConcat(fmt, HeaderFields(|packet|, e), body);
    Sliced(packet, EncodeInt(fmt, |packet|), EncodeReal(fmt, e.timeStamp), EncodeReal(fmt, e.x), EncodeReal(fmt, e.y),
           EncodeInt(fmt, |e.senderId|), e.senderId, EncodeInt(fmt, e.typ), EncodeAll(fmt, body));
  }

  lemma {:induction false} HeaderEncoded(fmt: Format, totalSize: Int32, e: Envelope)
    ensures EncodeAll(fmt, HeaderFields(totalSize, e)) ==
              EncodeInt(fmt, totalSize) + EncodeReal(fmt, e.timeStamp) + EncodeReal(fmt, e.x) + EncodeReal(fmt, e.y) +
              EncodeInt(fmt, |e.senderId|) + e.senderId + EncodeInt(fmt, e.typ)
  {
    hide EncodeAll, EncodeInt, EncodeReal;
    var a, b, c, d := Int(totalSize), Real(e.timeStamp), Real(e.x), Real(e.y);
    var f, g := Str(e.senderId), Int(e.typ);
    EncodeNone(fmt);
    EncodeSnoc(fmt, [], a);
    EncodeSnoc(fmt, [a], b);
    EncodeSnoc(fmt, [a, b], c);
    EncodeSnoc(fmt, [a, b, c], d);
    EncodeSnoc(fmt, [a, b, c, d], f);
    EncodeSnoc(fmt, [a, b, c, d, f], g);
    assert [] + [a] == [a] && [a] + [b] == [a, b] && [a, b] + [c] == [a, b, c] && [a, b, c] + [d] == [a, b, c, d];
    assert [a, b, c, d] + [f] == [a, b, c, d, f] && [a, b, c, d, f] + [g] == HeaderFields(totalSize, e);
  }

  lemma Sliced(packet: Bytes, size: Bytes, time: Bytes, x: Bytes, y: Bytes, length: Bytes, sender: Bytes, typ: Bytes,
               body: Bytes)
    requires |size| == 4 && |time| == 8 && |x| == 8 && |y| == 8 && |length| == 4 && |typ| == 4
    requires packet == size + time + x + y + length + sender + typ + body
    ensures var n := |sender|;
            && 36 + n <= |packet| && packet[..4] == size && packet[4..12] == time && packet[12..20] == x
            && packet[20..28] == y && packet[28..32] == length && packet[32..32 + n] == sender
            && packet[32 + n..36 + n] == typ && packet[36 + n..] == body
  {
  }

  // ---------------------------------------------------------------- building

  method WriteHeader(tg: TagBuffer, totalSize: Int32, e: Envelope)
    requires tg.Valid() && tg.current == 0 && tg.written == []
    requires 36 + |e.senderId| <= tg.data.Length
    modifies tg, tg.data
    ensures tg.Valid() && tg.current == 36 + |e.senderId| && tg.written == HeaderFields(totalSize, e)
  {
    hide EncodeAll, TagBuffer.Valid;
    tg.WriteU32(totalSize);
    tg.WriteDouble(e.timeStamp);
    tg.WriteDouble(e.x);
    tg.WriteDouble(e.y);
    tg.WriteText(e.senderId);
    tg.WriteU32(e.typ);
  }

  method BuildPacket(hostIsBig: bool, e: Envelope, objectId: Text, objectValue: Double64) returns (p: Bytes)
    requires |e.senderId| + |objectId| < 0x7000_0000
    ensures IsPacket(hostIsBig, p, e, [Str(objectId), Real(objectValue)])
  {
    hide EncodeAll;
    var headerSize := 4 + 8 + 8 + 8 + 4 + |e.senderId| + 4;
    var messageSize := 4 + |objectId| + 8;
    var totalSize := headerSize + messageSize;
    var tg := new TagBuffer(totalSize, hostIsBig);
    WriteHeader(tg, totalSize, e);
    tg.WriteText(objectId);
    tg.WriteDouble(objectValue);
    p := tg.data[..];
    assert tg.written == HeaderFields(totalSize, e) + [Str(objectId), Real(objectValue)];
    assert p == tg.data[..tg.current];
  }

  method BuildChangedEdgePacket(hostIsBig: bool, e: Envelope, lastEdgeId: Text,
                                travelTime: Double64, currentEdgeId: Text)
    returns (p: Bytes)
    requires |e.senderId| + |lastEdgeId| + |currentEdgeId| < 0x7000_0000
    ensures IsPacket(hostIsBig, p, e, [Str(lastEdgeId), Real(travelTime), Str(currentEdgeId)])
  {
    hide EncodeAll;
    var headerSize := 4 + 8 + 8 + 8 + 4 + |e.senderId| + 4;
    var messageSize := 4 + |lastEdgeId| + 8 + 4 + |currentEdgeId|;
    var totalSize := headerSize + messageSize;
    var tg := new TagBuffer(totalSize, hostIsBig);
    WriteHeader(tg, totalSize, e);
    tg.WriteText(lastEdgeId);
    tg.WriteDouble(travelTime);
    tg.WriteText(currentEdgeId);
    p := tg.data[..];
    assert tg.written == HeaderFields(totalSize, e) + [Str(lastEdgeId), Real(travelTime), Str(currentEdgeId)];
    assert p == tg.data[..tg.current];
  }

  function NamesSize(records: seq<Data>): nat {
    if records == [] then 0 else NamesSize(records[..|records| - 1]) + |records[|records| - 1].edgeId|
  }

  method DataRecordSize(numberOfRecords: nat, records: seq<Data>) returns (dataRecordSize: nat)
    requires numberOfRecords <= |records|
    ensures dataRecordSize == 20 * numberOfRecords + NamesSize(records[..numberOfRecords])
  {
    dataRecordSize := numberOfRecords * (2 * 8 + 4);
    for i := 0 to numberOfRecords
      invariant dataRecordSize == 20 * numberOfRecords + NamesSize(records[..i])
    {
      dataRecordSize := dataRecordSize + |records[i].edgeId|;
      assert records[..i + 1][..i] == records[..i];
    }
  }

  /** The first `numberOfRecords` records, however many and however long they are. */
  method BuildTrafficInfoPacket(hostIsBig: bool, e: Envelope, numberOfRecords: nat, records: seq<Data>)
    returns (p: Bytes)
    requires numberOfRecords <= |records|
    requires |e.senderId| + 20 * numberOfRecords + NamesSize(records[..numberOfRecords]) < 0x7000_0000
    ensures IsPacket(hostIsBig, p, e, [Int(numberOfRecords)] + RecordsFields(records[..numberOfRecords]))
  {
    hide EncodeAll, RecordsFields, NamesSize;
    var dataRecordSize := DataRecordSize(numberOfRecords, records);
    var headerSize := 4 + 8 + 8 + 8 + 4 + |e.senderId| + 4;
    var messageSize := 4 + dataRecordSize;
    var totalSize := headerSize + messageSize;
    var tg := new TagBuffer(totalSize, hostIsBig);
    WriteHeader(tg, totalSize, e);
    tg.WriteU32(numberOfRecords);
    WriteRecords(tg, numberOfRecords, records);
    p := tg.data[..];
    assert HeaderFields(totalSize, e) + [Int(numberOfRecords)] + RecordsFields(records[..numberOfRecords]) ==
           HeaderFields(totalSize, e) + ([Int(numberOfRecords)] + RecordsFields(records[..numberOfRecords]));
    assert p == tg.data[..tg.current];
  }

  method WriteRecords(tg: TagBuffer, numberOfRecords: nat, records: seq<Data>)
    requires tg.Valid() && numberOfRecords <= |records|
    requires tg.current + 20 * numberOfRecords + NamesSize(records[..numberOfRecords]) <= tg.data.Length
    requires numberOfRecords < 0x8000_0000
    modifies tg, tg.data
    ensures tg.Valid() && tg.written == old(tg.written) + RecordsFields(records[..numberOfRecords])
    ensures tg.current == old(tg.current) + 20 * numberOfRecords + NamesSize(records[..numberOfRecords])
  {
    hide EncodeAll, TagBuffer.Valid, RecordFields, RecordsFields, NamesSize;
    NothingWritten(tg.written, records, numberOfRecords);
    ghost var all := tg.written + RecordsFields(records[..numberOfRecords]);
    for i := 0 to numberOfRecords
      invariant tg.Valid()
      invariant tg.written + RecordsFields(records[i..numberOfRecords]) == all
      invariant tg.current == old(tg.current) + 20 * i + NamesSize(records[..i])
    {
      NamesGrow(records, i + 1, numberOfRecords);
      OneMoreRecord(tg.written, records, i, numberOfRecords);
      WriteRecord(tg, records[i]);
    }
    EveryRecordWritten(tg.written, records, numberOfRecords);
  }

  lemma NothingWritten(written: seq<Field>, records: seq<Data>, n: nat)
    requires n <= |records|
    ensures written + RecordsFields(records[0..n]) == written + RecordsFields(records[..n])
    ensures NamesSize(records[..0]) == 0
  {
  }

  lemma EveryRecordWritten(written: seq<Field>, records: seq<Data>, n: nat)
    requires n <= |records|
    ensures written + RecordsFields(records[n..n]) == written
  {
    assert records[n..n] == [];
  }

  /** One turn of the loop: a record's fields move from what is to come to what is written. */
  lemma OneMoreRecord(written: seq<Field>, records: seq<Data>, i: nat, n: nat)
    requires i < n <= |records|
    ensures written + RecordsFields(records[i..n]) ==
              (written + RecordFields(records[i])) + RecordsFields(records[i + 1..n])
    ensures NamesSize(records[..i + 1]) == NamesSize(records[..i]) + |records[i].edgeId|
  {
    hide RecordFields;
    assert records[i..n][1..] == records[i + 1..n];
    assert records[..i + 1][..i] == records[..i];
  }

  method WriteRecord(tg: TagBuffer, record: Data)
    requires tg.Valid() && tg.current + 20 + |record.edgeId| <= tg.data.Length
    modifies tg, tg.data
    ensures tg.Valid() && tg.written == old(tg.written) + RecordFields(record)
    ensures tg.current == old(tg.current) + 20 + |record.edgeId|
  {
    hide EncodeAll, TagBuffer.Valid;
    tg.WriteText(record.edgeId);
    tg.WriteDouble(record.travelTime);
    tg.WriteDouble(record.date);
  }

  lemma {:induction false} NamesGrow(records: seq<Data>, i: nat, j: nat)
    requires i <= j <= |records|
    ensures NamesSize(records[..i]) <= NamesSize(records[..j])
    decreases j - i
  {
    if i < j {
      NamesGrow(records, i, j - 1);
      assert records[..j][..j - 1] == records[..j - 1];
    }
  }

  // ---------------------------------------------------------------- reading

  function EnvelopeAt(fmt: Format, bs: Bytes): Read<(Int32, Envelope)> {
    match IntAt(fmt, bs, 0)
    case Invalid(n) => Invalid(n)
    case Read(size, n) =>
      match RealAt(fmt, bs, n)
      case Invalid(n) => Invalid(n)
      case Read(t, n) =>
        match RealAt(fmt, bs, n)
        case Invalid(n) => Invalid(n)
        case Read(x, n) =>
          match RealAt(fmt, bs, n)
          case Invalid(n) => Invalid(n)
          case Read(y, n) => SenderAt(fmt, bs, n, size, t, x, y)
  }

  function SenderAt(fmt: Format, bs: Bytes, at: nat, size: Int32,
                    t: Double64, x: Double64, y: Double64): Read<(Int32, Envelope)> {
    match TextAt(fmt, bs, at)
    case Invalid(n) => Invalid(n)
    case Read(s, n) =>
      match IntAt(fmt, bs, n)
      case Invalid(n) => Invalid(n)
      case Read(typ, n) => Read((size, Envelope(t, s, x, y, typ)), n)
  }

  function FirstBytes(packet: Bytes, size: nat): Bytes {
    packet[..if size < |packet| then size else |packet|]
  }

  /** What the header part of a received packet says: the size is read first, then that many bytes
      are looked at, as far as the packet has them. */
  function HeaderOf(fmt: Format, packet: Bytes): Read<(Int32, Envelope)> {
    match IntAt(fmt, packet, 0)
    case Invalid(n) => Invalid(n)
    case Read(size, n) =>
      if size < 0 then Invalid(n)
      else EnvelopeAt(fmt, FirstBytes(packet, size))
  }

  function RecordsAt(fmt: Format, bs: Bytes, at: nat, count: nat): Read<seq<Data>>
    decreases count
  {
    if count == 0 then Read([], at)
    else
      match RecordAt(fmt, bs, at)
      case Invalid(n) => Invalid(n)
      case Read(r, n) =>
        match RecordsAt(fmt, bs, n, count - 1)
        case Invalid(m) => Invalid(m)
        case Read(rest, m) => Read([r] + rest, m)
  }

  function RecordAt(fmt: Format, bs: Bytes, at: nat): Read<Data> {
    match TextAt(fmt, bs, at)
    case Invalid(n) => Invalid(n)
    case Read(edgeId, n) =>
      match RealAt(fmt, bs, n)
      case Invalid(n) => Invalid(n)
      case Read(travelTime, n) =>
        match RealAt(fmt, bs, n)
        case Invalid(n) => Invalid(n)
        case Read(date, n) => Read(Data(edgeId, travelTime, date), n)
  }

  function TrafficInfoAt(fmt: Format, bs: Bytes, at: nat): Read<seq<Data>> {
    match IntAt(fmt, bs, at)
    case Invalid(n) => Invalid(n)
    case Read(count, n) => RecordsAt(fmt, bs, n, if count < 0 then 0 else count)
  }

  /** Every builder's packet gives back its sender, time, position and type, and then its body, and
      the size field is the length of the packet. */
  lemma {:induction false} PacketRoundTrip(hostIsBig: bool, packet: Bytes, e: Envelope, body: seq<Field>)
    requires IsPacket(hostIsBig, packet, e, body) && forall f :: f in body ==> !f.Raw?
    ensures var fmt := TagFormat(hostIsBig);
            && HeaderOf(fmt, packet) == Read((|packet|, e), 36 + |e.senderId|)
            && FieldsAt(fmt, Tags(body), packet, 36 + |e.senderId|) == Read(body, |packet|)
  {
    hide EncodeAll, Encode, Holds, IntAt, RealAt, TextAt, FieldsAt, Tags;
    var fmt := TagFormat(hostIsBig);
    EnvelopeIs(hostIsBig, packet, e, body);
    assert packet[..|packet|] == packet;
    FieldsRead(fmt, packet, 36 + |e.senderId|, body);
  }

  lemma {:induction false} EnvelopeIs(hostIsBig: bool, packet: Bytes, e: Envelope, body: seq<Field>)
    requires IsPacket(hostIsBig, packet, e, body)
    ensures var fmt := TagFormat(hostIsBig);
            && IntAt(fmt, packet, 0) == Read(|packet|, 4)
            && EnvelopeAt(fmt, packet) == Read((|packet|, e), 36 + |e.senderId|)
            && Holds(packet, 36 + |e.senderId|, EncodeAll(fmt, body))
            && |packet| == 36 + |e.senderId| + |EncodeAll(fmt, body)|
  {
    hide EncodeAll, Encode, Holds, IntAt, RealAt, TextAt;
    var fmt := TagFormat(hostIsBig);
    var end := [Str(e.senderId), Int(e.typ)] + body;
    var fs := HeaderFields(|packet|, e) + body;
    WholeHolds(packet);
    Peel(fmt, packet, 0, fs);
    assert fs[1..][1..] == fs[2..] && fs[2..][1..] == fs[3..] && fs[3..][1..] == end;
    Peel(fmt, packet, 4, fs[1..]);
    Peel(fmt, packet, 12, fs[2..]);
    Peel(fmt, packet, 20, fs[3..]);
    SenderIs(fmt, packet, |packet|, e, body);
    hide SenderAt;
  }

  lemma {:induction false} SenderIs(fmt: Format, bs: Bytes, size: Int32, e: Envelope, body: seq<Field>)
    requires Holds(bs, 28, EncodeAll(fmt, [Str(e.senderId), Int(e.typ)] + body))
    ensures SenderAt(fmt, bs, 28, size, e.timeStamp, e.x, e.y) == Read((size, e), 36 + |e.senderId|)
    ensures Holds(bs, 36 + |e.senderId|, EncodeAll(fmt, body))
    ensures |EncodeAll(fmt, [Str(e.senderId), Int(e.typ)] + body)| == 8 + |e.senderId| + |EncodeAll(fmt, body)|
  {
    hide EncodeAll, Encode, Holds, IntAt, RealAt, TextAt;
    var fs := [Str(e.senderId), Int(e.typ)] + body;
    Peel(fmt, bs, 28, fs);
    assert fs[1..][1..] == body;
    Peel(fmt, bs, 32 + |e.senderId|, fs[1..]);
  }

  lemma {:induction false} RecordsParsed(fmt: Format, bs: Bytes, at: nat, records: seq<Data>)
    requires Holds(bs, at, EncodeAll(fmt, RecordsFields(records)))
    ensures RecordsAt(fmt, bs, at, |records|) == Read(records, at + |EncodeAll(fmt, RecordsFields(records))|)
    decreases records
  {
    hide EncodeAll, Holds, RealAt, TextAt;
    if records == [] {
      EncodeNone(fmt);
    } else {
      var fs := RecordsFields(records);
      var n := at + 4 + |records[0].edgeId|;
      assert fs[1..][1..] == fs[2..] && fs[2..][1..] == RecordsFields(records[1..]);
      Peel(fmt, bs, at, fs);
      Peel(fmt, bs, n, fs[1..]);
      Peel(fmt, bs, n + 8, fs[2..]);
      RecordsParsed(fmt, bs, n + 16, records[1..]);
      assert [records[0]] + records[1..] == records;
    }
  }

  /** A traffic information packet gives back every record, in order. */
  lemma {:induction false} TrafficInfoRoundTrip(hostIsBig: bool, packet: Bytes, e: Envelope, records: seq<Data>)
    requires |records| < 0x8000_0000
    requires IsPacket(hostIsBig, packet, e, [Int(|records|)] + RecordsFields(records))
    ensures var fmt := TagFormat(hostIsBig);
            && HeaderOf(fmt, packet) == Read((|packet|, e), 36 + |e.senderId|)
            && TrafficInfoAt(fmt, packet, 36 + |e.senderId|) == Read(records, |packet|)
  {
    hide EncodeAll, Encode, Holds, IntAt, EnvelopeAt, RecordsAt, RecordsFields;
    var fmt := TagFormat(hostIsBig);
    var body := [Int(|records|)] + RecordsFields(records);
    EnvelopeIs(hostIsBig, packet, e, body);
    assert packet[..|packet|] == packet;
    Peel(fmt, packet, 36 + |e.senderId|, body);
    assert body[1..] == RecordsFields(records);
    RecordsParsed(fmt, packet, 40 + |e.senderId|, records);
  }

  class OvnisPacket {
    var envelope: Envelope
    var packetSize: Int32
    var tg: TagBuffer
    const hostIsBig: bool

    constructor (hostIsBig: bool)
      ensures this.hostIsBig == hostIsBig && fresh(tg) && fresh(tg.data)
    {
      this.hostIsBig := hostIsBig;
      envelope, packetSize := Envelope(0, [], 0, 0, 0), 0;
      tg := new TagBuffer(0, hostIsBig);
    }

    method ReadHeader(packet: Bytes) returns (ok: bool)
      modifies this
      ensures ok <==> HeaderOf(TagFormat(hostIsBig), packet).Read?
      ensures ok ==> HeaderOf(TagFormat(hostIsBig), packet) == Read((packetSize, envelope), tg.current)
      ensures ok ==> tg.hostIsBig == hostIsBig && tg.current <= tg.data.Length
      ensures ok ==> packetSize >= 0 && tg.data[..] == FirstBytes(packet, packetSize)
    {
      hide IntAt, EnvelopeAt;
      var fmt := TagFormat(hostIsBig);
      tg := new TagBuffer.Over(FirstBytes(packet, 4), hostIsBig);
      var size := tg.ReadU32();
      FirstFour(fmt, packet);
      if size.Invalid? || size.value < 0 {
        return false;
      }
      tg := new TagBuffer.Over(FirstBytes(packet, size.value), hostIsBig);
      ok := ReadEnvelope();
      if ok {
        SameSize(fmt, packet, size.value);
      }
    }

    method ReadEnvelope() returns (ok: bool)
      requires tg.current == 0 && tg.hostIsBig == hostIsBig
      modifies this`envelope, this`packetSize, tg`current
      ensures ok <==> EnvelopeAt(TagFormat(hostIsBig), tg.data[..]).Read?
      ensures ok ==> EnvelopeAt(TagFormat(hostIsBig), tg.data[..]) == Read((packetSize, envelope), tg.current)
      ensures tg.current <= tg.data.Length
    {
      hide IntAt, RealAt, TextAt;
      var size := tg.ReadU32();
      if size.Invalid? { return false; }
      packetSize := size.value;
      var timeStamp := tg.ReadDouble();
      if timeStamp.Invalid? { return false; }
      envelope := envelope.(timeStamp := timeStamp.value);
      var x := tg.ReadDouble();
      if x.Invalid? { return false; }
      envelope := envelope.(x := x.value);
      var y := tg.ReadDouble();
      if y.Invalid? { return false; }
      envelope := envelope.(y := y.value);
      var senderId := tg.ReadString();
      if senderId.Invalid? { return false; }
      envelope := envelope.(senderId := senderId.value);
      var typ := tg.ReadU32();
      if typ.Invalid? { return false; }
      envelope := envelope.(typ := typ.value);
      return true;
    }

    method ReadTrafficInfoPacket() returns (r: Read<seq<Data>>)
      requires tg.current <= tg.data.Length && tg.hostIsBig == hostIsBig
      modifies tg`current
      ensures r == TrafficInfoAt(TagFormat(hostIsBig), tg.data[..], old(tg.current))
    {
      hide IntAt, RealAt, TextAt;
      var fmt := TagFormat(hostIsBig);
      var numberOfRecords := tg.ReadU32();
      if numberOfRecords.Invalid? { return Invalid(numberOfRecords.next); }
      r := ReadRecords(if numberOfRecords.value < 0 then 0 else numberOfRecords.value);
    }

    method ReadRecords(n: nat) returns (r: Read<seq<Data>>)
      requires tg.current <= tg.data.Length && tg.hostIsBig == hostIsBig
      modifies tg`current
      ensures r == RecordsAt(TagFormat(hostIsBig), tg.data[..], old(tg.current), n)
    {
      hide RecordAt;
      ghost var fmt, bytes := TagFormat(hostIsBig), tg.data[..];
      ghost var all := RecordsAt(fmt, bytes, tg.current, n);
      var records: seq<Data> := [];
      assert all.Read? ==> [] + all.value == all.value;
      for i := 0 to n
        invariant tg.current <= tg.data.Length && tg.data[..] == bytes
        invariant all == Behind(records, RecordsAt(fmt, bytes, tg.current, n - i))
      {
        BehindOneMore(records, fmt, bytes, tg.current, n - i);
        var record := ReadRecord();
        if record.Invalid? { return Invalid(record.next); }
        records := records + [record.value];
      }
      assert records + [] == records;
      r := Read(records, tg.current);
    }

    method ReadRecord() returns (r: Read<Data>)
      requires tg.current <= tg.data.Length && tg.hostIsBig == hostIsBig
      modifies tg`current
      ensures r == RecordAt(TagFormat(hostIsBig), tg.data[..], old(tg.current))
      ensures tg.current <= tg.data.Length && (r.Read? ==> tg.current == r.next)
    {
      hide IntAt, RealAt, TextAt;
      var edgeId := tg.ReadString();
      if edgeId.Invalid? { return Invalid(edgeId.next); }
      var travelTime := tg.ReadDouble();
      if travelTime.Invalid? { return Invalid(travelTime.next); }
      var date := tg.ReadDouble();
      if date.Invalid? { return Invalid(date.next); }
      r := Read(Data(edgeId.value, travelTime.value, date.value), tg.current);
    }
  }

  lemma BehindOneMore(records: seq<Data>, fmt: Format, bs: Bytes, at: nat, n: nat)
    requires n > 0
    ensures Behind(records, RecordsAt(fmt, bs, at, n)) ==
              match RecordAt(fmt, bs, at)
              case Invalid(m) => Invalid(m)
              case Read(r, m) => Behind(records + [r], RecordsAt(fmt, bs, m, n - 1))
  {
    hide RecordAt;
    match RecordAt(fmt, bs, at)
    case Invalid(_) =>
    case Read(r, m) =>
      var more := RecordsAt(fmt, bs, m, n - 1);
      assert more.Read? ==> records + ([r] + more.value) == records + [r] + more.value;
  }

  /** More records behind the ones already read. */
  ghost function Behind(records: seq<Data>, more: Read<seq<Data>>): Read<seq<Data>> {
    match more
    case Invalid(m) => Invalid(m)
    case Read(rest, m) => Read(records + rest, m)
  }

  lemma FirstFour(fmt: Format, packet: Bytes)
    ensures var prefix := FirstBytes(packet, 4);
            IntAt(fmt, prefix, 0).Read? == IntAt(fmt, packet, 0).Read? &&
            (IntAt(fmt, packet, 0).Read? ==> IntAt(fmt, prefix, 0) == IntAt(fmt, packet, 0))
  {
    if |packet| >= 4 {
      assert FirstBytes(packet, 4)[0..4] == packet[0..4];
    } else {
      assert packet[..|packet|] == packet;
    }
  }

  /** The size is read twice, with the same result. */
  lemma SameSize(fmt: Format, packet: Bytes, size: nat)
    requires IntAt(fmt, packet, 0).Read? && IntAt(fmt, packet, 0).value == size
    requires EnvelopeAt(fmt, FirstBytes(packet, size)).Read?
    ensures EnvelopeAt(fmt, FirstBytes(packet, size)).value.0 == size
  {
    hide RealAt, TextAt;
    var prefix := FirstBytes(packet, size);
    if |prefix| >= 4 {
      assert prefix[0..4] == packet[0..4];
    }
  }
}
