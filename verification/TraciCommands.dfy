/** Commands sent to the traffic simulator: the header of src/traci/protocol/command.cpp and the
encoders of src/traci/query/.

A command is a header followed by a body.  The header carries the size of the whole command, which
the encoders compute before they write the body.  A null command stands for a thrown exception.
*/
module TraciCommands {
  import opened WireFormat
  import opened TraciStorage

  const COMMAND_HEADER_SIZE := 2
  const COMMAND_HEADER_EXTENDED_SIZE := 6

  // SUMO's TraCI constants
  const TYPE_INTEGER: Byte := 0x09
  const TYPE_DOUBLE: Byte := 0x0B
  const TYPE_COMPOUND: Byte := 0x0F
  const VAR_MAXSPEED: Byte := 0x41
  const CMD_SIMSTEP2 := 0x02

  predicate IsByte(x: int) { 0 <= x <= 255 }

  /** The command fits the integer type its size is kept in. */
  ghost predicate Fits(body: seq<Field>) {
    |EncodeAll(TRACI, body)| < 0x8000_0000 - COMMAND_HEADER_EXTENDED_SIZE
  }

  ghost function Header(id: Byte, size: Int32): seq<Field> {
    [UByte(0), Int(size), UByte(id)]
  }

  ghost function Extended(id: Byte, body: seq<Field>): seq<Field>
    requires Fits(body)
  {
    Header(id, COMMAND_HEADER_EXTENDED_SIZE + |EncodeAll(TRACI, body)|) + body
  }

  /** A whole command: its length field is its length, and a decoder that knows the shape of the
      body recovers the identifier and every field, and nothing follows. */
  lemma CommandIsWellFormed(id: Byte, body: seq<Field>)
    requires Fits(body) && forall f :: f in body ==> !f.Raw?
    ensures var bytes := EncodeAll(TRACI, Extended(id, body));
            && ByteAt(bytes, 0) == Read(0, 1)
            && IntAt(TRACI, bytes, 1) == Read(|bytes|, 5)
            && FieldsAt(TRACI, Tags(Extended(id, body)), bytes, 0) == Read(Extended(id, body), |bytes|)
  {
    hide EncodeAll, Encode, Tags, FieldsAt, Holds;
    var fs := Extended(id, body);
    var bytes := EncodeAll(TRACI, fs);
    WholeHolds(bytes);
    FieldsRead(TRACI, bytes, 0, fs);
    HeaderSize(id, COMMAND_HEADER_EXTENDED_SIZE + |EncodeAll(TRACI, body)|);
    EncodeConcat(TRACI, Header(id, COMMAND_HEADER_EXTENDED_SIZE + |EncodeAll(TRACI, body)|), body);
    Peel(TRACI, bytes, 0, fs);
    Peel(TRACI, bytes, 1, fs[1..]);
  }

  lemma HeaderSize(id: Byte, size: Int32)
    ensures |EncodeAll(TRACI, Header(id, size))| == COMMAND_HEADER_EXTENDED_SIZE
  {
    EncodeSnoc(TRACI, [], UByte(0));
    EncodeSnoc(TRACI, [UByte(0)], Int(size));
    EncodeSnoc(TRACI, [UByte(0), Int(size)], UByte(id));
    assert [] + [UByte(0)] == [UByte(0)];
    assert [UByte(0)] + [Int(size)] == [UByte(0), Int(size)];
    assert [UByte(0), Int(size)] + [UByte(id)] == Header(id, size);
  }

  class Command {
    const id: int
    const content: Storage
    const headerSize: int
    const isExtended: bool

    /** The source throws for an identifier over 255. */
    constructor (id: int, isExtended: bool, hostIsBig: bool)
      requires id <= 255
      ensures this.id == id && this.isExtended == isExtended
      ensures headerSize == if isExtended then COMMAND_HEADER_EXTENDED_SIZE else COMMAND_HEADER_SIZE
      ensures fresh(content) && content.Valid() && content.written == [] && content.store == []
    {
      this.id, this.isExtended := id, isExtended;
      headerSize := if isExtended then COMMAND_HEADER_EXTENDED_SIZE else COMMAND_HEADER_SIZE;
      content := new Storage(hostIsBig);
    }

    ghost predicate IsHeader(fs: seq<Field>, contentSize: int) {
      && IsByte(id)
      && (isExtended ==> -0x8000_0000 <= 6 + contentSize < 0x8000_0000 && fs == Header(id, 6 + contentSize))
      && (!isExtended ==> IsByte(2 + contentSize) && fs == [UByte(2 + contentSize), UByte(id)])
    }

    /** A short header has room for a command of at most 255 bytes. */
    method WriteHeader(contentSize: int) returns (ok: bool)
      requires content.Valid() && content.written == []
      requires headerSize == if isExtended then COMMAND_HEADER_EXTENDED_SIZE else COMMAND_HEADER_SIZE
      requires isExtended ==> -0x8000_0000 <= 6 + contentSize < 0x8000_0000
      modifies content
      ensures ok <==> IsByte(id) && (isExtended || IsByte(2 + contentSize))
      ensures content.Valid()
      ensures ok ==> IsHeader(content.written, contentSize) && |content.store| == headerSize
    {
      hide EncodeAll;
      assert content.store == [] by { EncodeNone(TRACI); }
      var size := headerSize + contentSize;
      if isExtended {
        content.WriteChar(0);
        content.WriteInt(size);
      } else {
        ok := content.WriteUnsignedByte(size);
        if !ok {
          return;
        }
      }
      ok := content.WriteUnsignedByte(id);
    }
  }

  /** The bodies of the commands. */
  ghost function GetBody(variableId: Byte, objectId: Text): seq<Field> {
    [UByte(variableId), Str(objectId)]
  }

  ghost function ChangeEdgesBody(variableId: Byte, objectId: Text, typ: Byte, value: TextList): seq<Field> {
    [UByte(variableId), Str(objectId), UByte(typ), StrList(value)]
  }

  ghost function ChangeSpeedBody(objectId: Text, value: Double64): seq<Field> {
    [UByte(VAR_MAXSPEED), Str(objectId), UByte(TYPE_DOUBLE), Real(value)]
  }

  ghost function TravelTimeBody(
        variableId: Byte, objectId: Text, begin: Int32, end: Int32, time: Double64): seq<Field> {
    [UByte(variableId), Str(objectId), UByte(TYPE_COMPOUND), Int(3), UByte(TYPE_INTEGER), Int(begin),
     UByte(TYPE_INTEGER), Int(end), UByte(TYPE_DOUBLE), Real(time)]
  }

  ghost function GlobalTimeBody(variableId: Byte, objectId: Text): seq<Field> {
    [UByte(variableId), Str(objectId), UByte(TYPE_INTEGER), Int(2700)]
  }

  ghost predicate AllBytes(variables: seq<int>) {
    |variables| <= 255 && forall v :: v in variables ==> IsByte(v)
  }

  ghost function SubscribeBody(start: Int32, stop: Int32, variables: seq<int>): seq<Field>
    requires AllBytes(variables)
  {
    [Int(start), Int(stop), Str(['*' as int]), UByte(|variables|)] + VariableFields(variables)
  }

  ghost function VariableFields(variables: seq<int>): seq<Field>
    requires forall v :: v in variables ==> IsByte(v)
  {
    if variables == [] then []
    else
      var last := |variables| - 1;
      assert IsByte(variables[last]);
      VariableFields(variables[..last]) + [UByte(variables[last])]
  }

  /** The encoders of the query classes; `variableId` and `commandId` are plain integers there. */
  class Query {
    const objectId: Text
    const commandId: int
    const variableId: int
    const hostIsBig: bool

    constructor (objectId: Text, commandId: int, variableId: int, hostIsBig: bool)
      ensures this.objectId == objectId && this.commandId == commandId
      ensures this.variableId == variableId && this.hostIsBig == hostIsBig
    {
      this.objectId, this.commandId, this.variableId, this.hostIsBig := objectId, commandId, variableId, hostIsBig;
    }

    /** The command is the given body behind a header with the right size. */
    ghost predicate Carries(command: Command, body: seq<Field>)
      reads command.content
    {
      && IsByte(commandId) && Fits(body)
      && command.content.Valid() && command.content.written == Extended(commandId, body)
    }

    /** The header, with the size the caller has computed for the body. */
    method Begin(contentSize: int) returns (command: Command?)
      requires 0 <= contentSize < 0x8000_0000 - COMMAND_HEADER_EXTENDED_SIZE
      ensures command != null <==> IsByte(commandId)
      ensures command != null ==>
                && fresh(command) && fresh(command.content) && command.content.Valid()
                && command.content.written == Header(commandId, COMMAND_HEADER_EXTENDED_SIZE + contentSize)
                && |command.content.store| == COMMAND_HEADER_EXTENDED_SIZE
    {
      if commandId > 255 {
        return null;
      }
      command := new Command(commandId, true, hostIsBig);
      var ok := command.WriteHeader(contentSize);
      if !ok {
        command := null;
      }
    }

    /** The size announced is the size written. */
    lemma Complete(command: Command, body: seq<Field>, contentSize: int)
      requires IsByte(commandId) && command.content.Valid()
      requires 0 <= contentSize < 0x8000_0000 - COMMAND_HEADER_EXTENDED_SIZE
      requires command.content.written == Header(commandId, COMMAND_HEADER_EXTENDED_SIZE + contentSize) + body
      requires |command.content.store| == COMMAND_HEADER_EXTENDED_SIZE + contentSize
      ensures Carries(command, body)
    {
      HeaderSize(commandId, COMMAND_HEADER_EXTENDED_SIZE + contentSize);
      EncodeConcat(TRACI, Header(commandId, COMMAND_HEADER_EXTENDED_SIZE + contentSize), body);
    }

    method InitializeGetCommand() returns (command: Command?)
      requires |objectId| < 0x7000_0000
      ensures command != null <==> IsByte(commandId) && IsByte(variableId)
      ensures command != null ==> Carries(command, GetBody(variableId, objectId))
    {
      hide EncodeAll, EncodeText, Storage.Valid;
      var contentSize := 1 + (4 + |objectId|);
      command := Begin(contentSize);
      if command == null {
        return;
      }
      var ok := command.content.WriteUnsignedByte(variableId);
      if !ok {
        return null;
      }
      command.content.WriteString(objectId);
      Complete(command, GetBody(variableId, objectId), contentSize);
    }

    method InitializeChangeEdgesCommand(typ: int, value: TextList) returns (command: Command?)
      requires |objectId| < 0x1000_0000 && |EncodeTexts(TRACI, value)| < 0x6000_0000
      ensures command != null <==> IsByte(commandId) && IsByte(variableId) && IsByte(typ)
      ensures command != null ==> Carries(command, ChangeEdgesBody(variableId, objectId, typ, value))
    {
      hide EncodeAll, EncodeText, Storage.Valid;
      var sizeEdges := 0;
      for i := 0 to |value|
        invariant sizeEdges + |EncodeTexts(TRACI, value[i..])| == |EncodeTexts(TRACI, value)|
      {
        assert value[i..][1..] == value[i + 1..];
        sizeEdges := sizeEdges + |value[i]| + 4;
      }
      assert sizeEdges == |EncodeTexts(TRACI, value)|;
      hide EncodeTexts;
      var contentSize := 1 + (4 + |objectId|) + 1 + 4 + sizeEdges;
      command := Begin(contentSize);
      if command == null {
        return;
      }
      var ok := command.content.WriteUnsignedByte(variableId);
      if !ok {
        return null;
      }
      command.content.WriteString(objectId);
      ok := command.content.WriteUnsignedByte(typ);
      if !ok {
        return null;
      }
      command.content.WriteStringList(value);
      Complete(command, ChangeEdgesBody(variableId, objectId, typ, value), contentSize);
    }

    method InitializeChangeCommand(value: Double64) returns (command: Command?)
      requires |objectId| < 0x7000_0000
      ensures command != null <==> IsByte(commandId)
      ensures command != null ==> Carries(command, ChangeSpeedBody(objectId, value))
    {
      hide EncodeAll, EncodeText, EncodeReal, Storage.Valid;
      var contentSize := 1 + (4 + |objectId|) + 1 + 8;
      command := Begin(contentSize);
      if command == null {
        return;
      }
      command.content.WriteChar(VAR_MAXSPEED);
      command.content.WriteString(objectId);
      command.content.WriteChar(TYPE_DOUBLE);
      command.content.WriteDouble(value);
      Complete(command, ChangeSpeedBody(objectId, value), contentSize);
    }

    static method WriteTagged(content: Storage, typ: Byte, value: Int32)
      requires content.Valid()
      modifies content
      ensures content.Valid() && content.written == old(content.written) + [UByte(typ), Int(value)]
      ensures |content.store| == |old(content.store)| + 5
    {
      hide EncodeAll, EncodeInt, Storage.Valid;
      content.WriteChar(typ);
      content.WriteInt(value);
    }

    method InitializeChangeEdgeTravelTimeCommand(beginTime: Int32, endTime: Int32, travelTime: Double64)
      returns (command: Command?)
      requires |objectId| < 0x7000_0000
      ensures command != null <==> IsByte(commandId) && IsByte(variableId)
      ensures command != null ==> Carries(command, TravelTimeBody(variableId, objectId, beginTime, endTime, travelTime))
    {
      hide EncodeAll, EncodeText, EncodeReal, EncodeInt, Storage.Valid;
      var contentSize := 1 + (4 + |objectId|) + 1 + 4 + 1 + 4 + 1 + 4 + 1 + 8;
      command := Begin(contentSize);
      if command == null {
        return;
      }
      var ok := command.content.WriteUnsignedByte(variableId);
      if !ok {
        return null;
      }
      command.content.WriteString(objectId);
      WriteTagged(command.content, TYPE_COMPOUND, 3);
      WriteTagged(command.content, TYPE_INTEGER, beginTime);
      WriteTagged(command.content, TYPE_INTEGER, endTime);
      command.content.WriteChar(TYPE_DOUBLE);
      command.content.WriteDouble(travelTime);
      Complete(command, TravelTimeBody(variableId, objectId, beginTime, endTime, travelTime), contentSize);
    }

    method InitializeRequestGlobalTimeCommand() returns (command: Command?)
      requires |objectId| < 0x7000_0000
      ensures command != null <==> IsByte(commandId) && IsByte(variableId)
      ensures command != null ==> Carries(command, GlobalTimeBody(variableId, objectId))
    {
      hide EncodeAll, EncodeText, EncodeInt, Storage.Valid;
      var contentSize := 1 + (4 + |objectId|) + 1 + 4;
      command := Begin(contentSize);
      if command == null {
        return;
      }
      var ok := command.content.WriteUnsignedByte(variableId);
      if !ok {
        return null;
      }
      command.content.WriteString(objectId);
      command.content.WriteChar(TYPE_INTEGER);
      command.content.WriteInt(2700);
      Complete(command, GlobalTimeBody(variableId, objectId), contentSize);
    }

    /** A subscription names at most 255 variables. */
    method InitializeSubscribeCommand(startTime: Int32, stopTime: Int32, variables: seq<int>)
      returns (command: Command?)
      requires |variables| < 0x7000_0000
      ensures command != null <==> IsByte(commandId) && AllBytes(variables)
      ensures command != null ==> Carries(command, SubscribeBody(startTime, stopTime, variables))
    {
      hide EncodeAll, EncodeText, EncodeInt, Storage.Valid;
      var s: Text := ['*' as int];
      var variablesCount := |variables|;
      var contentSize := 4 + 4 + (4 + |s|) + 1 + variablesCount;
      command := Begin(contentSize);
      if command == null {
        return;
      }
      command.content.WriteInt(startTime);
      command.content.WriteInt(stopTime);
      command.content.WriteString(s);
      var ok := command.content.WriteUnsignedByte(variablesCount);
      if !ok {
        return null;
      }
      ghost var start := command.content.written;
      for i := 0 to variablesCount
        invariant command != null && fresh(command.content) && command.content.Valid()
        invariant forall v :: v in variables[..i] ==> IsByte(v)
        invariant command.content.written == start + VariableFields(variables[..i])
        invariant |command.content.store| == COMMAND_HEADER_EXTENDED_SIZE + 14 + i
      {
        ok := command.content.WriteUnsignedByte(variables[i]);
        if !ok {
          assert variables[i] in variables;
          return null;
        }
        assert variables[..i + 1] == variables[..i] + [variables[i]];
        assert variables[..i + 1][..i] == variables[..i];
        assert VariableFields(variables[..i + 1]) == VariableFields(variables[..i]) + [UByte(variables[i])];
      }
      assert variables[..variablesCount] == variables;
      Complete(command, SubscribeBody(startTime, stopTime, variables), contentSize);
    }
  }
}
