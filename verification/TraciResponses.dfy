/** Answers of the traffic simulator: `ValidateResponse` and `ReadGetResponse` of
src/traci/query/query.cpp and the step response of src/traci/query/simStepQuery.cpp.

A reader that meets the end of the buffer throws; what was stored before that stays stored.
*/
module TraciResponses {
  import opened WireFormat
  import opened TraciStorage
  import opened TraciCommands

  // SUMO's TraCI constants
  const RTYPE_OK: Byte := 0x00
  const POSITION_2D: Byte := 0x01
  const TYPE_BOUNDINGBOX: Byte := 0x05
  const TYPE_STRING: Byte := 0x0C
  const TYPE_STRINGLIST: Byte := 0x0E
  const RESPONSE_SUBSCRIBE_VEHICLE_VARIABLE := 0xe4
  const RESPONSE_SUBSCRIBE_SIM_VARIABLE := 0xeb
  const VAR_TIME_STEP: Byte := 0x70
  const VAR_DEPARTED_VEHICLES_IDS: Byte := 0x74
  const VAR_ARRIVED_VEHICLES_IDS: Byte := 0x7a

  // ---------------------------------------------------------------- get responses

  /** The answer fields of a query. */
  datatype Values = Values(
    intValue: Int32, doubleValue: Double64, stringValue: Text, stringList: seq<Text>,
    x: Double64, y: Double64, vector: seq<Double64>)

  function DoublesAt(bs: Bytes, at: nat, count: nat): seq<Double64>
    decreases count
  {
    if count == 0 then []
    else
      match RealAt(TRACI, bs, at)
      case Invalid(_) => []
      case Read(d, n) => [d] + DoublesAt(bs, n, count - 1)
  }

  /** A bounding box is read as far as the size of the whole buffer and its end allow. */
  function BoxCount(size: nat): nat {
    if size / 8 == 0 then 0 else size / 8 - 1
  }

  /** At most one number less than fit into the whole buffer, and as many as are there. */
  lemma {:induction false} NumbersRead(bs: Bytes, at: nat, count: nat)
    requires at <= |bs|
    ensures |DoublesAt(bs, at, count)| == if count <= (|bs| - at) / 8 then count else (|bs| - at) / 8
    decreases count
  {
    RealIff(TRACI, bs, at, 0);
    hide RealAt;
    if count > 0 && at + 8 <= |bs| {
      NumbersRead(bs, at + 8, count - 1);
    }
  }

  lemma BoxReads(bs: Bytes, at: nat)
    requires at <= |bs|
    ensures var n := |DoublesAt(bs, at, BoxCount(|bs|))|;
            n <= (|bs| - at) / 8 && (n == (|bs| - at) / 8 <==> |bs| < 8 || (|bs| - at) / 8 < |bs| / 8)
  {
    hide DoublesAt;
    NumbersRead(bs, at, BoxCount(|bs|));
  }

  /** What storing a value of the given type does. */
  function StoreValue(bs: Bytes, at: nat, typ: Byte, v: Values): Values {
    if typ == TYPE_STRING then
      (match TextAt(TRACI, bs, at) case Read(t, _) => v.(stringValue := t) case Invalid(_) => v)
    else if typ == TYPE_INTEGER then
      (match IntAt(TRACI, bs, at) case Read(i, _) => v.(intValue := i) case Invalid(_) => v)
    else if typ == TYPE_DOUBLE then
      (match RealAt(TRACI, bs, at) case Read(d, _) => v.(doubleValue := d) case Invalid(_) => v)
    else if typ == TYPE_STRINGLIST then
      (match IntAt(TRACI, bs, at)
       case Read(len, n) => v.(stringList := if len < 0 then [] else TextsAt(TRACI, bs, n, len).texts)
       case Invalid(_) => v)
    else if typ == POSITION_2D then
      (match RealAt(TRACI, bs, at)
       case Invalid(_) => v
       case Read(x, n) =>
         match RealAt(TRACI, bs, n)
         case Invalid(_) => v.(x := x)
         case Read(y, _) => v.(x := x, y := y))
    else if typ == TYPE_BOUNDINGBOX then v.(vector := v.vector + DoublesAt(bs, at, BoxCount(|bs|)))
    else v
  }

  /** The type of the value, behind a short or an extended header. */
  function TypeAt(bs: Bytes, at: nat): Read<Byte> {
    match ByteAt(bs, at)
    case Invalid(n) => Invalid(n)
    case Read(extLength, n) =>
      if extLength == 0 then
        (match IntAt(TRACI, bs, n)
         case Invalid(m) => Invalid(m)
         case Read(_, m) => TypeBehind(bs, m))
      else TypeBehind(bs, n)
  }

  function TypeBehind(bs: Bytes, at: nat): Read<Byte> {
    match ByteAt(bs, at)
    case Invalid(n) => Invalid(n)
    case Read(_, n) =>
      match ByteAt(bs, n)
      case Invalid(m) => Invalid(m)
      case Read(_, m) =>
        match TextAt(TRACI, bs, m)
        case Invalid(k) => Invalid(k)
        case Read(_, k) => ByteAt(bs, k)
  }

  function AfterGet(bs: Bytes, at: nat, v: Values): Values {
    match TypeAt(bs, at)
    case Invalid(_) => v
    case Read(typ, n) => StoreValue(bs, n, typ, v)
  }

  class Query {
    var intValue: Int32
    var doubleValue: Double64
    var stringValue: Text
    var stringListValue: seq<Text>
    var positionX: Double64
    var positionY: Double64
    var vectorValue: seq<Double64>

    constructor ()
      ensures Answer() == Values(0, 0, [], [], 0, 0, [])
    {
      intValue, doubleValue, stringValue, stringListValue := 0, 0, [], [];
      positionX, positionY, vectorValue := 0, 0, [];
    }

    function Answer(): Values
      reads this
    {
      Values(intValue, doubleValue, stringValue, stringListValue, positionX, positionY, vectorValue)
    }

    /** An answer is refused only for a status byte that is there and is not zero. */
    static method ValidateResponse(responseMessage: Storage) returns (valid: bool)
      requires responseMessage.Valid()
      modifies responseMessage`iter
      ensures responseMessage.Valid()
      ensures var bs, at := responseMessage.store, old(responseMessage.iter);
              && (valid <==> (at + 3 <= |bs| ==> bs[at + 2] == RTYPE_OK))
              && responseMessage.iter == if at + 3 <= |bs| then TextAt(TRACI, bs, at + 3).next else |bs|
    {
      hide EncodeAll, TextAt;
      valid := true;
      var length := responseMessage.ReadUnsignedByte();
      if length.Invalid? { return; }
      var id := responseMessage.ReadUnsignedByte();
      if id.Invalid? { return; }
      var status := responseMessage.ReadUnsignedByte();
      if status.Invalid? { return; }
      var description := responseMessage.ReadString();
      valid := status.value == RTYPE_OK;
    }

    method ReadStrings(content: Storage)
      requires content.Valid()
      modifies this`stringListValue, content`iter
      ensures content.Valid()
      ensures stringListValue ==
                (match IntAt(TRACI, content.store, old(content.iter))
                 case Read(len, n) => if len < 0 then [] else TextsAt(TRACI, content.store, n, len).texts
                 case Invalid(_) => old(stringListValue))
    {
      hide EncodeAll, IntAt, TextsAt;
      var listLen := content.ReadInt();
      if listLen.Invalid? { return; }
      stringListValue := [];
      if listLen.value < 0 { return; }
      PushStrings(content, listLen.value);
    }

    method PushStrings(content: Storage, listLen: nat)
      requires content.Valid()
      modifies this`stringListValue, content`iter
      ensures content.Valid()
      ensures stringListValue == old(stringListValue) + TextsAt(TRACI, content.store, old(content.iter), listLen).texts
    {
      hide EncodeAll, TextAt;
      ghost var all := old(stringListValue) + TextsAt(TRACI, content.store, old(content.iter), listLen).texts;
      for i := 0 to listLen
        invariant content.Valid()
        invariant all == stringListValue + TextsAt(TRACI, content.store, content.iter, listLen - i).texts
      {
        var t := content.ReadString();
        if t.Invalid? { return; }
        stringListValue := stringListValue + [t.value];
      }
    }

    method ReadBox(content: Storage)
      requires content.Valid()
      modifies this`vectorValue, content`iter
      ensures content.Valid()
      ensures vectorValue == old(vectorValue) + DoublesAt(content.store, old(content.iter), BoxCount(|content.store|))
    {
      hide EncodeAll, RealAt;
      var count := |content.store| / 8;
      ghost var start := content.iter;
      ghost var n := BoxCount(|content.store|);
      var i := 0;
      while i < count - 1
        invariant 0 <= i <= n && content.Valid()
        invariant old(vectorValue) + DoublesAt(content.store, start, n) ==
                    vectorValue + DoublesAt(content.store, content.iter, n - i)
      {
        var d := content.ReadDouble();
        if d.Invalid? { return; }
        vectorValue := vectorValue + [d.value];
        i := i + 1;
      }
    }

    method ReadValue(content: Storage, variableType: Byte)
      requires content.Valid()
      modifies this, content`iter
      ensures content.Valid()
      ensures Answer() == StoreValue(content.store, old(content.iter), variableType, old(Answer()))
    {
      hide EncodeAll, IntAt, RealAt, TextAt, TextsAt, DoublesAt;
      if variableType == TYPE_STRING {
        var t := content.ReadString();
        if t.Read? { stringValue := t.value; }
      } else if variableType == TYPE_INTEGER {
        var i := content.ReadInt();
        if i.Read? { intValue := i.value; }
      } else if variableType == TYPE_DOUBLE {
        var d := content.ReadDouble();
        if d.Read? { doubleValue := d.value; }
      } else if variableType == TYPE_STRINGLIST {
        ReadStrings(content);
      } else if variableType == POSITION_2D {
        var x := content.ReadDouble();
        if x.Invalid? { return; }
        positionX := x.value;
        var y := content.ReadDouble();
        if y.Read? { positionY := y.value; }
      } else if variableType == TYPE_BOUNDINGBOX {
        ReadBox(content);
      }
    }

    method ReadGetResponse(content: Storage)
      requires content.Valid()
      modifies this, content`iter
      ensures content.Valid()
      ensures Answer() == AfterGet(content.store, old(content.iter), old(Answer()))
    {
      hide EncodeAll, IntAt, TextAt, StoreValue, ByteAt;
      var extLength := content.ReadUnsignedByte();
      if extLength.Invalid? { return; }
      if extLength.value == 0 {
        var length := content.ReadInt();
        if length.Invalid? { return; }
      }
      var commandId := content.ReadUnsignedByte();
      if commandId.Invalid? { return; }
      var varId := content.ReadUnsignedByte();
      if varId.Invalid? { return; }
      var objectId := content.ReadString();
      if objectId.Invalid? { return; }
      var variableType := content.ReadUnsignedByte();
      if variableType.Invalid? { return; }
      ReadValue(content, variableType.value);
    }
  }

  // ---------------------------------------------------------------- get responses that are in order

  ghost function StatusFields(length: Byte, id: Byte, description: Text): seq<Field> {
    [UByte(length), UByte(id), UByte(RTYPE_OK), Str(description)]
  }

  /** The header of an answer: one byte of length, or a zero byte and four. */
  datatype ResponseHeader = ShortHeader(length: Byte) | ExtendedHeader(size: Int32)

  ghost predicate LegalHeader(h: ResponseHeader) {
    h.ShortHeader? ==> h.length != 0
  }

  ghost function HeaderFields(h: ResponseHeader): seq<Field> {
    match h
    case ShortHeader(length) => [UByte(length)]
    case ExtendedHeader(size) => [UByte(0), Int(size)]
  }

  ghost function NameFields(commandId: Byte, varId: Byte, objectId: Text, typ: Byte): seq<Field> {
    [UByte(commandId), UByte(varId), Str(objectId), UByte(typ)]
  }

  lemma {:induction false} TypeBehindIs(
      bs: Bytes, at: nat, commandId: Byte, varId: Byte, objectId: Text, typ: Byte, value: seq<Field>)
    requires Holds(bs, at, EncodeAll(TRACI, NameFields(commandId, varId, objectId, typ) + value))
    ensures TypeBehind(bs, at) == Read(typ, at + 7 + |objectId|)
    ensures Holds(bs, at + 7 + |objectId|, EncodeAll(TRACI, value))
    ensures |EncodeAll(TRACI, NameFields(commandId, varId, objectId, typ) + value)| ==
              7 + |objectId| + |EncodeAll(TRACI, value)|
  {
    hide EncodeAll, Holds, ByteAt, TextAt;
    var fs := NameFields(commandId, varId, objectId, typ) + value;
    Peel(TRACI, bs, at, fs);
    Peel(TRACI, bs, at + 1, fs[1..]);
    assert fs[1..][1..] == fs[2..] && fs[2..][1..] == fs[3..] && fs[3..][1..] == value;
    Peel(TRACI, bs, at + 2, fs[2..]);
    Peel(TRACI, bs, at + 6 + |objectId|, fs[3..]);
  }

  /** Short and extended headers alike lead to the value. */
  lemma {:induction false} TypeIs(
      bs: Bytes, at: nat, h: ResponseHeader, commandId: Byte, varId: Byte, objectId: Text, typ: Byte, value: seq<Field>)
    requires LegalHeader(h)
    requires Holds(bs, at, EncodeAll(TRACI, HeaderFields(h) + (NameFields(commandId, varId, objectId, typ) + value)))
    ensures TypeAt(bs, at).Read? && TypeAt(bs, at).value == typ
    ensures TypeAt(bs, at).next == at + (if h.ShortHeader? then 8 else 12) + |objectId|
    ensures Holds(bs, TypeAt(bs, at).next, EncodeAll(TRACI, value))
    ensures at + |EncodeAll(TRACI, HeaderFields(h) + (NameFields(commandId, varId, objectId, typ) + value))| ==
              TypeAt(bs, at).next + |EncodeAll(TRACI, value)|
  {
    hide EncodeAll, Holds, ByteAt, IntAt, TypeBehind;
    var rest := NameFields(commandId, varId, objectId, typ) + value;
    var fs := HeaderFields(h) + rest;
    Peel(TRACI, bs, at, fs);
    if h.ShortHeader? {
      assert fs[1..] == rest;
      TypeBehindIs(bs, at + 1, commandId, varId, objectId, typ, value);
    } else {
      assert fs[1..][1..] == rest;
      Peel(TRACI, bs, at + 1, fs[1..]);
      TypeBehindIs(bs, at + 5, commandId, varId, objectId, typ, value);
    }
  }

  /** A value the traffic simulator answers with. */
  datatype Value =
    | AString(t: Text) | AnInteger(i: Int32) | ADouble(d: Double64) | AStringList(ts: TextList)
    | APosition(x: Double64, y: Double64)

  ghost function TypeOf(v: Value): Byte {
    match v
    case AString(_) => TYPE_STRING
    case AnInteger(_) => TYPE_INTEGER
    case ADouble(_) => TYPE_DOUBLE
    case AStringList(_) => TYPE_STRINGLIST
    case APosition(_, _) => POSITION_2D
  }

  ghost function ValueFields(v: Value): seq<Field> {
    match v
    case AString(t) => [Str(t)]
    case AnInteger(i) => [Int(i)]
    case ADouble(d) => [Real(d)]
    case AStringList(ts) => [StrList(ts)]
    case APosition(x, y) => [Real(x), Real(y)]
  }

  ghost function Stored(v: Value, q: Values): Values {
    match v
    case AString(t) => q.(stringValue := t)
    case AnInteger(i) => q.(intValue := i)
    case ADouble(d) => q.(doubleValue := d)
    case AStringList(ts) => q.(stringList := ts)
    case APosition(x, y) => q.(x := x, y := y)
  }

  /** An answer of any type behind either header ends up in its field, and no other field changes. */
  lemma GetResponseParsed(
      bs: Bytes, at: nat, h: ResponseHeader, commandId: Byte, varId: Byte, objectId: Text, v: Value, q: Values)
    requires LegalHeader(h)
    requires Holds(bs, at, EncodeAll(TRACI, HeaderFields(h) +
                                            (NameFields(commandId, varId, objectId, TypeOf(v)) + ValueFields(v))))
    ensures AfterGet(bs, at, q) == Stored(v, q)
  {
    hide EncodeAll, Holds, TypeAt, IntAt, RealAt, TextAt, TextsAt;
    TypeIs(bs, at, h, commandId, varId, objectId, TypeOf(v), ValueFields(v));
    var n := TypeAt(bs, at).next;
    Peel(TRACI, bs, n, ValueFields(v));
    if v.APosition? {
      assert ValueFields(v)[1..] == [Real(v.y)];
      Peel(TRACI, bs, n + 8, [Real(v.y)]);
    }
  }

  /** An answer with a bounding box, behind its status part: exactly its four numbers are stored,
      although the loop may try to read more. */
  lemma BoundingBoxParsed(bs: Bytes, length: Byte, id: Byte, description: Text,
                          h: ResponseHeader, commandId: Byte, varId: Byte, objectId: Text,
                          a: Double64, b: Double64, c: Double64, d: Double64, q: Values)
    requires LegalHeader(h)
    requires bs == EncodeAll(TRACI, StatusFields(length, id, description) +
                               (HeaderFields(h) +
                                (NameFields(commandId, varId, objectId, TYPE_BOUNDINGBOX) +
                                 [Real(a), Real(b), Real(c), Real(d)])))
    ensures AfterGet(bs, 7 + |description|, q) == q.(vector := q.vector + [a, b, c, d])
  {
    hide EncodeAll, Holds, TypeAt, RealAt, DoublesAt;
    var box := [Real(a), Real(b), Real(c), Real(d)];
    var answer := HeaderFields(h) + (NameFields(commandId, varId, objectId, TYPE_BOUNDINGBOX) + box);
    WholeHolds(bs);
    StatusSkipped(bs, length, id, description, answer);
    TypeIs(bs, 7 + |description|, h, commandId, varId, objectId, TYPE_BOUNDINGBOX, box);
    var n := TypeAt(bs, 7 + |description|).next;
    FourDoubles(bs, n, a, b, c, d, BoxCount(|bs|));
  }

  lemma {:induction false} FourDoubles(
      bs: Bytes, at: nat, a: Double64, b: Double64, c: Double64, d: Double64, count: nat)
    requires Holds(bs, at, EncodeAll(TRACI, [Real(a), Real(b), Real(c), Real(d)]))
    requires |bs| == at + |EncodeAll(TRACI, [Real(a), Real(b), Real(c), Real(d)])|
    ensures |bs| == at + 32
    ensures count >= 4 ==> DoublesAt(bs, at, count) == [a, b, c, d]
  {
    hide EncodeAll, Holds, RealAt;
    var fs := [Real(a), Real(b), Real(c), Real(d)];
    Peel(TRACI, bs, at, fs);
    assert fs[1..][1..] == fs[2..] && fs[2..][1..] == fs[3..] && fs[3..][1..] == [];
    Peel(TRACI, bs, at + 8, fs[1..]);
    Peel(TRACI, bs, at + 16, fs[2..]);
    Peel(TRACI, bs, at + 24, fs[3..]);
    EncodeNone(TRACI);
    RealIff(TRACI, bs, |bs|, 0);
    if count >= 4 {
      assert DoublesAt(bs, at + 32, count - 4) == [];
      assert DoublesAt(bs, at + 24, count - 3) == [d];
      assert DoublesAt(bs, at + 16, count - 2) == [c, d];
      assert DoublesAt(bs, at + 8, count - 1) == [b, c, d];
    }
  }

  lemma {:induction false} StatusSkipped(bs: Bytes, length: Byte, id: Byte, description: Text, answer: seq<Field>)
    requires Holds(bs, 0, EncodeAll(TRACI, StatusFields(length, id, description) + answer))
    ensures Holds(bs, 7 + |description|, EncodeAll(TRACI, answer))
    ensures |EncodeAll(TRACI, StatusFields(length, id, description) + answer)| ==
              7 + |description| + |EncodeAll(TRACI, answer)|
  {
    hide EncodeAll, Holds, ByteAt, TextAt;
    var fs := StatusFields(length, id, description) + answer;
    Peel(TRACI, bs, 0, fs);
    assert fs[1..][1..] == fs[2..] && fs[2..][1..] == fs[3..] && fs[3..][1..] == answer;
    Peel(TRACI, bs, 1, fs[1..]);
    Peel(TRACI, bs, 2, fs[2..]);
    Peel(TRACI, bs, 3, fs[3..]);
  }

  // ---------------------------------------------------------------- step responses

  /** What a simulation step reports. */
  datatype Step = Step(time: Int32, departed: seq<Text>, arrived: seq<Text>)

  datatype Advance = Advance(state: Step, next: nat, ok: bool)

  /** One variable of a simulation subscription; `ok` is false when a reader throws. */
  function AfterVariable(bs: Bytes, at: nat, st: Step): Advance {
    match ByteAt(bs, at)
    case Invalid(n) => Advance(st, n, false)
    case Read(varId, n) =>
      match ByteAt(bs, n)
      case Invalid(m) => Advance(st, m, false)
      case Read(status, m) =>
        if status != RTYPE_OK then Advance(st, m, true)
        else
          match ByteAt(bs, m)
          case Invalid(k) => Advance(st, k, false)
          case Read(_, k) => AfterPayload(bs, k, varId, st)
  }

  function AfterPayload(bs: Bytes, at: nat, varId: Byte, st: Step): Advance {
    if varId == VAR_DEPARTED_VEHICLES_IDS then
      (match TextListAt(TRACI, bs, at)
       case Invalid(n) => Advance(st, n, false)
       case Read(ids, n) => Advance(st.(departed := ids), n, true))
    else if varId == VAR_ARRIVED_VEHICLES_IDS then
      (match TextListAt(TRACI, bs, at)
       case Invalid(n) => Advance(st, n, false)
       case Read(ids, n) => Advance(st.(arrived := ids), n, true))
    else if varId == VAR_TIME_STEP then
      (match IntAt(TRACI, bs, at)
       case Invalid(n) => Advance(st, n, false)
       case Read(t, n) => Advance(st.(time := t), n, true))
    else Advance(st, at, true)
  }

  function AfterVariables(bs: Bytes, at: nat, st: Step, count: nat): Advance
    decreases count
  {
    if count == 0 then Advance(st, at, true)
    else
      var v := AfterVariable(bs, at, st);
      if !v.ok then v else AfterVariables(bs, v.next, v.state, count - 1)
  }

  datatype Answered = Answered(state: Step, next: nat, stop: bool)

  /** One subscription answer: an exception ends it, an unexpected command ends the whole reading. */
  function AfterSubscription(bs: Bytes, at: nat, st: Step): Answered {
    match ByteAt(bs, at)
    case Invalid(n) => Answered(st, n, false)
    case Read(_, n) =>
      match IntAt(TRACI, bs, n)
      case Invalid(m) => Answered(st, m, false)
      case Read(_, m) =>
        match ByteAt(bs, m)
        case Invalid(k) => Answered(st, k, false)
        case Read(commandId, k) =>
          if commandId < 0xe0 || commandId > 0xef then Answered(st, k, true)
          else AfterObject(bs, k, commandId, st)
  }

  function AfterObject(bs: Bytes, at: nat, commandId: Byte, st: Step): Answered {
    match TextAt(TRACI, bs, at)
    case Invalid(n) => Answered(st, n, false)
    case Read(_, n) =>
      match ByteAt(bs, n)
      case Invalid(m) => Answered(st, m, false)
      case Read(varCount, m) =>
        if commandId == RESPONSE_SUBSCRIBE_SIM_VARIABLE then
          var a := AfterVariables(bs, m, st, varCount);
          Answered(a.state, a.next, false)
        else Answered(st, m, false)
  }

  function AfterSubscriptions(bs: Bytes, at: nat, st: Step, count: nat): Step
    decreases count
  {
    if count == 0 then st
    else
      var a := AfterSubscription(bs, at, st);
      if a.stop then a.state else AfterSubscriptions(bs, a.next, a.state, count - 1)
  }

  function AfterStep(bs: Bytes, at: nat, st: Step): Step {
    match IntAt(TRACI, bs, at)
    case Invalid(_) => st
    case Read(count, n) => AfterSubscriptions(bs, n, st, if count < 0 then 0 else count)
  }

  /** Reading ends for good exactly at a whole header whose command is no subscription answer, which
      changes nothing; and without subscriptions nothing is read. */
  lemma ReadingStopsIff(bs: Bytes, at: nat, st: Step)
    ensures AfterSubscription(bs, at, st).stop <==> at + 6 <= |bs| && !(0xe0 <= bs[at + 5] <= 0xef)
    ensures AfterSubscription(bs, at, st).stop ==> AfterSubscription(bs, at, st).state == st
    ensures IntAt(TRACI, bs, at).Read? && IntAt(TRACI, bs, at).value <= 0 ==> AfterStep(bs, at, st) == st
  {
    hide TextAt, AfterVariables;
    if at + 1 <= |bs| { IntIff(TRACI, bs, at + 1, 0); }
    hide IntAt;
  }

  class SimStepQuery {
    var currentTime: Int32
    var subscriptionCount: int
    var departedVehicles: seq<Text>
    var arrivedVehicles: seq<Text>
    const hostIsBig: bool

    constructor (time: Int32, hostIsBig: bool)
      ensures Reported() == Step(time, [], []) && this.hostIsBig == hostIsBig
    {
      currentTime, subscriptionCount, departedVehicles, arrivedVehicles := time, 0, [], [];
      this.hostIsBig := hostIsBig;
    }

    function Reported(): Step
      reads this
    {
      Step(currentTime, departedVehicles, arrivedVehicles)
    }

    method InitializeCommand() returns (command: Command)
      ensures fresh(command) && command.content.Valid()
      ensures Fits([Int(currentTime)]) && command.content.written == Extended(CMD_SIMSTEP2, [Int(currentTime)])
    {
      hide EncodeAll, Storage.Valid;
      command := new Command(CMD_SIMSTEP2, true, hostIsBig);
      var ok := command.WriteHeader(4);
      command.content.WriteInt(currentTime);
      EncodeSnoc(TRACI, [], Int(currentTime));
      EncodeNone(TRACI);
      assert [] + [Int(currentTime)] == [Int(currentTime)];
    }

    method ReadSimulationSubscriptionResponse(content: Storage) returns (ok: bool)
      requires content.Valid()
      modifies this, content`iter
      ensures content.Valid()
      ensures Advance(Reported(), content.iter, ok) == AfterVariable(content.store, old(content.iter), old(Reported()))
    {
      hide EncodeAll, IntAt, TextListAt;
      var varId := content.ReadUnsignedByte();
      if varId.Invalid? { return false; }
      var status := content.ReadUnsignedByte();
      if status.Invalid? { return false; }
      if status.value != RTYPE_OK { return true; }
      var valueDataType := content.ReadUnsignedByte();
      if valueDataType.Invalid? { return false; }
      if varId.value == VAR_DEPARTED_VEHICLES_IDS {
        var ids := content.ReadStringList();
        if ids.Invalid? { return false; }
        departedVehicles := ids.value;
      } else if varId.value == VAR_ARRIVED_VEHICLES_IDS {
        var ids := content.ReadStringList();
        if ids.Invalid? { return false; }
        arrivedVehicles := ids.value;
      } else if varId.value == VAR_TIME_STEP {
        var time := content.ReadInt();
        if time.Invalid? { return false; }
        currentTime := time.value;
      }
      return true;
    }

    method ReadVariables(content: Storage, varCount: nat)
      requires content.Valid()
      modifies this, content`iter
      ensures content.Valid()
      ensures var a := AfterVariables(content.store, old(content.iter), old(Reported()), varCount);
              Reported() == a.state && content.iter == a.next
    {
      hide EncodeAll, AfterVariable;
      for i := 0 to varCount
        invariant content.Valid()
        invariant AfterVariables(content.store, old(content.iter), old(Reported()), varCount) ==
                    AfterVariables(content.store, content.iter, Reported(), varCount - i)
      {
        var ok := ReadSimulationSubscriptionResponse(content);
        if !ok { return; }
      }
    }

    method ReadSubscription(content: Storage) returns (stop: bool)
      requires content.Valid()
      modifies this, content`iter
      ensures content.Valid()
      ensures Answered(Reported(), content.iter, stop) ==
              AfterSubscription(content.store, old(content.iter), old(Reported()))
    {
      hide EncodeAll, IntAt, TextAt, AfterVariables;
      var extLength := content.ReadUnsignedByte();
      if extLength.Invalid? { return false; }
      var length := content.ReadInt();
      if length.Invalid? { return false; }
      var commandId := content.ReadUnsignedByte();
      if commandId.Invalid? { return false; }
      if commandId.value < 0xe0 || commandId.value > 0xef { return true; }
      var objectId := content.ReadString();
      if objectId.Invalid? { return false; }
      var varCount := content.ReadUnsignedByte();
      if varCount.Invalid? { return false; }
      if commandId.value == RESPONSE_SUBSCRIBE_SIM_VARIABLE {
        ReadVariables(content, varCount.value);
      }
      return false;
    }

    method ReadResponse(content: Storage)
      requires content.Valid()
      modifies this, content`iter
      ensures content.Valid()
      ensures Reported() == AfterStep(content.store, old(content.iter), old(Reported()))
    {
      hide EncodeAll, IntAt, AfterSubscription;
      var count := content.ReadInt();
      if count.Invalid? { return; }
      subscriptionCount := count.value;
      ghost var start := content.iter;
      ghost var n := if count.value < 0 then 0 else count.value;
      var s := 0;
      while s < count.value
        invariant 0 <= s <= n && content.Valid()
        invariant AfterSubscriptions(content.store, start, old(Reported()), n) ==
                    AfterSubscriptions(content.store, content.iter, Reported(), n - s)
      {
        var stop := ReadSubscription(content);
        if stop { return; }
        s := s + 1;
      }
    }
  }

  // ---------------------------------------------------------------- step responses that are in order

  datatype Variable =
    | Departed(typ: Byte, ids: TextList)
    | Arrived(typ: Byte, ids: TextList)
    | TimeStep(typ: Byte, time: Int32)

  function ApplyAll(vs: seq<Variable>, st: Step): Step {
    if vs == [] then st
    else
      ApplyAll(vs[1..],
               match vs[0]
               case Departed(_, ids) => st.(departed := ids)
               case Arrived(_, ids) => st.(arrived := ids)
               case TimeStep(_, t) => st.(time := t))
  }

  ghost function OneVariableFields(v: Variable): seq<Field> {
    match v
    case Departed(typ, ids) => [UByte(VAR_DEPARTED_VEHICLES_IDS), UByte(RTYPE_OK), UByte(typ), StrList(ids)]
    case Arrived(typ, ids) => [UByte(VAR_ARRIVED_VEHICLES_IDS), UByte(RTYPE_OK), UByte(typ), StrList(ids)]
    case TimeStep(typ, t) => [UByte(VAR_TIME_STEP), UByte(RTYPE_OK), UByte(typ), Int(t)]
  }

  ghost function AllVariableFields(vs: seq<Variable>): seq<Field> {
    if vs == [] then [] else OneVariableFields(vs[0]) + AllVariableFields(vs[1..])
  }

  /** The answer to one subscription to simulation variables. */
  datatype Subscription = Subscription(extLength: Byte, length: Int32, objectId: Text, variables: seq<Variable>)

  ghost function SubscriptionHeader(s: Subscription, count: Byte): seq<Field> {
    [UByte(s.extLength), Int(s.length), UByte(RESPONSE_SUBSCRIBE_SIM_VARIABLE), Str(s.objectId), UByte(count)]
  }

  ghost function SubscriptionFields(s: Subscription): seq<Field>
    requires |s.variables| <= 255
  {
    SubscriptionHeader(s, |s.variables|) + AllVariableFields(s.variables)
  }

  ghost predicate Legal(ss: seq<Subscription>) {
    |ss| < 0x8000_0000 && forall s :: s in ss ==> |s.variables| <= 255
  }

  ghost function SubscriptionsFields(ss: seq<Subscription>): seq<Field>
    requires Legal(ss)
  {
    if ss == [] then []
    else
      assert ss[0] in ss;
      SubscriptionFields(ss[0]) + SubscriptionsFields(ss[1..])
  }

  function ApplySubscriptions(ss: seq<Subscription>, st: Step): Step {
    if ss == [] then st else ApplySubscriptions(ss[1..], ApplyAll(ss[0].variables, st))
  }

  /** The bytes from `at` on begin with these fields, and those from `next` on with the rest. */
  ghost predicate Parsed(bs: Bytes, at: nat, fs: seq<Field>, next: nat, rest: seq<Field>) {
    && Holds(bs, next, EncodeAll(TRACI, rest))
    && at + |EncodeAll(TRACI, fs)| == next + |EncodeAll(TRACI, rest)|
  }

  lemma {:induction false} OneVariableParsed(bs: Bytes, at: nat, v: Variable, rest: seq<Field>, st: Step)
    requires Holds(bs, at, EncodeAll(TRACI, OneVariableFields(v) + rest))
    ensures var a := AfterVariable(bs, at, st);
            a.ok && a.state == ApplyAll([v], st) && Parsed(bs, at, OneVariableFields(v) + rest, a.next, rest)
  {
    hide EncodeAll, Encode, Holds, ByteAt, IntAt, TextListAt;
    var fs := OneVariableFields(v) + rest;
    Peel(TRACI, bs, at, fs);
    assert fs[1..][1..] == fs[2..] && fs[2..][1..] == fs[3..] && fs[3..][1..] == rest;
    Peel(TRACI, bs, at + 1, fs[1..]);
    Peel(TRACI, bs, at + 2, fs[2..]);
    Peel(TRACI, bs, at + 3, fs[3..]);
  }

  /** The variables at the head of a list of `|vs| + k` are all read. */
  lemma {:induction false} VariablesParsed(
      bs: Bytes, at: nat, vs: seq<Variable>, rest: seq<Field>, st: Step, k: nat) returns (next: nat)
    requires Holds(bs, at, EncodeAll(TRACI, AllVariableFields(vs) + rest))
    ensures AfterVariables(bs, at, st, |vs| + k) == AfterVariables(bs, next, ApplyAll(vs, st), k)
    ensures Parsed(bs, at, AllVariableFields(vs) + rest, next, rest)
    decreases vs
  {
    hide EncodeAll, Holds, AfterVariable, OneVariableFields;
    if vs == [] {
      assert AllVariableFields(vs) + rest == rest;
      next := at;
    } else {
      var more := AllVariableFields(vs[1..]) + rest;
      assert AllVariableFields(vs) + rest == OneVariableFields(vs[0]) + more;
      OneVariableParsed(bs, at, vs[0], more, st);
      var a := AfterVariable(bs, at, st);
      next := VariablesParsed(bs, a.next, vs[1..], rest, a.state, k);
    }
  }

  lemma {:induction false} HeaderParsed(
      bs: Bytes, at: nat, s: Subscription, count: Byte, rest: seq<Field>, st: Step) returns (next: nat)
    requires Holds(bs, at, EncodeAll(TRACI, SubscriptionHeader(s, count) + rest))
    ensures var a := AfterVariables(bs, next, st, count);
            AfterSubscription(bs, at, st) == Answered(a.state, a.next, false)
    ensures Parsed(bs, at, SubscriptionHeader(s, count) + rest, next, rest)
  {
    hide EncodeAll, Encode, Holds, ByteAt, IntAt, TextAt, AfterVariables;
    var fs := SubscriptionHeader(s, count) + rest;
    Peel(TRACI, bs, at, fs);
    assert fs[1..][1..] == fs[2..] && fs[2..][1..] == fs[3..] && fs[3..][1..] == fs[4..] && fs[4..][1..] == rest;
    Peel(TRACI, bs, at + 1, fs[1..]);
    Peel(TRACI, bs, at + 5, fs[2..]);
    Peel(TRACI, bs, at + 6, fs[3..]);
    next := at + 11 + |s.objectId|;
    Peel(TRACI, bs, next - 1, fs[4..]);
  }

  lemma {:induction false} SubscriptionParsed(bs: Bytes, at: nat, s: Subscription, rest: seq<Field>, st: Step)
    requires |s.variables| <= 255
    requires Holds(bs, at, EncodeAll(TRACI, SubscriptionFields(s) + rest))
    ensures var a := AfterSubscription(bs, at, st);
            && !a.stop && a.state == ApplyAll(s.variables, st)
            && Parsed(bs, at, SubscriptionFields(s) + rest, a.next, rest)
  {
    hide EncodeAll, Holds, SubscriptionHeader, AllVariableFields, AfterVariable, AfterSubscription, ApplyAll;
    var more := AllVariableFields(s.variables) + rest;
    assert SubscriptionFields(s) + rest == SubscriptionHeader(s, |s.variables|) + more;
    var n := HeaderParsed(bs, at, s, |s.variables|, more, st);
    var next := VariablesParsed(bs, n, s.variables, rest, st, 0);
  }

  /** The subscriptions at the head of a list of `|ss| + k` are all read. */
  lemma {:induction false} SubscriptionsParsed(
      bs: Bytes, at: nat, ss: seq<Subscription>, rest: seq<Field>, st: Step, k: nat) returns (next: nat)
    requires Legal(ss) && Holds(bs, at, EncodeAll(TRACI, SubscriptionsFields(ss) + rest))
    ensures AfterSubscriptions(bs, at, st, |ss| + k) == AfterSubscriptions(bs, next, ApplySubscriptions(ss, st), k)
    ensures Parsed(bs, at, SubscriptionsFields(ss) + rest, next, rest)
    decreases ss
  {
    hide EncodeAll, Holds, AfterSubscription, SubscriptionFields, ApplyAll;
    if ss == [] {
      assert SubscriptionsFields(ss) + rest == rest;
      next := at;
    } else {
      assert ss[0] in ss;
      var more := SubscriptionsFields(ss[1..]) + rest;
      assert SubscriptionsFields(ss) + rest == SubscriptionFields(ss[0]) + more;
      SubscriptionParsed(bs, at, ss[0], more, st);
      var a := AfterSubscription(bs, at, st);
      next := SubscriptionsParsed(bs, a.next, ss[1..], rest, a.state, k);
    }
  }

  /** A step response without errors: reading it leaves exactly what its variables say, the last
      word on each of time, departed and arrived vehicles. */
  lemma {:induction false} StepResponseParsed(bs: Bytes, at: nat, ss: seq<Subscription>, st: Step)
    requires Legal(ss) && Holds(bs, at, EncodeAll(TRACI, [Int(|ss|)] + SubscriptionsFields(ss)))
    ensures AfterStep(bs, at, st) == ApplySubscriptions(ss, st)
  {
    hide EncodeAll, Holds, IntAt, AfterSubscription, SubscriptionsFields, ApplySubscriptions;
    var fs := [Int(|ss|)] + SubscriptionsFields(ss);
    Peel(TRACI, bs, at, fs);
    assert fs[1..] == SubscriptionsFields(ss) + [];
    var next := SubscriptionsParsed(bs, at + 4, ss, [], st, 0);
    assert AfterSubscriptions(bs, next, ApplySubscriptions(ss, st), 0) == ApplySubscriptions(ss, st);
  }

  // ---------------------------------------------------------------- step responses with a variable left unread

  /** A variable that is refused, or that the query does not know.  Only these fields are read; the
      value behind them, of whatever type, is not. */
  datatype Unread = Refused(varId: Byte, status: Byte) | Unknown(varId: Byte, typ: Byte)

  ghost predicate LegalUnread(u: Unread) {
    match u
    case Refused(_, status) => status != RTYPE_OK
    case Unknown(varId, _) => varId !in {VAR_DEPARTED_VEHICLES_IDS, VAR_ARRIVED_VEHICLES_IDS, VAR_TIME_STEP}
  }

  ghost function UnreadFields(u: Unread): seq<Field> {
    match u
    case Refused(varId, status) => [UByte(varId), UByte(status)]
    case Unknown(varId, typ) => [UByte(varId), UByte(RTYPE_OK), UByte(typ)]
  }

  /** A response with one such variable: the subscriptions before it, its own with the variables
      before it, the variables after it, and the other subscriptions. */
  datatype Faulty = Faulty(
    before: seq<Subscription>, subscription: Subscription, unread: Unread,
    after: seq<Variable>, others: seq<Subscription>)

  ghost predicate LegalFaulty(r: Faulty) {
    && Legal(r.before) && Legal(r.others) && |r.before| + 1 + |r.others| < 0x8000_0000
    && |r.subscription.variables| + 1 + |r.after| <= 255
    && LegalUnread(r.unread)
    && |EncodeAll(TRACI, Behind(r))| < 0x8000_0000
  }

  /** What follows the unread value. */
  ghost function Behind(r: Faulty): seq<Field>
    requires Legal(r.others)
  {
    AllVariableFields(r.after) + SubscriptionsFields(r.others)
  }

  ghost function FromVariables(r: Faulty, value: Bytes): seq<Field>
    requires Legal(r.others)
  {
    AllVariableFields(r.subscription.variables) + (UnreadFields(r.unread) + ([Raw(value)] + Behind(r)))
  }

  ghost function FaultyFields(r: Faulty, value: Bytes): seq<Field>
    requires LegalFaulty(r)
  {
    [Int(|r.before| + 1 + |r.others|)] +
      (SubscriptionsFields(r.before) +
       (SubscriptionHeader(r.subscription, |r.subscription.variables| + 1 + |r.after|) + FromVariables(r, value)))
  }

  /** What the variables before the unread one say. */
  function SaidBefore(r: Faulty, st: Step): Step {
    ApplyAll(r.subscription.variables, ApplySubscriptions(r.before, st))
  }

  /** What all variables but the unread one say. */
  function SaidByAll(r: Faulty, st: Step): Step {
    ApplySubscriptions(r.others, ApplyAll(r.after, SaidBefore(r, st)))
  }

  /** Reading on with `m` variables and `k` subscriptions still expected. */
  function ReadOn(bs: Bytes, at: nat, st: Step, m: nat, k: nat): Step {
    var a := AfterVariables(bs, at, st, m);
    AfterSubscriptions(bs, a.next, a.state, k)
  }

  /** Reading goes on with the first byte of the value, as if it were the next variable. */
  lemma {:induction false} ReadUpToValue(bs: Bytes, at: nat, r: Faulty, value: Bytes, st: Step) returns (next: nat)
    requires LegalFaulty(r) && Holds(bs, at, EncodeAll(TRACI, FaultyFields(r, value)))
    ensures AfterStep(bs, at, st) == ReadOn(bs, next, SaidBefore(r, st), |r.after|, |r.others|)
    ensures Parsed(bs, at, FaultyFields(r, value), next, [Raw(value)] + Behind(r))
  {
    hide EncodeAll, Holds, IntAt, AfterVariable, AfterSubscription, AllVariableFields, SubscriptionsFields,
         SubscriptionHeader, UnreadFields, Behind, ApplyAll, ApplySubscriptions;
    var s := r.subscription;
    var count := |s.variables| + 1 + |r.after|;
    var fs := FaultyFields(r, value);
    var own := SubscriptionHeader(s, count) + FromVariables(r, value);
    var rest := UnreadFields(r.unread) + ([Raw(value)] + Behind(r));
    Peel(TRACI, bs, at, fs);
    assert fs[1..] == SubscriptionsFields(r.before) + own;
    var reached := ApplySubscriptions(r.before, st);
    var n := SubscriptionsParsed(bs, at + 4, r.before, own, st, 1 + |r.others|);
    var v := HeaderParsed(bs, n, s, count, FromVariables(r, value), reached);
    var u := VariablesParsed(bs, v, s.variables, rest, reached, 1 + |r.after|);
    next := UnreadSkipped(bs, u, r.unread, [Raw(value)] + Behind(r), SaidBefore(r, st));
    assert AfterVariables(bs, u, SaidBefore(r, st), 1 + |r.after|) ==
           AfterVariables(bs, next, SaidBefore(r, st), |r.after|);
  }

  lemma {:induction false} UnreadSkipped(bs: Bytes, at: nat, u: Unread, rest: seq<Field>, st: Step)
    returns (next: nat)
    requires LegalUnread(u) && Holds(bs, at, EncodeAll(TRACI, UnreadFields(u) + rest))
    ensures AfterVariable(bs, at, st) == Advance(st, next, true)
    ensures Parsed(bs, at, UnreadFields(u) + rest, next, rest)
  {
    hide EncodeAll, Encode, Holds, ByteAt;
    var fs := UnreadFields(u) + rest;
    Peel(TRACI, bs, at, fs);
    Peel(TRACI, bs, at + 1, fs[1..]);
    assert fs[1..][1..] == fs[2..];
    if u.Refused? {
      next := at + 2;
      assert fs[2..] == rest;
    } else {
      next := at + 3;
      assert fs[2..][1..] == rest;
      Peel(TRACI, bs, at + 2, fs[2..]);
    }
  }

  /** At the end of the buffer nothing more is read. */
  lemma {:induction false} NothingLeft(bs: Bytes, st: Step, m: nat, k: nat)
    ensures AfterVariables(bs, |bs|, st, m).state == st && AfterVariables(bs, |bs|, st, m).next == |bs|
    ensures AfterSubscriptions(bs, |bs|, st, k) == st
    decreases m + k
  {
    if m > 0 {
      assert AfterVariable(bs, |bs|, st) == Advance(st, |bs|, false);
    }
    if k > 0 {
      assert AfterSubscription(bs, |bs|, st) == Answered(st, |bs|, false);
      NothingLeft(bs, st, 0, k - 1);
    }
  }

  /** Fields that, where a variable or else a subscription is expected, list departed vehicles. */
  ghost function Misleading(variable: bool, ids: TextList): seq<Field> {
    if variable then OneVariableFields(Departed(0, ids))
    else SubscriptionFields(Subscription(0, 0, [], [Departed(0, ids)]))
  }

  /** When they are all that is left, they are what is reported in the end. */
  lemma {:induction false} Misled(bs: Bytes, at: nat, ids: TextList, st: Step, m: nat, k: nat)
    requires m > 0 || k > 0
    requires at <= |bs| && bs[at..] == EncodeAll(TRACI, Misleading(m > 0, ids))
    ensures ReadOn(bs, at, st, m, k).departed == ids
  {
    hide EncodeAll, OneVariableFields, SubscriptionFields, AfterVariable, AfterSubscription;
    var fs := Misleading(m > 0, ids);
    assert fs + [] == fs;
    EncodeNone(TRACI);
    if m > 0 {
      OneVariableParsed(bs, at, Departed(0, ids), [], st);
      NothingLeft(bs, AfterVariable(bs, at, st).state, m - 1, k);
    } else {
      SubscriptionParsed(bs, at, Subscription(0, 0, [], [Departed(0, ids)]), [], st);
      NothingLeft(bs, AfterSubscription(bs, at, st).state, 0, k - 1);
    }
  }

  /** A list of texts ends with its last text, so a value can make whatever follows it that text. */
  lemma {:induction false} MisleadingEnds(variable: bool, lead: seq<Text>, tail: Text) returns (value: Bytes)
    requires lead == [] || lead == [[]]
    ensures value + tail == EncodeAll(TRACI, Misleading(variable, lead + [tail]))
  {
    hide EncodeAll, EncodeInt;
    var ids := lead + [tail];
    var fs := Misleading(variable, ids);
    assert AllVariableFields([Departed(0, ids)]) == OneVariableFields(Departed(0, ids));
    var front := fs[..|fs| - 1];
    assert fs == front + [StrList(ids)];
    EncodeSnoc(TRACI, front, StrList(ids));
    var before := if lead == [] then [] else EncodeText(TRACI, []);
    assert EncodeTexts(TRACI, [tail]) == EncodeText(TRACI, tail);
    assert lead != [] ==> ids[1..] == [tail];
    assert EncodeTexts(TRACI, ids) == before + EncodeText(TRACI, tail);
    value := EncodeAll(TRACI, front) + EncodeInt(TRACI, |ids|) + before + EncodeInt(TRACI, |tail|);
    assert value + tail == EncodeAll(TRACI, front) + (EncodeInt(TRACI, |ids|) + (before + EncodeText(TRACI, tail)));
  }

  /** Where something follows, some value makes the reader report `lead` and what follows as departed. */
  lemma {:induction false} SomeValueMisleads(prefix: Bytes, r: Faulty, lead: seq<Text>, st: Step) returns (value: Bytes)
    requires LegalFaulty(r) && (r.after != [] || r.others != []) && (lead == [] || lead == [[]])
    ensures AfterStep(prefix + EncodeAll(TRACI, FaultyFields(r, value)), |prefix|, st).departed ==
              lead + [EncodeAll(TRACI, Behind(r))]
  {
    hide EncodeAll, Holds, AfterStep, FaultyFields, ReadOn, Misleading, Behind;
    var tail := EncodeAll(TRACI, Behind(r));
    value := MisleadingEnds(r.after != [], lead, tail);
    var whole := EncodeAll(TRACI, FaultyFields(r, value));
    var bs := prefix + whole;
    AtEnd(prefix, whole);
    var next := ReadUpToValue(bs, |prefix|, r, value, st);
    RawFirst(value, Behind(r));
    ToTheEnd(bs, next, value + tail);
    Misled(bs, next, lead + [tail], SaidBefore(r, st), |r.after|, |r.others|);
  }

  lemma AtEnd(prefix: Bytes, whole: Bytes)
    ensures Holds(prefix + whole, |prefix|, whole)
  {
    assert (prefix + whole)[|prefix|..|prefix| + |whole|] == whole;
  }

  lemma ToTheEnd(bs: Bytes, at: nat, piece: Bytes)
    requires Holds(bs, at, piece) && at + |piece| == |bs|
    ensures bs[at..] == piece
  {
  }

  lemma {:induction false} RawFirst(value: Bytes, rest: seq<Field>)
    ensures EncodeAll(TRACI, [Raw(value)] + rest) == value + EncodeAll(TRACI, rest)
  {
    EncodeHead(TRACI, [Raw(value)] + rest);
    assert ([Raw(value)] + rest)[1..] == rest;
  }

  /** A response with a refused or unknown variable is read right whatever the value of that variable
      if and only if it is the last variable of the last subscription. */
  lemma {:induction false} UnreadIsHarmlessIff(prefix: Bytes, r: Faulty, st: Step)
    requires LegalFaulty(r)
    ensures (forall value: Bytes ::
               AfterStep(prefix + EncodeAll(TRACI, FaultyFields(r, value)), |prefix|, st) == SaidByAll(r, st)) <==>
              r.after == [] && r.others == []
  {
    hide EncodeAll, Holds, AfterStep, FaultyFields;
    if r.after == [] && r.others == [] {
      forall value: Bytes
        ensures AfterStep(prefix + EncodeAll(TRACI, FaultyFields(r, value)), |prefix|, st) == SaidByAll(r, st)
      {
        var whole := EncodeAll(TRACI, FaultyFields(r, value));
        AtEnd(prefix, whole);
        var next := ReadUpToValue(prefix + whole, |prefix|, r, value, st);
      }
    } else {
      var one := SomeValueMisleads(prefix, r, [], st);
      var two := SomeValueMisleads(prefix, r, [[]], st);
    }
  }
}
