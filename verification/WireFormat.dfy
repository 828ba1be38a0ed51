/** Bytes on the wire: numbers, strings and string lists as src/traci/storage.cpp and the packets of
src/ovnisPacket.cpp lay them out.

A message is described by the list of its fields.  Reading is a function of the bytes and a cursor;
a failed read says where it leaves the cursor.
*/
module WireFormat {

  type Byte = x: int | 0 <= x < 256
  type Bytes = seq<Byte>
  type Int32 = x: int | -0x8000_0000 <= x < 0x8000_0000
  /** The 64-bit image of a double. */
  type Double64 = x: int | 0 <= x < 0x1_0000_0000_0000_0000
  type Text = t: seq<Byte> | |t| < 0x8000_0000
  type TextList = ts: seq<Text> | |ts| < 0x8000_0000

  // ---------------------------------------------------------------- numbers

  function Pow256(n: nat): (p: nat)
    ensures p > 0
  {
    if n == 0 then 1 else 256 * Pow256(n - 1)
  }

  function BigEndian(v: nat, n: nat): (bs: Bytes)
    ensures |bs| == n
  {
    if n == 0 then [] else BigEndian(v / 256, n - 1) + [v % 256]
  }

  function LittleEndian(v: nat, n: nat): (bs: Bytes)
    ensures |bs| == n
  {
    if n == 0 then [] else [v % 256] + LittleEndian(v / 256, n - 1)
  }

  function BigValue(bs: Bytes): (v: nat)
    ensures v < Pow256(|bs|)
  {
    if bs == [] then 0 else 256 * BigValue(bs[..|bs| - 1]) + bs[|bs| - 1]
  }

  function LittleValue(bs: Bytes): (v: nat)
    ensures v < Pow256(|bs|)
  {
    if bs == [] then 0 else bs[0] + 256 * LittleValue(bs[1..])
  }

  function Reversed(bs: Bytes): (r: Bytes)
    ensures |r| == |bs|
    ensures forall i :: 0 <= i < |bs| ==> r[i] == bs[|bs| - 1 - i]
  {
    seq(|bs|, i requires 0 <= i < |bs| => bs[|bs| - 1 - i])
  }

  lemma {:induction false} BigRoundTrip(v: nat, n: nat)
    requires v < Pow256(n)
    ensures BigValue(BigEndian(v, n)) == v
  {
    if n > 0 {
      BigRoundTrip(v / 256, n - 1);
      assert BigEndian(v, n)[..n - 1] == BigEndian(v / 256, n - 1);
    }
  }

  lemma {:induction false} BigValueBack(bs: Bytes)
    ensures BigEndian(BigValue(bs), |bs|) == bs
  {
    if bs != [] {
      var init, last := bs[..|bs| - 1], bs[|bs| - 1];
      BigValueBack(init);
      assert BigValue(bs) / 256 == BigValue(init) && BigValue(bs) % 256 == last;
      assert bs == init + [last];
    }
  }

  lemma ReversedEnds(bs: Bytes, x: Byte)
    ensures Reversed([x] + bs) == Reversed(bs) + [x]
    ensures Reversed(bs + [x]) == [x] + Reversed(bs)
  {
  }

  /** The two byte orders are mirror images, both ways. */
  lemma {:induction false} MirrorImages(v: nat, n: nat)
    ensures Reversed(LittleEndian(v, n)) == BigEndian(v, n)
    ensures Reversed(BigEndian(v, n)) == LittleEndian(v, n)
  {
    if n > 0 {
      MirrorImages(v / 256, n - 1);
      ReversedEnds(LittleEndian(v / 256, n - 1), v % 256);
      ReversedEnds(BigEndian(v / 256, n - 1), v % 256);
      hide Reversed;
    }
  }

  lemma {:induction false} MirrorValue(bs: Bytes)
    ensures LittleValue(bs) == BigValue(Reversed(bs))
  {
    if bs != [] {
      MirrorValue(bs[1..]);
      assert Reversed(bs)[..|bs| - 1] == Reversed(bs[1..]);
    }
  }

  function InOrder(big: bool, v: nat, n: nat): (bs: Bytes)
    ensures |bs| == n
  {
    if big then BigEndian(v, n) else LittleEndian(v, n)
  }

  function FromOrder(big: bool, bs: Bytes): (v: nat)
    ensures v < Pow256(|bs|)
  {
    if big then BigValue(bs) else LittleValue(bs)
  }

  lemma {:induction false} OrderRoundTrip(big: bool, v: nat, n: nat)
    requires v < Pow256(n)
    ensures FromOrder(big, InOrder(big, v, n)) == v
  {
    BigRoundTrip(v, n);
    MirrorImages(v, n);
    MirrorValue(LittleEndian(v, n));
  }

  lemma OrderBack(big: bool, bs: Bytes)
    ensures InOrder(big, FromOrder(big, bs), |bs|) == bs
  {
    hide BigValue, LittleValue, BigEndian, LittleEndian;
    if big {
      BigValueBack(bs);
    } else {
      var mirror := Reversed(bs);
      BigValueBack(mirror);
      MirrorValue(bs);
      MirrorImages(LittleValue(bs), |bs|);
      assert Reversed(mirror) == bs;
    }
  }

  lemma PowersOf256()
    ensures Pow256(4) == 0x1_0000_0000 && Pow256(8) == 0x1_0000_0000_0000_0000
  {
    assert Pow256(2) == 0x1_0000 && Pow256(3) == 0x100_0000;
    assert Pow256(6) == 0x1_0000_0000_0000;
  }

  /** Two's complement. */
  function Unsigned32(v: Int32): (u: nat) ensures u < 0x1_0000_0000 {
    if v < 0 then v + 0x1_0000_0000 else v
  }

  function Signed32(u: nat): (v: Int32) requires u < 0x1_0000_0000 {
    if u < 0x8000_0000 then u else u - 0x1_0000_0000
  }

  function Word(a: int, b: int, c: int, d: int): int {
    0x100_0000 * a + 0x1_0000 * b + 0x100 * c + d
  }

  /** Most significant byte first, written out; the other order is its mirror image. */
  lemma {:induction false} PlaceValues(v: nat)
    requires v < 0x1_0000_0000
    ensures var b := InOrder(true, v, 4);
            Word(b[0], b[1], b[2], b[3]) == v
    ensures var b := InOrder(false, v, 4);
            Word(b[3], b[2], b[1], b[0]) == v
  {
    PowersOf256();
    BigRoundTrip(v, 4);
    MirrorImages(v, 4);
    FourDigits(BigEndian(v, 4));
    hide BigEndian, LittleEndian, BigValue;
  }

  lemma FourDigits(b: Bytes)
    requires |b| == 4
    ensures BigValue(b) == Word(b[0], b[1], b[2], b[3])
  {
    assert b[..3][..2] == b[..2] && b[..2][..1] == b[..1] && b[..1][..0] == [];
    assert BigValue(b[..1]) == b[0];
    assert BigValue(b[..2]) == 0x100 * b[0] as int + b[1] as int;
    assert BigValue(b[..3]) == 0x100 * BigValue(b[..2]) + b[2] as int;
  }

  // ---------------------------------------------------------------- fields

  /** Byte order of integers and of doubles: most significant byte first where true. */
  datatype Format = Format(bigInts: bool, bigDoubles: bool)

  datatype Field =
    | UByte(b: Byte)
    | Int(i: Int32)
    | Real(d: Double64)
    | Str(t: Text)
    | StrList(ts: TextList)
    | Raw(bs: Bytes)

  datatype Tag = UByteTag | IntTag | RealTag | StrTag | StrListTag | RawTag

  function TagOf(f: Field): Tag {
    match f
    case UByte(_) => UByteTag
    case Int(_) => IntTag
    case Real(_) => RealTag
    case Str(_) => StrTag
    case StrList(_) => StrListTag
    case Raw(_) => RawTag
  }

  function Tags(fs: seq<Field>): (ts: seq<Tag>)
    ensures |ts| == |fs| && forall i :: 0 <= i < |fs| ==> ts[i] == TagOf(fs[i])
  {
    seq(|fs|, i requires 0 <= i < |fs| => TagOf(fs[i]))
  }

  function EncodeInt(fmt: Format, v: Int32): (bs: Bytes)
    ensures |bs| == 4
  {
    InOrder(fmt.bigInts, Unsigned32(v), 4)
  }

  function EncodeReal(fmt: Format, d: Double64): (bs: Bytes)
    ensures |bs| == 8
  {
    InOrder(fmt.bigDoubles, d, 8)
  }

  function EncodeText(fmt: Format, t: Text): (bs: Bytes)
    ensures |bs| == 4 + |t|
  {
    EncodeInt(fmt, |t|) + t
  }

  function EncodeTexts(fmt: Format, ts: seq<Text>): Bytes {
    if ts == [] then [] else EncodeText(fmt, ts[0]) + EncodeTexts(fmt, ts[1..])
  }

  function Encode(fmt: Format, f: Field): Bytes {
    match f
    case UByte(b) => [b]
    case Int(i) => EncodeInt(fmt, i)
    case Real(d) => EncodeReal(fmt, d)
    case Str(t) => EncodeText(fmt, t)
    case StrList(ts) => EncodeInt(fmt, |ts|) + EncodeTexts(fmt, ts)
    case Raw(bs) => bs
  }

  function EncodeAll(fmt: Format, fs: seq<Field>): Bytes {
    if fs == [] then [] else EncodeAll(fmt, fs[..|fs| - 1]) + Encode(fmt, fs[|fs| - 1])
  }

  lemma {:induction false} EncodeSnoc(fmt: Format, fs: seq<Field>, f: Field)
    ensures EncodeAll(fmt, fs + [f]) == EncodeAll(fmt, fs) + Encode(fmt, f)
  {
    assert (fs + [f])[..|fs|] == fs;
  }

  lemma {:induction false} EncodeConcat(fmt: Format, a: seq<Field>, b: seq<Field>)
    ensures EncodeAll(fmt, a + b) == EncodeAll(fmt, a) + EncodeAll(fmt, b)
  {
    hide Encode;
    if b == [] {
      assert a + b == a;
    } else {
      var c, f := b[..|b| - 1], b[|b| - 1];
      EncodeConcat(fmt, a, c);
      assert b == c + [f] && a + b == (a + c) + [f];
      EncodeSnoc(fmt, a + c, f);
      EncodeSnoc(fmt, c, f);
      hide EncodeAll;
    }
  }

  // ---------------------------------------------------------------- reading

  datatype Read<+T> = Read(value: T, next: nat) | Invalid(next: nat)

  /** The texts read so far, the cursor, and whether all of them were read. */
  datatype Listing = Listing(texts: seq<Text>, next: nat, complete: bool)

  function BytesAt(bs: Bytes, at: nat, n: nat): (r: Read<Bytes>)
    ensures r.Read? ==> |r.value| == n
  {
    if |bs| - at < n then Invalid(at) else Read(bs[at..at + n], at + n)
  }

  function ByteAt(bs: Bytes, at: nat): Read<Byte> {
    if at < |bs| then Read(bs[at], at + 1) else Invalid(at)
  }

  function IntAt(fmt: Format, bs: Bytes, at: nat): Read<Int32> {
    PowersOf256();
    match BytesAt(bs, at, 4)
    case Invalid(n) => Invalid(n)
    case Read(b, n) => Read(Signed32(FromOrder(fmt.bigInts, b)), n)
  }

  function RealAt(fmt: Format, bs: Bytes, at: nat): Read<Double64> {
    PowersOf256();
    match BytesAt(bs, at, 8)
    case Invalid(n) => Invalid(n)
    case Read(b, n) => Read(FromOrder(fmt.bigDoubles, b), n)
  }

  function TextAt(fmt: Format, bs: Bytes, at: nat): Read<Text> {
    match IntAt(fmt, bs, at)
    case Invalid(n) => Invalid(n)
    case Read(len, n) =>
      if len < 0 then Invalid(n)
      else
        match BytesAt(bs, n, len)
        case Invalid(m) => Invalid(m)
        case Read(t, m) => Read(t, m)
  }

  function TextsAt(fmt: Format, bs: Bytes, at: nat, count: nat): (r: Listing)
    ensures if r.complete then |r.texts| == count else |r.texts| < count
    decreases count
  {
    if count == 0 then Listing([], at, true)
    else
      match TextAt(fmt, bs, at)
      case Invalid(n) => Listing([], n, false)
      case Read(t, n) =>
        var rest := TextsAt(fmt, bs, n, count - 1);
        Listing([t] + rest.texts, rest.next, rest.complete)
  }

  function TextListAt(fmt: Format, bs: Bytes, at: nat): Read<TextList> {
    match IntAt(fmt, bs, at)
    case Invalid(n) => Invalid(n)
    case Read(len, n) =>
      if len < 0 then Invalid(n)
      else
        var r := TextsAt(fmt, bs, n, len);
        if r.complete then Read(r.texts, r.next) else Invalid(r.next)
  }

  function FieldAt(fmt: Format, tag: Tag, bs: Bytes, at: nat): Read<Field> {
    match tag
    case UByteTag => (match ByteAt(bs, at) case Read(v, n) => Read(UByte(v), n) case Invalid(n) => Invalid(n))
    case IntTag => (match IntAt(fmt, bs, at) case Read(v, n) => Read(Int(v), n) case Invalid(n) => Invalid(n))
    case RealTag => (match RealAt(fmt, bs, at) case Read(v, n) => Read(Real(v), n) case Invalid(n) => Invalid(n))
    case StrTag => (match TextAt(fmt, bs, at) case Read(v, n) => Read(Str(v), n) case Invalid(n) => Invalid(n))
    case StrListTag =>
      (match TextListAt(fmt, bs, at) case Read(v, n) => Read(StrList(v), n) case Invalid(n) => Invalid(n))
    case RawTag => Invalid(at)
  }

  function FieldsAt(fmt: Format, tags: seq<Tag>, bs: Bytes, at: nat): Read<seq<Field>> {
    if tags == [] then Read([], at)
    else
      match FieldAt(fmt, tags[0], bs, at)
      case Invalid(n) => Invalid(n)
      case Read(f, n) =>
        match FieldsAt(fmt, tags[1..], bs, n)
        case Invalid(m) => Invalid(m)
        case Read(fs, m) => Read([f] + fs, m)
  }

  // ---------------------------------------------------------------- round trips

  /** The bytes from `at` on begin with `piece`. */
  predicate Holds(bs: Bytes, at: nat, piece: Bytes) {
    at + |piece| <= |bs| && bs[at..at + |piece|] == piece
  }

  lemma HoldsBoth(bs: Bytes, at: nat, a: Bytes, b: Bytes)
    ensures Holds(bs, at, a + b) <==> Holds(bs, at, a) && Holds(bs, at + |a|, b)
  {
    if at + |a| + |b| <= |bs| {
      assert bs[at..at + |a + b|] == bs[at..at + |a|] + bs[at + |a|..at + |a| + |b|];
      if Holds(bs, at, a + b) {
        assert a == (a + b)[..|a|] && b == (a + b)[|a|..];
        assert bs[at..at + |a|] == bs[at..at + |a + b|][..|a|];
        assert bs[at + |a|..at + |a| + |b|] == bs[at..at + |a + b|][|a|..];
      }
    }
  }

  lemma IntIff(fmt: Format, bs: Bytes, at: nat, v: Int32)
    ensures IntAt(fmt, bs, at) == Read(v, at + 4) <==> Holds(bs, at, EncodeInt(fmt, v))
    ensures IntAt(fmt, bs, at).Read? <==> at + 4 <= |bs|
    ensures IntAt(fmt, bs, at).Read? ==> IntAt(fmt, bs, at).next == at + 4
  {
    PowersOf256();
    OrderRoundTrip(fmt.bigInts, Unsigned32(v), 4);
    if at + 4 <= |bs| {
      OrderBack(fmt.bigInts, bs[at..at + 4]);
      assert |bs[at..at + 4]| == 4;
    }
  }

  lemma RealIff(fmt: Format, bs: Bytes, at: nat, d: Double64)
    ensures RealAt(fmt, bs, at) == Read(d, at + 8) <==> Holds(bs, at, EncodeReal(fmt, d))
    ensures RealAt(fmt, bs, at).Read? <==> at + 8 <= |bs|
    ensures RealAt(fmt, bs, at).Read? ==> RealAt(fmt, bs, at).next == at + 8
  {
    PowersOf256();
    OrderRoundTrip(fmt.bigDoubles, d, 8);
    if at + 8 <= |bs| {
      OrderBack(fmt.bigDoubles, bs[at..at + 8]);
      assert |bs[at..at + 8]| == 8;
    }
  }

  lemma TextIff(fmt: Format, bs: Bytes, at: nat, t: Text)
    ensures TextAt(fmt, bs, at) == Read(t, at + 4 + |t|) <==> Holds(bs, at, EncodeText(fmt, t))
    ensures TextAt(fmt, bs, at).Read? ==>
              TextAt(fmt, bs, at).next == at + 4 + |TextAt(fmt, bs, at).value|
  {
    hide IntAt, EncodeInt;
    IntIff(fmt, bs, at, |t|);
    HoldsBoth(bs, at, EncodeInt(fmt, |t|), t);
  }

  lemma {:induction false} TextsStep(fmt: Format, bs: Bytes, at: nat, ts: seq<Text>)
    requires ts != []
    ensures EncodeTexts(fmt, ts) == EncodeText(fmt, ts[0]) + EncodeTexts(fmt, ts[1..])
    ensures TextAt(fmt, bs, at).Read? ==>
              var head := TextAt(fmt, bs, at);
              var tail := TextsAt(fmt, bs, head.next, |ts| - 1);
              TextsAt(fmt, bs, at, |ts|) == Listing([head.value] + tail.texts, tail.next, tail.complete)
    ensures TextAt(fmt, bs, at).Invalid? ==> !TextsAt(fmt, bs, at, |ts|).complete
  {
    hide TextAt, EncodeText;
  }

  lemma {:induction false} TextsRead(fmt: Format, bs: Bytes, at: nat, ts: seq<Text>)
    requires Holds(bs, at, EncodeTexts(fmt, ts))
    ensures TextsAt(fmt, bs, at, |ts|) == Listing(ts, at + |EncodeTexts(fmt, ts)|, true)
    decreases ts
  {
    hide TextAt, EncodeText, Holds;
    if ts != [] {
      hide TextsAt, EncodeTexts;
      var first, rest := ts[0], ts[1..];
      TextsStep(fmt, bs, at, ts);
      HoldsBoth(bs, at, EncodeText(fmt, first), EncodeTexts(fmt, rest));
      TextIff(fmt, bs, at, first);
      TextsRead(fmt, bs, at + 4 + |first|, rest);
      assert [first] + rest == ts;
    }
  }

  lemma {:induction false} TextsOnly(fmt: Format, bs: Bytes, at: nat, ts: seq<Text>)
    requires at <= |bs|
    requires var r := TextsAt(fmt, bs, at, |ts|); r.complete && r.texts == ts
    ensures Holds(bs, at, EncodeTexts(fmt, ts))
    decreases ts
  {
    if ts != [] {
      hide TextAt, EncodeText, Holds, TextsAt, EncodeTexts;
      TextsStep(fmt, bs, at, ts);
      var head := TextAt(fmt, bs, at);
      var tail := TextsAt(fmt, bs, head.next, |ts| - 1);
      assert ([head.value] + tail.texts)[1..] == tail.texts;
      TextIff(fmt, bs, at, ts[0]);
      assert head.next <= |bs| by { TextEnds(fmt, bs, at); }
      TextsOnly(fmt, bs, head.next, ts[1..]);
      HoldsBoth(bs, at, EncodeText(fmt, ts[0]), EncodeTexts(fmt, ts[1..]));
    }
  }

  lemma TextEnds(fmt: Format, bs: Bytes, at: nat)
    ensures TextAt(fmt, bs, at).Read? ==> TextAt(fmt, bs, at).next <= |bs|
  {
  }

  lemma {:induction false} TextsIff(fmt: Format, bs: Bytes, at: nat, ts: seq<Text>)
    requires at <= |bs|
    ensures var r := TextsAt(fmt, bs, at, |ts|);
            && (Holds(bs, at, EncodeTexts(fmt, ts)) <==> r.complete && r.texts == ts)
            && (Holds(bs, at, EncodeTexts(fmt, ts)) ==> r.next == at + |EncodeTexts(fmt, ts)|)
  {
    hide TextsAt, EncodeTexts, Holds;
    var r := TextsAt(fmt, bs, at, |ts|);
    if Holds(bs, at, EncodeTexts(fmt, ts)) { TextsRead(fmt, bs, at, ts); }
    if r.complete && r.texts == ts { TextsOnly(fmt, bs, at, ts); }
  }

  lemma TextListIff(fmt: Format, bs: Bytes, at: nat, ts: TextList)
    ensures TextListAt(fmt, bs, at) == Read(ts, at + |Encode(fmt, StrList(ts))|) <==>
              Holds(bs, at, Encode(fmt, StrList(ts)))
    ensures TextListAt(fmt, bs, at).Read? && TextListAt(fmt, bs, at).value == ts ==>
              TextListAt(fmt, bs, at).next == at + |Encode(fmt, StrList(ts))|
  {
    hide IntAt, EncodeInt, TextsAt, EncodeTexts;
    IntIff(fmt, bs, at, |ts|);
    if at + 4 <= |bs| { TextsIff(fmt, bs, at + 4, ts); }
    HoldsBoth(bs, at, EncodeInt(fmt, |ts|), EncodeTexts(fmt, ts));
  }

  /** Reading a field yields it exactly when its encoding is there; the cursor then stands behind it. */
  lemma FieldIff(fmt: Format, bs: Bytes, at: nat, f: Field)
    requires !f.Raw?
    ensures FieldAt(fmt, TagOf(f), bs, at) == Read(f, at + |Encode(fmt, f)|) <==> Holds(bs, at, Encode(fmt, f))
    ensures FieldAt(fmt, TagOf(f), bs, at).Read? && FieldAt(fmt, TagOf(f), bs, at).value == f ==>
              FieldAt(fmt, TagOf(f), bs, at).next == at + |Encode(fmt, f)|
  {
    hide IntAt, RealAt, TextAt, TextListAt, EncodeInt, EncodeReal, EncodeText, EncodeTexts;
    match f
    case UByte(b) =>
    case Int(i) => IntIff(fmt, bs, at, i);
    case Real(d) => RealIff(fmt, bs, at, d);
    case Str(t) => TextIff(fmt, bs, at, t);
    case StrList(ts) => TextListIff(fmt, bs, at, ts);
  }

  lemma {:induction false} EncodeHead(fmt: Format, fs: seq<Field>)
    requires fs != []
    ensures EncodeAll(fmt, fs) == Encode(fmt, fs[0]) + EncodeAll(fmt, fs[1..])
  {
    hide EncodeAll, Encode;
    EncodeConcat(fmt, [fs[0]], fs[1..]);
    assert fs == [fs[0]] + fs[1..];
    EncodeSnoc(fmt, [], fs[0]);
    EncodeNone(fmt);
    assert [] + [fs[0]] == [fs[0]];
  }

  lemma {:induction false} FieldsRead(fmt: Format, bs: Bytes, at: nat, fs: seq<Field>)
    requires forall f :: f in fs ==> !f.Raw?
    requires Holds(bs, at, EncodeAll(fmt, fs))
    ensures FieldsAt(fmt, Tags(fs), bs, at) == Read(fs, at + |EncodeAll(fmt, fs)|)
    decreases fs
  {
    hide FieldAt, Encode, EncodeAll, Holds;
    if fs != [] {
      var f, rest := fs[0], fs[1..];
      assert f in fs && Tags(fs)[0] == TagOf(f) && Tags(fs)[1..] == Tags(rest) && fs == [f] + rest;
      EncodeHead(fmt, fs);
      HoldsBoth(bs, at, Encode(fmt, f), EncodeAll(fmt, rest));
      FieldIff(fmt, bs, at, f);
      FieldsRead(fmt, bs, at + |Encode(fmt, f)|, rest);
    } else {
      EncodeNone(fmt);
    }
  }

  lemma {:induction false} EncodeNone(fmt: Format)
    ensures EncodeAll(fmt, []) == []
  {
  }

  lemma {:induction false} FieldsOnly(fmt: Format, bs: Bytes, at: nat, fs: seq<Field>)
    requires at <= |bs|
    requires forall f :: f in fs ==> !f.Raw?
    requires var r := FieldsAt(fmt, Tags(fs), bs, at); r.Read? && r.value == fs
    ensures Holds(bs, at, EncodeAll(fmt, fs))
    decreases fs
  {
    hide FieldAt, Encode, EncodeAll;
    if fs != [] {
      var f, rest := fs[0], fs[1..];
      assert f in fs && Tags(fs)[0] == TagOf(f) && Tags(fs)[1..] == Tags(rest);
      var head := FieldAt(fmt, TagOf(f), bs, at);
      var tail := FieldsAt(fmt, Tags(rest), bs, head.next);
      assert fs == [head.value] + tail.value;
      assert head.value == f && tail.value == rest;
      FieldIff(fmt, bs, at, f);
      FieldsOnly(fmt, bs, head.next, rest);
      EncodeHead(fmt, fs);
      HoldsBoth(bs, at, Encode(fmt, f), EncodeAll(fmt, rest));
    } else {
      EncodeNone(fmt);
    }
  }

  /** The same for a whole message: the decoder recovers every field, and only from that message. */
  lemma {:induction false} FieldsIff(fmt: Format, bs: Bytes, at: nat, fs: seq<Field>)
    requires at <= |bs|
    requires forall f :: f in fs ==> !f.Raw?
    ensures var r := FieldsAt(fmt, Tags(fs), bs, at);
            && (Holds(bs, at, EncodeAll(fmt, fs)) <==> r.Read? && r.value == fs)
            && (Holds(bs, at, EncodeAll(fmt, fs)) ==> r.next == at + |EncodeAll(fmt, fs)|)
  {
    hide FieldsAt, EncodeAll, Holds;
    var r := FieldsAt(fmt, Tags(fs), bs, at);
    if Holds(bs, at, EncodeAll(fmt, fs)) { FieldsRead(fmt, bs, at, fs); }
    if r.Read? && r.value == fs { FieldsOnly(fmt, bs, at, fs); }
  }

  /** Two messages of the same shape with the same bytes are the same message. */
  lemma {:induction false} EncodingIsInjective(fmt: Format, a: seq<Field>, b: seq<Field>)
    requires forall f :: f in a + b ==> !f.Raw?
    requires Tags(a) == Tags(b) && EncodeAll(fmt, a) == EncodeAll(fmt, b)
    ensures a == b
  {
    var bs := EncodeAll(fmt, a);
    assert bs[0..|bs|] == bs;
    FieldsIff(fmt, bs, 0, a);
    FieldsIff(fmt, bs, 0, b);
  }

  lemma WholeHolds(bs: Bytes)
    ensures Holds(bs, 0, bs)
  {
    assert bs[0..|bs|] == bs;
  }

  /** Takes the first field off a message. */
  lemma {:induction false} Peel(fmt: Format, bs: Bytes, at: nat, fs: seq<Field>)
    requires fs != [] && !fs[0].Raw? && Holds(bs, at, EncodeAll(fmt, fs))
    ensures at + |Encode(fmt, fs[0])| <= |bs|
    ensures |EncodeAll(fmt, fs)| == |Encode(fmt, fs[0])| + |EncodeAll(fmt, fs[1..])|
    ensures Holds(bs, at + |Encode(fmt, fs[0])|, EncodeAll(fmt, fs[1..]))
    ensures match fs[0]
            case UByte(b) => |Encode(fmt, fs[0])| == 1 && ByteAt(bs, at) == Read(b, at + 1)
            case Int(i) => |Encode(fmt, fs[0])| == 4 && IntAt(fmt, bs, at) == Read(i, at + 4)
            case Real(d) => |Encode(fmt, fs[0])| == 8 && RealAt(fmt, bs, at) == Read(d, at + 8)
            case Str(t) => |Encode(fmt, fs[0])| == 4 + |t| && TextAt(fmt, bs, at) == Read(t, at + 4 + |t|)
            case StrList(ts) => TextListAt(fmt, bs, at) == Read(ts, at + |Encode(fmt, fs[0])|)
  {
    hide EncodeAll, IntAt, RealAt, TextAt, TextListAt, EncodeInt, EncodeReal, EncodeText, EncodeTexts;
    EncodeHead(fmt, fs);
    HoldsBoth(bs, at, Encode(fmt, fs[0]), EncodeAll(fmt, fs[1..]));
    match fs[0]
    case UByte(b) =>
    case Int(i) => IntIff(fmt, bs, at, i);
    case Real(d) => RealIff(fmt, bs, at, d);
    case Str(t) => TextIff(fmt, bs, at, t);
    case StrList(ts) => TextListIff(fmt, bs, at, ts);
  }
}
