/** The byte buffer of src/traci/storage.cpp: typed writers at the end, typed readers at a cursor.

`hostIsBig` is the byte order of the machine; numbers are written from their memory image, so the
order matters to the code and must not matter to the result.
*/
module TraciStorage {
  import opened WireFormat

  /** Most significant byte first. */
  const TRACI := Format(true, true)

  class Storage {
    var store: Bytes
    var iter: nat
    const bigEndian: bool
    /** What was written since the buffer was last empty. */
    ghost var written: seq<Field>

    ghost predicate Valid()
      reads this
    {
      iter <= |store| && store == EncodeAll(TRACI, written)
    }

    /** One more field stands at the end; every write rewinds the cursor. */
    twostate predicate Appended(f: Field)
      reads this
    {
      Valid() && store == old(store) + Encode(TRACI, f) && written == old(written) + [f] && iter == 0
    }

    /** The order of the host is found by looking at the first byte of the short 0x0102. */
    constructor (hostIsBig: bool)
      ensures Valid() && store == [] && written == [] && iter == 0
      ensures bigEndian == hostIsBig
    {
      assert LittleEndian(0x0102, 2)[0] == 0x02;
      assert BigEndian(0x0102, 2) == BigEndian(0x01, 1) + [0x02];
      bigEndian := InOrder(hostIsBig, 0x0102, 2)[0] == 0x01;
      store, iter, written := [], 0, [];
    }

    method Reset()
      modifies this
      ensures Valid() && store == [] && written == [] && iter == 0
    {
      store, iter, written := [], 0, [];
    }

    // ---------------------------------------------------------------- writers

    method WriteByEndianess(image: Bytes)
      modifies this`store, this`iter
      ensures store == old(store) + if bigEndian then image else Reversed(image)
      ensures iter == 0
    {
      store := store + if bigEndian then image else Reversed(image);
      iter := 0;
    }

    method WriteChar(value: Byte)
      requires Valid()
      modifies this
      ensures Appended(UByte(value))
    {
      store, iter := store + [value], 0;
      written := written + [UByte(value)];
      EncodeSnoc(TRACI, old(written), UByte(value));
    }

    method WriteUnsignedByte(value: int) returns (ok: bool)
      requires Valid()
      modifies this
      ensures ok <==> 0 <= value <= 255
      ensures if ok then Appended(UByte(value)) else Valid() && unchanged(this)
    {
      if value < 0 || value > 255 {
        return false;
      }
      WriteChar(value);
      return true;
    }

    method WriteInt(value: Int32)
      requires Valid()
      modifies this
      ensures Appended(Int(value))
    {
      MirrorImages(Unsigned32(value), 4);
      WriteByEndianess(InOrder(bigEndian, Unsigned32(value), 4));
      written := written + [Int(value)];
      EncodeSnoc(TRACI, old(written), Int(value));
      hide EncodeAll;
    }

    method WriteDouble(value: Double64)
      requires Valid()
      modifies this
      ensures Appended(Real(value))
    {
      MirrorImages(value, 8);
      WriteByEndianess(InOrder(bigEndian, value, 8));
      written := written + [Real(value)];
      EncodeSnoc(TRACI, old(written), Real(value));
      hide EncodeAll;
    }

    method WriteString(s: Text)
      requires Valid()
      modifies this
      ensures Appended(Str(s))
    {
      hide EncodeAll;
      WriteInt(|s|);
      store, iter := store + s, 0;
      written := old(written) + [Str(s)];
      EncodeSnoc(TRACI, old(written), Str(s));
    }

    method WriteStringList(s: TextList)
      requires Valid()
      modifies this
      ensures Appended(StrList(s))
    {
      hide EncodeAll, EncodeText;
      WriteInt(|s|);
      ghost var start := store;
      for i := 0 to |s|
        invariant Valid() && iter == 0
        invariant start + EncodeTexts(TRACI, s) == store + EncodeTexts(TRACI, s[i..])
      {
        assert s[i..][1..] == s[i + 1..];
        WriteString(s[i]);
      }
      assert start + EncodeTexts(TRACI, s) == store;
      written := old(written) + [StrList(s)];
      EncodeSnoc(TRACI, old(written), StrList(s));
    }

    method WritePacket(packet: Bytes)
      requires Valid()
      modifies this
      ensures Appended(Raw(packet))
    {
      store, iter := store + packet, 0;
      written := written + [Raw(packet)];
      EncodeSnoc(TRACI, old(written), Raw(packet));
    }

    // ---------------------------------------------------------------- readers

    method ReadUnsignedByte() returns (r: Read<Byte>)
      requires Valid()
      modifies this`iter
      ensures r == ByteAt(store, old(iter)) && iter == r.next && Valid()
    {
      if iter == |store| {
        return Invalid(iter);
      }
      r := Read(store[iter], iter + 1);
      iter := iter + 1;
    }

    /** Fills a memory image from the next bytes, backwards on a little-endian host. */
    method ReadByEndianess(image: array<Byte>) returns (ok: bool)
      requires Valid()
      modifies this`iter, image
      ensures ok <==> BytesAt(store, old(iter), image.Length).Read?
      ensures iter == BytesAt(store, old(iter), image.Length).next && Valid()
      ensures ok ==> BytesAt(store, old(iter), image.Length).value ==
                     if bigEndian then image[..] else Reversed(image[..])
    {
      hide EncodeAll;
      if |store| - iter < image.Length {
        return false;
      }
      if bigEndian {
        ReadForward(image);
      } else {
        ReadBackward(image);
      }
      ok := true;
    }

    method ReadForward(image: array<Byte>)
      requires iter + image.Length <= |store|
      modifies this`iter, image
      ensures iter == old(iter) + image.Length && image[..] == store[old(iter)..iter]
    {
      for i := 0 to image.Length
        invariant iter == old(iter) + i && image[..i] == store[old(iter)..iter]
      {
        image[i] := store[iter];
        iter := iter + 1;
      }
    }

    method ReadBackward(image: array<Byte>)
      requires iter + image.Length <= |store|
      modifies this`iter, image
      ensures iter == old(iter) + image.Length && Reversed(image[..]) == store[old(iter)..iter]
    {
      for i := image.Length downto 0
        invariant iter == old(iter) + image.Length - i
        invariant forall k :: i <= k < image.Length ==> image[k] == store[old(iter) + image.Length - 1 - k]
      {
        image[i] := store[iter];
        iter := iter + 1;
      }
    }

    method ReadInt() returns (r: Read<Int32>)
      requires Valid()
      modifies this`iter
      ensures r == IntAt(TRACI, store, old(iter)) && iter == r.next && Valid()
    {
      hide EncodeAll;
      PowersOf256();
      var image := new Byte[4](i => 0);
      var ok := ReadByEndianess(image);
      if !ok {
        return Invalid(iter);
      }
      MirrorValue(image[..]);
      r := Read(Signed32(FromOrder(bigEndian, image[..])), iter);
    }

    method ReadDouble() returns (r: Read<Double64>)
      requires Valid()
      modifies this`iter
      ensures r == RealAt(TRACI, store, old(iter)) && iter == r.next && Valid()
    {
      hide EncodeAll;
      PowersOf256();
      var image := new Byte[8](i => 0);
      var ok := ReadByEndianess(image);
      if !ok {
        return Invalid(iter);
      }
      MirrorValue(image[..]);
      r := Read(FromOrder(bigEndian, image[..]), iter);
    }

    method ReadString() returns (r: Read<Text>)
      requires Valid()
      modifies this`iter
      ensures r == TextAt(TRACI, store, old(iter)) && iter == r.next && Valid()
    {
      hide EncodeAll, IntAt;
      var len := ReadInt();
      if len.Invalid? || len.value < 0 || |store| - iter < len.value {
        return Invalid(iter);
      }
      r := Read(store[iter..iter + len.value], iter + len.value);
      iter := iter + len.value;
    }

    method ReadStringList() returns (r: Read<TextList>)
      requires Valid()
      modifies this`iter
      ensures r == TextListAt(TRACI, store, old(iter)) && iter == r.next && Valid()
    {
      hide EncodeAll, IntAt, TextAt;
      var len := ReadInt();
      if len.Invalid? || len.value < 0 {
        return Invalid(iter);
      }
      var tmp: seq<Text> := [];
      ghost var all := TextsAt(TRACI, store, iter, len.value);
      for i := 0 to len.value
        invariant Valid() && |tmp| == i
        invariant var rest := TextsAt(TRACI, store, iter, len.value - i);
                  all == Listing(tmp + rest.texts, rest.next, rest.complete)
      {
        var t := ReadString();
        if t.Invalid? {
          return Invalid(iter);
        }
        tmp := tmp + [t.value];
      }
      assert all == Listing(tmp, iter, true);
      r := Read(tmp, iter);
    }
  }
}
