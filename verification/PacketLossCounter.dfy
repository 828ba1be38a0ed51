/** The sliding-window loss counter of src/applications/model/packet-loss-counter.cc.

A ring of bits, packed into bytes, remembers which of the last W sequence numbers arrived.  The
class works on the bytes in place; `Ring` is its value, and `Exact` says what that value means in
terms of the set of packets received so far.
*/
module PacketLossCounter {

  // ---------------------------------------------------------------- bits in bytes

  /** Bit `k` of a byte, counted from the most significant one as the source does. */
  predicate ByteBit(b: bv8, k: nat)
    requires k < 8
  {
    (b >> (7 - k)) & 1 == 1
  }

  function Mask(i: nat): bv8
    requires i < 8
  {
    0x80 >> i
  }

  /** The two masked updates of the source. */
  function WithBit(b: bv8, i: nat, val: bool): bv8
    requires i < 8
  {
    if val then b | Mask(i) else b & !Mask(i)
  }

  lemma WithBitChangesOneBit(b: bv8, i: nat, val: bool, k: nat)
    requires i < 8 && k < 8
    ensures ByteBit(WithBit(b, i, val), k) == if k == i then val else ByteBit(b, k)
  {
    CaseSplit(i);
    CaseSplit(k);
  }

  lemma CaseSplit(k: nat)
    requires k < 8
    ensures k == 0 || k == 1 || k == 2 || k == 3 || k == 4 || k == 5 || k == 6 || k == 7
  {
  }

  /** The bits of a byte string, in ring order. */
  function Bits(bytes: seq<bv8>): (bits: seq<bool>)
    ensures |bits| == 8 * |bytes|
  {
    seq(8 * |bytes|, k requires 0 <= k < 8 * |bytes| => ByteBit(bytes[k / 8], k % 8))
  }

  // ---------------------------------------------------------------- the counter as a value

  /** The ring slot a number uses. */
  function Slot(n: int, w: nat): (slot: nat)
    requires w > 0
    ensures slot < w
  {
    n % w
  }

  /** A multiple-of-8 window keeps byte index and bit index of a number in step. */
  lemma SlotOfNumber(n: nat, byteCount: nat)
    requires byteCount > 0
    ensures Slot(n, 8 * byteCount) / 8 < byteCount
    ensures Slot(n, 8 * byteCount) % 8 == n % 8
  {
    var w := 8 * byteCount;
    assert n == n / w * w + n % w;
    assert n / w * w == 8 * (n / w * byteCount);
    MultipleOfEight(n / w * byteCount, n % w);
  }

  /** The byte that holds a number's bit. */
  function ByteIndex(n: nat, byteCount: nat): (index: nat)
    requires byteCount > 0
    ensures index == Slot(n, 8 * byteCount) / 8 && index < byteCount
  {
    (n % (byteCount * 8)) / 8
  }

  lemma MultipleOfEight(k: int, r: int)
    ensures (8 * k + r) % 8 == r % 8
  {
  }

  /** Masking one byte changes exactly the bit of the ring that belongs to the number. */
  lemma BitsWithBit(bytes: seq<bv8>, n: nat, val: bool)
    requires |bytes| > 0
    ensures var index := ByteIndex(n, |bytes|);
            Bits(bytes[index := WithBit(bytes[index], n % 8, val)])
            == Bits(bytes)[Slot(n, 8 * |bytes|) := val]
  {
    SlotOfNumber(n, |bytes|);
    var slot := Slot(n, 8 * |bytes|);
    var index := ByteIndex(n, |bytes|);
    hide Slot, ByteIndex, WithBit, ByteBit;
    var left, right := Bits(bytes[index := WithBit(bytes[index], n % 8, val)]), Bits(bytes)[slot := val];
    forall k: nat | k < |left| ensures left[k] == right[k] {
      assert k == 8 * (k / 8) + k % 8 && slot == 8 * (slot / 8) + slot % 8;
      WithBitChangesOneBit(bytes[index], n % 8, val, k % 8);
    }
  }

  datatype Ring = Ring(lost: nat, lastMax: nat, bits: seq<bool>)

  predicate WellFormed(r: Ring) {
    |r.bits| > 0
  }

  /** The effect of the receive loop over numbers `i` to `seqNum`: each slot is inspected for the
      number one window earlier and then cleared for its new owner. */
  function Slide(r: Ring, i: nat, seqNum: nat): (s: Ring)
    requires WellFormed(r)
    ensures |s.bits| == |r.bits| && s.lastMax == r.lastMax
    ensures i > seqNum ==> s == r
    ensures s.lost <= r.lost + (if i <= seqNum then seqNum - i + 1 else 0)
    decreases seqNum - i
  {
    if i > seqNum then r
    else
      var slot := Slot(i, |r.bits|);
      Slide(Ring(if r.bits[slot] then r.lost else r.lost + 1, r.lastMax, r.bits[slot := false]), i + 1, seqNum)
  }

  function Notify(r: Ring, seqNum: nat): (s: Ring)
    requires WellFormed(r)
    ensures |s.bits| == |r.bits|
    ensures s.lastMax == if seqNum > r.lastMax then seqNum else r.lastMax
    ensures r.lost <= r.lastMax ==> s.lost <= s.lastMax
  {
    var t := Slide(r, r.lastMax + 1, seqNum);
    Ring(t.lost, if seqNum > r.lastMax then seqNum else r.lastMax, t.bits[Slot(seqNum, |t.bits|) := true])
  }

  function NotifyAll(r: Ring, arrivals: seq<nat>): (s: Ring)
    requires WellFormed(r)
    ensures WellFormed(s) && |s.bits| == |r.bits|
    decreases |arrivals|
  {
    if arrivals == [] then r else NotifyAll(Notify(r, arrivals[0]), arrivals[1..])
  }

  // ---------------------------------------------------------------- what the value means

  /** What happened since the window was last resized: at that time `floor` was the greatest
      number and `base` losses were counted; `got` are the numbers received since. */
  datatype History = History(floor: nat, base: nat, got: set<nat>)

  /** Numbers up to the floor count as received (so do all numbers that are not positive). */
  predicate Known(h: History, n: int) {
    n <= h.floor || (n >= 0 && n in h.got)
  }

  /** The numbers that have left the window, up to `upto`, without being received. */
  function Missing(h: History, upto: int): set<int> {
    set n: int | h.floor < n <= upto && !Known(h, n)
  }

  /** The ring read at position `p`: every slot tells whether the number it stands for in the
      window ending at `p` was received, and the losses are exactly the missing numbers. */
  ghost predicate ExactAt(bits: seq<bool>, lost: nat, p: nat, h: History)
  {
    && |bits| > 0 && h.floor <= p
    && (forall n: int :: p - |bits| < n <= p ==> bits[Slot(n, |bits|)] == Known(h, n))
    && lost == h.base + |Missing(h, p - |bits|)|
  }

  ghost predicate Exact(r: Ring, h: History) {
    && ExactAt(r.bits, r.lost, r.lastMax, h)
    && forall n :: n in h.got ==> n <= r.lastMax
  }

  lemma MultipleGrows(k: int, w: int)
    requires w > 0
    ensures k >= 1 ==> k * w >= w
    ensures k <= 0 ==> k * w <= 0
    ensures k <= -1 ==> k * w <= -w
  {
  }

  lemma DistinctSlots(a: int, b: int, w: int)
    requires w > 0 && 0 < b - a < w
    ensures Slot(a, w) != Slot(b, w)
  {
    if a % w == b % w {
      assert b - a == (b / w - a / w) * w by {
        assert a == a / w * w + a % w;
        assert b == b / w * w + b % w;
      }
      MultipleGrows(b / w - a / w, w);
    }
  }

  lemma SameSlot(n: int, w: int)
    requires w > 0
    ensures Slot(n - w, w) == Slot(n, w)
  {
    assert n - w == (n / w - 1) * w + n % w;
    QuotientAndRemainder(n - w, n / w - 1, n % w, w);
  }

  lemma QuotientAndRemainder(n: int, q: int, r: int, w: int)
    requires w > 0 && 0 <= r < w && n == q * w + r
    ensures n % w == r
  {
    var d := n / w - q;
    assert n == n / w * w + n % w;
    assert d * w == r - n % w;
    MultipleGrows(d, w);
  }

  /** One turn of the receive loop moves the window end from `p` to `p + 1`. */
  lemma ExactStep(bits: seq<bool>, lost: nat, p: nat, h: History)
    requires ExactAt(bits, lost, p, h) && p + 1 !in h.got
    ensures var slot := Slot(p + 1, |bits|);
            ExactAt(bits[slot := false], if bits[slot] then lost else lost + 1, p + 1, h)
  {
    hide Slot;
    var w := |bits|;
    var slot := Slot(p + 1, w);
    var leaving := p + 1 - w;
    SameSlot(p + 1, w);
    assert bits[slot] == Known(h, leaving);
    forall n: int | p + 1 - w < n <= p + 1
      ensures bits[slot := false][Slot(n, w)] == Known(h, n)
    {
      if n <= p { DistinctSlots(n, p + 1, w); }
    }
    if Known(h, leaving) {
      assert Missing(h, leaving) == Missing(h, leaving - 1);
    } else {
      assert Missing(h, leaving) == Missing(h, leaving - 1) + {leaving};
    }
  }

  lemma {:induction false} ExactSlide(r: Ring, i: nat, seqNum: nat, h: History)
    requires WellFormed(r) && i >= 1 && ExactAt(r.bits, r.lost, i - 1, h)
    requires forall n :: n in h.got ==> n < i
    ensures i <= seqNum ==> ExactAt(Slide(r, i, seqNum).bits, Slide(r, i, seqNum).lost, seqNum, h)
    decreases seqNum - i
  {
    hide Slot;
    if i <= seqNum {
      ExactStep(r.bits, r.lost, i - 1, h);
      var slot := Slot(i, |r.bits|);
      var next := Ring(if r.bits[slot] then r.lost else r.lost + 1, r.lastMax, r.bits[slot := false]);
      if i == seqNum {
        assert Slide(r, i, seqNum) == next;
      } else {
        ExactSlide(next, i + 1, seqNum, h);
      }
    }
  }

  function Receive(h: History, seqNum: nat): History {
    h.(got := h.got + {seqNum})
  }

  /** A packet above the window's lower edge is always accounted for exactly. */
  lemma NotifyInWindow(r: Ring, seqNum: nat, h: History)
    requires WellFormed(r) && Exact(r, h) && seqNum > r.lastMax - |r.bits|
    ensures Exact(Notify(r, seqNum), Receive(h, seqNum))
  {
    hide Slot, Slide;
    var w := |r.bits|;
    var t := Slide(r, r.lastMax + 1, seqNum);
    ExactSlide(r, r.lastMax + 1, seqNum, h);
    var top := if seqNum > r.lastMax then seqNum else r.lastMax;
    var h' := Receive(h, seqNum);
    assert ExactAt(t.bits, t.lost, top, h);
    forall n: int | top - w < n <= top
      ensures t.bits[Slot(seqNum, w) := true][Slot(n, w)] == Known(h', n)
    {
      if n < seqNum { DistinctSlots(n, seqNum, w); }
      if seqNum < n { DistinctSlots(seqNum, n, w); }
    }
    assert Missing(h', top - w) == Missing(h, top - w);
  }

  /** A packet below the window is accounted for exactly if and only if it was already known and
      the slot it shares with a number of the window is already set. */
  lemma NotifyBelowWindow(r: Ring, seqNum: nat, h: History)
    requires WellFormed(r) && Exact(r, h) && seqNum <= r.lastMax - |r.bits|
    ensures Exact(Notify(r, seqNum), Receive(h, seqNum)) <==>
              Known(h, seqNum) && r.bits[Slot(seqNum, |r.bits|)]
  {
    hide Slot;
    var w := |r.bits|;
    var h' := Receive(h, seqNum);
    var after := Notify(r, seqNum);
    var slot := Slot(seqNum, w);
    assert after == Ring(r.lost, r.lastMax, r.bits[slot := true]);
    var upto := r.lastMax - w;
    if Known(h, seqNum) {
      assert forall n: int :: Known(h', n) == Known(h, n);
      assert Missing(h', upto) == Missing(h, upto);
      if r.bits[slot] {
        assert after == r;
      } else {
        var alias := WindowNumber(slot, r.lastMax, w);
        assert after.bits[Slot(alias, w)] && !Known(h, alias);
      }
    } else {
      assert Missing(h, upto) == Missing(h', upto) + {seqNum as int};
      assert seqNum as int !in Missing(h', upto);
    }
  }

  /** Every slot stands for one number of the window. */
  lemma WindowNumber(slot: nat, p: nat, w: nat) returns (n: int)
    requires slot < w
    ensures p - w < n <= p && Slot(n, w) == slot
  {
    n := p - (p - slot) % w;
    var d := p - slot;
    assert d == d / w * w + d % w;
    QuotientAndRemainder(n, d / w, slot, w);
  }

  /** One arrival keeps the counter exact if and only if it is inside the window, or repeats a
      known number whose slot is already set. */
  lemma NotifyExactIff(r: Ring, seqNum: nat, h: History)
    requires WellFormed(r) && Exact(r, h)
    ensures Exact(Notify(r, seqNum), Receive(h, seqNum)) <==>
              seqNum > r.lastMax - |r.bits| || (Known(h, seqNum) && r.bits[Slot(seqNum, |r.bits|)])
  {
    hide Slot;
    if seqNum > r.lastMax - |r.bits| {
      NotifyInWindow(r, seqNum, h);
    } else {
      NotifyBelowWindow(r, seqNum, h);
    }
  }

  // ---------------------------------------------------------------- whole runs

  function Fresh(w: nat): Ring {
    Ring(0, 0, seq(w, _ => true))
  }

  predicate AllInWindow(lastMax: nat, w: nat, arrivals: seq<nat>)
    decreases |arrivals|
  {
    arrivals == [] ||
    (arrivals[0] > lastMax - w &&
     AllInWindow(if arrivals[0] > lastMax then arrivals[0] else lastMax, w, arrivals[1..]))
  }

  function ReceiveAll(h: History, arrivals: seq<nat>): History {
    h.(got := h.got + set n | n in arrivals)
  }

  function Greatest(lastMax: nat, arrivals: seq<nat>): (m: nat)
    ensures lastMax <= m && (m == lastMax || m in arrivals)
    ensures forall n :: n in arrivals ==> n <= m
    decreases |arrivals|
  {
    if arrivals == [] then lastMax
    else
      assert arrivals == [arrivals[0]] + arrivals[1..];
      Greatest(if arrivals[0] > lastMax then arrivals[0] else lastMax, arrivals[1..])
  }

  lemma FreshIsExact(w: nat)
    requires w > 0
    ensures Exact(Fresh(w), History(0, 0, {}))
  {
    hide Slot;
    assert Missing(History(0, 0, {}), 0 - w) == {};
  }

  lemma {:induction false} RunIsExact(r: Ring, h: History, arrivals: seq<nat>)
    requires WellFormed(r) && Exact(r, h) && AllInWindow(r.lastMax, |r.bits|, arrivals)
    ensures Exact(NotifyAll(r, arrivals), ReceiveAll(h, arrivals))
    ensures NotifyAll(r, arrivals).lastMax == Greatest(r.lastMax, arrivals)
    decreases |arrivals|
  {
    hide Slot;
    if arrivals == [] {
      assert ReceiveAll(h, arrivals) == h;
    } else {
      NotifyInWindow(r, arrivals[0], h);
      RunIsExact(Notify(r, arrivals[0]), Receive(h, arrivals[0]), arrivals[1..]);
      assert ReceiveAll(Receive(h, arrivals[0]), arrivals[1..]) == ReceiveAll(h, arrivals) by {
        assert arrivals == [arrivals[0]] + arrivals[1..];
      }
    }
  }

  /** The positive numbers up to `upto` that never arrived. */
  function NeverReceived(arrivals: seq<nat>, upto: int): set<int> {
    set n: int | 1 <= n <= upto && n !in arrivals
  }

  /** The losses reported after any run of in-window arrivals are the positive numbers that have
      left the window unreceived. */
  lemma {:induction false} LostCountsMissing(w: nat, arrivals: seq<nat>)
    requires w > 0 && AllInWindow(0, w, arrivals)
    ensures NotifyAll(Fresh(w), arrivals).lost ==
              |NeverReceived(arrivals, Greatest(0, arrivals) - w)|
  {
    hide Slot;
    FreshIsExact(w);
    var h := History(0, 0, {});
    RunIsExact(Fresh(w), h, arrivals);
    assert Missing(ReceiveAll(h, arrivals), Greatest(0, arrivals) - w)
        == NeverReceived(arrivals, Greatest(0, arrivals) - w);
  }

  /** Order and repetition do not matter: two in-window runs over the same numbers end in the same
      state, bit for bit. */
  lemma {:induction false} ResultDependsOnSetOnly(w: nat, first: seq<nat>, second: seq<nat>)
    requires w > 0 && AllInWindow(0, w, first) && AllInWindow(0, w, second)
    requires forall n :: n in first <==> n in second
    ensures NotifyAll(Fresh(w), first) == NotifyAll(Fresh(w), second)
  {
    hide Slot;
    FreshIsExact(w);
    var h := History(0, 0, {});
    RunIsExact(Fresh(w), h, first);
    RunIsExact(Fresh(w), h, second);
    var a, b := NotifyAll(Fresh(w), first), NotifyAll(Fresh(w), second);
    assert ReceiveAll(h, first) == ReceiveAll(h, second);
    forall slot | 0 <= slot < w ensures a.bits[slot] == b.bits[slot] {
      var n := WindowNumber(slot, a.lastMax, w);
      assert a.bits[Slot(n, w)] == b.bits[Slot(n, w)];
    }
    assert a.bits == b.bits;
  }

  /** Outside the window the count goes wrong, for every window: w + 1 pushes 1 out of the window
      and counts it as lost, and the later arrival of 1 does not take that back. */
  lemma LateArrivalBreaksTheCount(w: nat)
    requires w > 0
    ensures NotifyAll(Fresh(w), [w + 1, 1]).lost == 1
    ensures NeverReceived([w + 1, 1], Greatest(0, [w + 1, 1]) - w) == {}
  {
    hide Slot;
    var first: seq<nat> := [w + 1];
    LostCountsMissing(w, first);
    assert Greatest(0, first) == w + 1;
    assert NeverReceived(first, 1) == {1};
    var r := Notify(Fresh(w), w + 1);
    assert first[1..] == [] && NotifyAll(Fresh(w), first) == r;
    assert [w + 1, 1][1..] == [1] && [1][1..] == [];
    assert NotifyAll(Fresh(w), [w + 1, 1]) == Notify(r, 1);
    assert 1 in [w + 1, 1] && Greatest(0, [w + 1, 1]) == w + 1;
  }

  // ---------------------------------------------------------------- the class

  const UINT32_MAX := 0xFFFF_FFFF

  class PacketLossCounter {
    var lost: nat
    var bitMapSize: nat
    var lastMaxSeqNum: nat
    var receiveBitMap: array<bv8>
    ghost var history: History

    /** `lost` fits its 32 bits because it never exceeds the greatest number seen. */
    ghost predicate Valid()
      reads this, receiveBitMap
    {
      && Sized()
      && lost <= lastMaxSeqNum < UINT32_MAX
    }

    ghost predicate Sized()
      reads this
    {
      receiveBitMap.Length == bitMapSize
    }

    ghost function View(): Ring
      reads this, receiveBitMap
    {
      Ring(lost, lastMaxSeqNum, Bits(receiveBitMap[..]))
    }

    constructor (bitmapSize: nat)
      requires bitmapSize % 8 == 0
      ensures Valid() && fresh(receiveBitMap) && bitMapSize == bitmapSize / 8
      ensures View() == Fresh(bitmapSize)
      ensures history == History(0, 0, {}) && (bitmapSize > 0 ==> Exact(View(), history))
    {
      lost, lastMaxSeqNum, bitMapSize := 0, 0, 0;
      history := History(0, 0, {});
      receiveBitMap := new bv8[0];
      new;
      SetBitMapSize(bitmapSize);
    }

    method GetBitMapSize() returns (size: nat)
      ensures size == bitMapSize * 8
    {
      size := bitMapSize * 8;
    }

    /** Resizing forgets the window and keeps the counter; the history restarts at this point. */
    method SetBitMapSize(winSize: nat)
      requires Valid() && winSize % 8 == 0
      modifies this
      ensures Valid() && fresh(receiveBitMap) && bitMapSize == winSize / 8
      ensures View() == Ring(old(lost), old(lastMaxSeqNum), seq(winSize, _ => true))
      ensures history == History(lastMaxSeqNum, lost, {}) && (winSize > 0 ==> Exact(View(), history))
    {
      bitMapSize := winSize / 8;
      receiveBitMap := new bv8[bitMapSize](_ => 0xFF);
      history := History(lastMaxSeqNum, lost, {});
      forall k: nat | k < winSize ensures Bits(receiveBitMap[..])[k] {
        CaseSplit(k % 8);
      }
      assert Bits(receiveBitMap[..]) == seq(winSize, _ => true);
      assert Missing(history, lastMaxSeqNum - winSize) == {};
    }

    method GetBit(seqNum: nat) returns (bit: bool)
      requires Sized() && bitMapSize > 0
      ensures bit == View().bits[Slot(seqNum, |View().bits|)]
    {
      SlotOfNumber(seqNum, bitMapSize);
      bit := (receiveBitMap[ByteIndex(seqNum, bitMapSize)] >> (7 - (seqNum % 8))) & 0x01 == 1;
    }

    method SetBit(seqNum: nat, val: bool)
      requires Sized() && bitMapSize > 0
      modifies receiveBitMap
      ensures View().bits == old(View()).bits[Slot(seqNum, |old(View()).bits|) := val]
    {
      hide Slot, Bits, ByteIndex, Mask;
      var index := ByteIndex(seqNum, bitMapSize);
      ghost var before := receiveBitMap[..];
      hide WithBit;
      receiveBitMap[index] := WithBit(receiveBitMap[index], seqNum % 8, val);
      assert receiveBitMap[..] == before[index := WithBit(before[index], seqNum % 8, val)];
      BitsWithBit(before, seqNum, val);
    }

    /** The bytes and counters follow the specification `Notify`, and stay exact precisely for the
        arrivals named in `NotifyExactIff`. */
    method NotifyReceived(seqNum: nat)
      requires Valid() && bitMapSize > 0 && seqNum < UINT32_MAX
      modifies this`lost, this`lastMaxSeqNum, this`history, receiveBitMap
      ensures Valid() && View() == Notify(old(View()), seqNum)
      ensures history == Receive(old(history), seqNum)
      ensures old(Exact(View(), history)) ==>
                (Exact(View(), history) <==>
                  || seqNum > old(lastMaxSeqNum) - 8 * bitMapSize
                  || (Known(old(history), seqNum) && old(View()).bits[Slot(seqNum, 8 * bitMapSize)]))
    {
      hide Slot, Bits, Exact;
      ghost var before := View();
      var i := lastMaxSeqNum + 1;
      while i <= seqNum
        invariant Sized() && history == old(history)
        invariant lastMaxSeqNum == before.lastMax && before.lastMax < i
        invariant lost <= i - 1 && i <= UINT32_MAX
        invariant Slide(View(), i, seqNum) == Slide(before, before.lastMax + 1, seqNum)
      {
        var bit := GetBit(i);
        if !bit {
          lost := lost + 1;
        }
        SetBit(i, false);
        i := i + 1;
      }
      SetBit(seqNum, true);
      if seqNum > lastMaxSeqNum {
        lastMaxSeqNum := seqNum;
      }
      history := Receive(history, seqNum);
      if Exact(before, old(history)) { NotifyExactIff(before, seqNum, old(history)); }
    }
  }
}
