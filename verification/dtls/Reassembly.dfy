/**
  Reassembly of one handshake message (d1_both.cc): a buffer and a bitmask with one
  bit per byte.  The mask is exact, and a message is complete just when the ranges
  received cover it; the order, overlap and repetition of fragments do not matter.
 */
module Reassembly {
  import opened Bits
  import opened Fragments

  // ----- Messages under reassembly, as values

  predicate Between(i: nat, lo: nat, hi: nat) { lo <= i < hi }

  function Range(lo: nat, hi: nat): set<nat> { set i: nat | i < hi && Between(i, lo, hi) }

  /** A slice, by position in the message. */
  ghost function Placed(off: nat, slice: seq<byte>): map<nat, byte> {
    var range := Range(off, off + |slice|);
    map i | i in range :: slice[i - off]
  }

  /** A message of which some bytes have been received. */
  datatype Partial = Partial(typ: byte, msgLen: nat, received: map<nat, byte>) {
    ghost predicate Complete() { received.Keys == Range(0, msgLen) }

    /** Receive a slice; a complete message takes no more. */
    ghost function Absorb(off: nat, slice: seq<byte>): Partial {
      if Complete() then this
      else this.(received := received + Placed(off, slice))
    }

    ghost function Body(): seq<byte>
      requires Complete()
    {
      seq(msgLen, i requires 0 <= i < msgLen => (assert Between(i, 0, msgLen); received[i]))
    }
  }

  datatype Slice = Slice(off: nat, bytes: seq<byte>)

  ghost predicate InBounds(slices: seq<Slice>, msgLen: nat) {
    forall s :: s in slices ==> s.off + |s.bytes| <= msgLen
  }

  /** The bytes some slices cover. */
  ghost function Union(slices: seq<Slice>): set<nat> {
    if slices == [] then {}
    else
      var last := slices[|slices| - 1];
      Union(slices[..|slices| - 1]) + Range(last.off, last.off + |last.bytes|)
  }

  ghost function AbsorbAll(p: Partial, slices: seq<Slice>): Partial {
    if slices == [] then p
    else AbsorbAll(p, slices[..|slices| - 1]).Absorb(slices[|slices| - 1].off, slices[|slices| - 1].bytes)
  }

  lemma {:induction false} UnionInBounds(slices: seq<Slice>, msgLen: nat)
    requires InBounds(slices, msgLen)
    ensures Union(slices) <= Range(0, msgLen)
    decreases |slices|
  {
    if slices != [] {
      UnionInBounds(slices[..|slices| - 1], msgLen);
    }
  }

  /** After any slices exactly the bytes they cover are received, so a message is complete when they cover it. */
  lemma {:induction false} ReceivedExactly(p: Partial, slices: seq<Slice>)
    requires p.received == map[] && InBounds(slices, p.msgLen)
    ensures AbsorbAll(p, slices).received.Keys == Union(slices)
    ensures AbsorbAll(p, slices).Complete() <==> Union(slices) == Range(0, p.msgLen)
    ensures AbsorbAll(p, slices).typ == p.typ && AbsorbAll(p, slices).msgLen == p.msgLen
    decreases |slices|
  {
    if slices != [] {
      var n := |slices| - 1;
      ReceivedExactly(p, slices[..n]);
      UnionInBounds(slices, p.msgLen);
      var before, s := AbsorbAll(p, slices[..n]), slices[n];
      AbsorbKeys(before, s.off, s.bytes);
    }
  }

  lemma AbsorbKeys(p: Partial, off: nat, slice: seq<byte>)
    requires off + |slice| <= p.msgLen && p.received.Keys <= Range(0, p.msgLen)
    ensures p.Absorb(off, slice).received.Keys == p.received.Keys + Range(off, off + |slice|)
  {
    if p.Complete() {
      assert Range(off, off + |slice|) <= Range(0, p.msgLen);
    } else {
      assert Placed(off, slice).Keys == Range(off, off + |slice|);
    }
  }

  /** What was received agrees with a message. */
  ghost predicate Agrees(p: Partial, body: seq<byte>) {
    && p.msgLen == |body|
    && forall i :: i in p.received ==> i < |body| && p.received[i] == body[i]
  }

  predicate SliceOf(s: Slice, body: seq<byte>) {
    s.off + |s.bytes| <= |body| && s.bytes == body[s.off..s.off + |s.bytes|]
  }

  lemma AbsorbAgrees(p: Partial, s: Slice, body: seq<byte>)
    requires Agrees(p, body) && SliceOf(s, body)
    ensures Agrees(p.Absorb(s.off, s.bytes), body)
  {
  }

  lemma CompleteIsBody(p: Partial, body: seq<byte>)
    requires Agrees(p, body) && p.Complete()
    ensures p.Body() == body
  {
    forall i | 0 <= i < |body|
      ensures p.Body()[i] == body[i]
    {
      assert Between(i, 0, |body|);
    }
  }

  /** From slices of one message, in any order, overlapping or repeated, only that message is rebuilt. */
  lemma {:induction false} AnyOrderRebuilds(p: Partial, slices: seq<Slice>, body: seq<byte>)
    requires p.received == map[] && p.msgLen == |body|
    requires forall s :: s in slices ==> SliceOf(s, body)
    ensures var done := AbsorbAll(p, slices);
            && (done.Complete() <==> Union(slices) == Range(0, |body|))
            && (done.Complete() ==> done.Body() == body)
  {
    hide SliceOf, AbsorbAll, Union;
    assert InBounds(slices, p.msgLen) by {
      forall s | s in slices
        ensures s.off + |s.bytes| <= |body|
      {
        assert SliceOf(s, body);
        SliceBounds(s, body);
      }
    }
    ReceivedExactly(p, slices);
    AllAgree(p, slices, body);
    if AbsorbAll(p, slices).Complete() {
      CompleteIsBody(AbsorbAll(p, slices), body);
    }
  }

  lemma SliceBounds(s: Slice, body: seq<byte>)
    requires SliceOf(s, body)
    ensures s.off + |s.bytes| <= |body|
  {
  }

  lemma {:induction false} AllAgree(p: Partial, slices: seq<Slice>, body: seq<byte>)
    requires p.received == map[] && p.msgLen == |body|
    requires forall s :: s in slices ==> SliceOf(s, body)
    ensures Agrees(AbsorbAll(p, slices), body)
    decreases |slices|
  {
    if slices != [] {
      var n := |slices| - 1;
      AllAgree(p, slices[..n], body);
      AbsorbAgrees(AbsorbAll(p, slices[..n]), slices[n], body);
    }
  }

  // ----- Bit ranges

  /** Bits `start` up to but not including `end`, cut to eight bits. */
  function BitRange(start: nat, end: nat): (b: byte)
    requires start <= 8 && end <= 8
  {
    OnesFit(start, 32);
    BitAnd(Complement(Shl(1, start) - 1, 32), Shl(1, end) - 1) % 256
  }

  lemma OnesFit(r: nat, n: nat)
    requires r <= n
    ensures Shl(1, r) - 1 < Shl(1, n)
  {
    ShlIncreases(1, 1, r, n);
  }

  lemma Shl8()
    ensures Shl(1, 8) == 256
  {
  }

  lemma BitRangeBits(start: nat, end: nat, i: nat)
    requires start <= 8 && end <= 8 && i < 8
    ensures BitAt(BitRange(start, end), i) <==> start <= i < end
  {
    hide BitAt, BitAnd, Complement, Shl;
    OnesFit(start, 32);
    Shl8();
    BitAtMod(BitAnd(Complement(Shl(1, start) - 1, 32), Shl(1, end) - 1), 8, i);
    BitAtAnd(Complement(Shl(1, start) - 1, 32), Shl(1, end) - 1, i);
    BitAtComplement(Shl(1, start) - 1, 32, i);
    BitAtOnes(start, i);
    BitAtOnes(end, i);
  }

  // ----- Bitmasks

  predicate Bit(mask: seq<byte>, i: nat)
    requires i < 8 * |mask|
  {
    BitAt(mask[i / 8], i % 8)
  }

  /** `after` is `before` with the bits from `lo` up to `hi` set. */
  ghost predicate Marked(before: seq<byte>, after: seq<byte>, lo: nat, hi: nat) {
    && |after| == |before|
    && forall i :: 0 <= i < 8 * |before| ==> (Bit(after, i) <==> Bit(before, i) || lo <= i < hi)
  }

  lemma MarkedOn(a: seq<byte>, b: seq<byte>, c: seq<byte>, lo: nat, mid: nat, hi: nat)
    requires Marked(a, b, lo, mid) && Marked(b, c, mid, hi) && lo <= mid <= hi
    ensures Marked(a, c, lo, hi)
  {
    hide Bit;
  }

  /** OR-ing a bit range into one byte. */
  lemma MarkedByte(mask: seq<byte>, j: nat, start: nat, end: nat)
    requires j < |mask| && start <= end <= 8
    ensures 0 <= BitOr(mask[j], BitRange(start, end)) < 256
    ensures Marked(mask, mask[j := BitOr(mask[j], BitRange(start, end))], 8 * j + start, 8 * j + end)
  {
    Shl8();
    hide BitAt, BitOr, BitRange, Shl;
    OrBelow(mask[j], BitRange(start, end), 8);
    var after := mask[j := BitOr(mask[j], BitRange(start, end))];
    forall i | 0 <= i < 8 * |mask|
      ensures Bit(after, i) <==> Bit(mask, i) || 8 * j + start <= i < 8 * j + end
    {
      if i / 8 == j {
        BitAtOr(mask[j], BitRange(start, end), i % 8);
        BitRangeBits(start, end, i % 8);
      }
    }
  }

  lemma MarkedWholeByte(mask: seq<byte>, j: nat)
    requires j < |mask|
    ensures Marked(mask, mask[j := 0xff], 8 * j, 8 * j + 8)
  {
    Shl8();
    hide BitAt, Shl;
    var after := mask[j := 0xff];
    forall i | 0 <= i < 8 * |mask|
      ensures Bit(after, i) <==> Bit(mask, i) || 8 * j <= i < 8 * j + 8
    {
      if i / 8 == j {
        BitAtOnes(8, i % 8);
      }
    }
  }

  /** The bytes a mask says were received. */
  ghost function Received(mask: seq<byte>, msgLen: nat): set<nat>
    requires msgLen <= 8 * |mask|
  {
    set i: nat | 0 <= i < msgLen && Bit(mask, i)
  }

  lemma MarkedReceived(before: seq<byte>, after: seq<byte>, lo: nat, hi: nat, msgLen: nat)
    requires Marked(before, after, lo, hi) && lo <= hi <= msgLen <= 8 * |before|
    ensures Received(after, msgLen) == Received(before, msgLen) + Range(lo, hi)
  {
    hide Bit;
  }

  /** No bit past the message is ever set. */
  ghost predicate Clean(mask: seq<byte>, msgLen: nat) {
    forall i :: msgLen <= i < 8 * |mask| ==> !Bit(mask, i)
  }

  lemma MarkedClean(before: seq<byte>, after: seq<byte>, lo: nat, hi: nat, msgLen: nat)
    requires Marked(before, after, lo, hi) && hi <= msgLen && Clean(before, msgLen)
    ensures Clean(after, msgLen)
  {
    hide Bit;
  }

  /** A byte of the mask that covers `r` bytes of the message equals the range 0..r just when all are in. */
  lemma ByteFull(mask: seq<byte>, msgLen: nat, j: nat, r: nat)
    requires j < |mask| && 0 < r <= 8 && Clean(mask, msgLen)
    requires if r == 8 then 8 * j + 8 <= msgLen else 8 * j + r == msgLen
    ensures mask[j] == BitRange(0, r) <==> forall i :: 8 * j <= i < 8 * j + r ==> Bit(mask, i)
  {
    Shl8();
    hide BitAt, BitRange, Shl;
    forall k: nat | k < 8
      ensures BitAt(BitRange(0, r), k) <==> k < r
      ensures BitAt(mask[j], k) <==> Bit(mask, 8 * j + k)
    {
      BitRangeBits(0, r, k);
      assert (8 * j + k) / 8 == j && (8 * j + k) % 8 == k;
    }
    if forall i :: 8 * j <= i < 8 * j + r ==> Bit(mask, i) {
      forall k | 0 <= k < 8
        ensures BitAt(mask[j], k) <==> BitAt(BitRange(0, r), k)
      {
        assert Bit(mask, 8 * j + k) <==> k < r;
      }
      BitsDetermine(mask[j], BitRange(0, r), 8);
    } else {
      var i :| 8 * j <= i < 8 * j + r && !Bit(mask, i);
      assert !BitAt(mask[j], i - 8 * j);
    }
  }

  lemma BitRangeWhole()
    ensures BitRange(0, 8) == 0xff
  {
    Shl8();
    hide BitAt, BitRange, Shl;
    forall k | 0 <= k < 8
      ensures BitAt(BitRange(0, 8), k) <==> BitAt(0xff, k)
    {
      BitRangeBits(0, 8, k);
      BitAtOnes(8, k);
    }
    BitsDetermine(BitRange(0, 8), 0xff, 8);
  }

  // ----- The fragment under reassembly

  /** The buffer where bytes have been received. */
  ghost function Stored(data: seq<byte>, covered: set<nat>): map<nat, byte>
    requires forall i :: i in covered ==> HM_HEADER + i < |data|
  {
    map i | i in covered :: data[HM_HEADER + i]
  }

  lemma StoredPlaced(before: seq<byte>, after: seq<byte>, covered: set<nat>, off: nat, slice: seq<byte>)
    requires HM_HEADER + off + |slice| <= |before| && forall i :: i in covered ==> HM_HEADER + i < |before|
    requires after == before[..HM_HEADER + off] + slice + before[HM_HEADER + off + |slice|..]
    ensures var range := Range(off, off + |slice|);
            && (forall i :: i in covered + range ==> HM_HEADER + i < |after|)
            && Stored(after, covered + range) == Stored(before, covered) + Placed(off, slice)
  {
    var range := Range(off, off + |slice|);
    forall i | i in covered + range
      ensures HM_HEADER + i < |after|
      ensures after[HM_HEADER + i] == if i in range then slice[i - off] else before[HM_HEADER + i]
    {
      assert i in range <==> Between(i, off, off + |slice|);
    }
  }

  /** One message being received; the mask goes away when it is complete. */
  class HmFragment {
    const typ: byte
    const seqNum: nat
    const msgLen: nat
    const data: array<byte>
    var reassembly: array?<byte>

    ghost predicate Valid()
      reads this, reassembly
    {
      && data.Length == HM_HEADER + msgLen
      && (reassembly != null ==>
            && reassembly != data && reassembly.Length == (msgLen + 7) / 8
            && Clean(reassembly[..], msgLen) && Covered() != Range(0, msgLen))
    }

    /** The bytes of the message received so far. */
    ghost function Covered(): set<nat>
      requires reassembly != null ==> msgLen <= 8 * reassembly.Length
      reads this, reassembly
    {
      if reassembly == null then Range(0, msgLen) else Received(reassembly[..], msgLen)
    }

    ghost function Body(): seq<byte>
      requires data.Length == HM_HEADER + msgLen
      reads data
    {
      data[HM_HEADER..]
    }

    constructor (header: HmHeader)
      ensures Valid() && typ == header.typ && seqNum == header.seqNum && msgLen == header.msgLen
      ensures fresh(data) && (reassembly != null ==> fresh(reassembly))
      ensures Covered() == {}
      ensures data[..HM_HEADER] == HeaderBytes(header.(fragOff := 0, fragLen := header.msgLen))
    {
      typ, seqNum, msgLen := header.typ, header.seqNum, header.msgLen;
      var bytes := HeaderBytes(header.(fragOff := 0, fragLen := header.msgLen));
      var d := new byte[HM_HEADER + header.msgLen];
      data := d;
      reassembly := null;
      new;
      for i := 0 to HM_HEADER
        modifies data
        invariant data[..i] == bytes[..i]
      {
        data[i] := bytes[i];
      }
      assert data[..HM_HEADER] == bytes[..HM_HEADER] == bytes;
      if msgLen > 0 {
        reassembly := new byte[(msgLen + 7) / 8](_ => 0);
        NothingReceived(reassembly[..], msgLen);
        assert 0 in Range(0, msgLen);
      }
    }

    /** Whether every byte of the mask is full. */
    method MaskFull() returns (full: bool)
      requires data.Length == HM_HEADER + msgLen && reassembly != null
      requires reassembly.Length == (msgLen + 7) / 8 && Clean(reassembly[..], msgLen)
      ensures full <==> Covered() == Range(0, msgLen)
    {
      hide Bit, BitRange, Clean;
      ghost var mask := reassembly[..];
      BitRangeWhole();
      for i := 0 to msgLen / 8
        invariant forall k :: 0 <= k < 8 * i ==> Bit(mask, k)
      {
        ByteFull(mask, msgLen, i, 8);
        if reassembly[i] != 0xff {
          ghost var k :| 8 * i <= k < 8 * i + 8 && !Bit(mask, k);
          assert k in Range(0, msgLen) && k !in Covered();
          return false;
        }
      }
      if msgLen % 8 != 0 {
        ByteFull(mask, msgLen, msgLen / 8, msgLen % 8);
        if reassembly[msgLen / 8] != BitRange(0, msgLen % 8) {
          ghost var k :| 8 * (msgLen / 8) <= k < msgLen && !Bit(mask, k);
          assert k in Range(0, msgLen) && k !in Covered();
          return false;
        }
      }
      assert Covered() == Range(0, msgLen);
      return true;
    }

    /** Set the mask's bits for a nonempty range. */
    method MarkRange(start: nat, end: nat)
      requires data.Length == HM_HEADER + msgLen && reassembly != null
      requires reassembly.Length == (msgLen + 7) / 8 && start < end <= msgLen
      modifies reassembly
      ensures Marked(old(reassembly[..]), reassembly[..], start, end)
    {
      hide Bit, BitOr, BitRange, Marked;
      ghost var before := reassembly[..];
      var first, last := start / 8, end / 8;
      if first == last {
        MarkedByte(before, first, start % 8, end % 8);
        reassembly[first] := BitOr(reassembly[first], BitRange(start % 8, end % 8));
        assert reassembly[..] == before[first := reassembly[first]];
        return;
      }
      MarkedByte(before, first, start % 8, 8);
      reassembly[first] := BitOr(reassembly[first], BitRange(start % 8, 8));
      assert reassembly[..] == before[first := reassembly[first]];
      for i := first + 1 to last
        invariant Marked(before, reassembly[..], start, 8 * i)
      {
        ghost var sofar := reassembly[..];
        MarkedWholeByte(sofar, i);
        reassembly[i] := 0xff;
        assert reassembly[..] == sofar[i := 0xff];
        MarkedOn(before, sofar, reassembly[..], start, 8 * i, 8 * i + 8);
      }
      if end % 8 != 0 {
        ghost var sofar := reassembly[..];
        MarkedByte(sofar, last, 0, end % 8);
        reassembly[last] := BitOr(reassembly[last], BitRange(0, end % 8));
        assert reassembly[..] == sofar[last := reassembly[last]];
        MarkedOn(before, sofar, reassembly[..], start, 8 * last, end);
      }
    }

    lemma CoveredInside()
      requires Valid()
      ensures forall i :: i in Covered() ==> i < msgLen
    {
      hide Bit;
    }

    /** The message so far, as a value: the buffer where the mask says it was received. */
    ghost function Value(): Partial
      requires Valid()
      reads this, data, reassembly
    {
      CoveredInside();
      Partial(typ, msgLen, Stored(data[..], Covered()))
    }

    /** Note that bytes `start` up to `end` arrived; drop the mask when nothing is missing. */
    method Mark(start: nat, end: nat)
      requires Valid() && reassembly != null && start <= end <= msgLen
      modifies this`reassembly, reassembly
      ensures Valid() && (reassembly == null || reassembly == old(reassembly))
      ensures Covered() == old(Covered()) + Range(start, end)
      ensures reassembly == null <==> old(Covered()) + Range(start, end) == Range(0, msgLen)
    {
      hide Bit, Clean;
      if start == end {
        assert Range(start, end) == {};
        assert Covered() == old(Covered()) + Range(start, end);
        return;
      }
      ghost var before := reassembly[..];
      MarkRange(start, end);
      MarkedReceived(before, reassembly[..], start, end, msgLen);
      MarkedClean(before, reassembly[..], start, end, msgLen);
      var full := MaskFull();
      if full {
        reassembly := null;
      }
    }

    method Copy(off: nat, slice: seq<byte>)
      requires HM_HEADER + off + |slice| <= data.Length
      modifies data
      ensures var before := old(data[..]);
              data[..] == before[..HM_HEADER + off] + slice + before[HM_HEADER + off + |slice|..]
    {
      ghost var before := data[..];
      for i := 0 to |slice|
        modifies data
        invariant data[..] == before[..HM_HEADER + off] + slice[..i] + before[HM_HEADER + off + i..]
      {
        data[HM_HEADER + off + i] := slice[i];
      }
      assert slice[..|slice|] == slice;
    }

    /** Copy a slice of the body into place and mark it. */
    method Absorb(off: nat, slice: seq<byte>)
      requires Valid() && reassembly != null && off + |slice| <= msgLen
      modifies this`reassembly, data, reassembly
      ensures Valid() && (reassembly == null || reassembly == old(reassembly))
      ensures Value() == old(Value()).Absorb(off, slice)
      ensures reassembly == null <==> Value().Complete()
    {
      hide Bit, Clean, Range, Stored, Placed, Received;
      CoveredInside();
      ghost var before, covered := data[..], Covered();
      Copy(off, slice);
      StoredPlaced(before, data[..], covered, off, slice);
      StoredKeys(before, covered);
      Mark(off, off + |slice|);
      CoveredInside();
      StoredKeys(data[..], Covered());
    }
  }

  lemma StoredKeys(data: seq<byte>, covered: set<nat>)
    requires forall i :: i in covered ==> HM_HEADER + i < |data|
    ensures Stored(data, covered).Keys == covered
  {
  }

  lemma NothingReceived(mask: seq<byte>, msgLen: nat)
    requires msgLen <= 8 * |mask| && forall j :: 0 <= j < |mask| ==> mask[j] == 0
    ensures Clean(mask, msgLen) && Received(mask, msgLen) == {}
  {
    forall i: nat | i < 8 * |mask|
      ensures !Bit(mask, i)
    {
      BitAtZero(i % 8);
    }
    hide Bit;
  }
}
