/**
  What it means that the encoder leaves proto3 fields out: the decoder's default is the
  value that was there.  It does not hold of an array that holds no count of its own, whose
  first bytes are taken for one.
 */
module Elision {
  import opened Wrappers
  import opened Bits
  import opened Wire
  import opened Descriptor
  import opened Encoding
  import opened Decoding
  import opened RoundTrip

  // ----- Zero bytes

  /** A word whose low bytes are zero is some number shifted past them. */
  lemma {:induction false} ZeroWord(v: nat, width: nat) returns (q: nat)
    requires AllZero(LittleEndian(v, width))
    ensures v == Shl(q, 8 * width)
  {
    if width == 0 {
      return v;
    }
    var bs := LittleEndian(v, width);
    assert bs[0] == v % 256 && bs[1..] == LittleEndian(v / 256, width - 1);
    assert forall i :: 0 <= i < |bs[1..]| ==> bs[1..][i] == bs[i + 1];
    q := ZeroWord(v / 256, width - 1);
    ShlByte(q, 8 * (width - 1));
  }

  lemma ShlByte(x: nat, n: nat)
    ensures Shl(x, n + 8) == 256 * Shl(x, n)
  {
    hide Shl;
    ShlSeven(x, n);
    ShlOne(x, n + 7);
  }

  lemma ShlWidths(x: nat)
    ensures Shl(x, 8) == 0x100 * x && Shl(x, 16) == 0x1_0000 * x && Shl(x, 32) == TWO_32 * x && Shl(x, 64) == TWO_64 * x
  {
    assert Shl(x, 0) == x;
    hide Shl;
    ShlByte(x, 0);
    ShlByte(x, 8);
    ShlByte(x, 16);
    ShlByte(x, 24);
    ShlByte(x, 32);
    ShlByte(x, 40);
    ShlByte(x, 48);
    ShlByte(x, 56);
  }

  /** The field's storage is as wide as its wire word. */
  predicate WordSized(f: Field) { (f.ltype.Fixed32? ==> f.dataSize == 4) && (f.ltype.Fixed64? ==> f.dataSize == 8) }

  /** Between plus and minus a width only zero has no bits inside it. */
  lemma NoBitsInside(n: int, q: int, limit: int)
    requires limit == 0x100 || limit == 0x1_0000 || limit == TWO_32 || limit == TWO_64
    requires -limit < n < limit && ToUnsigned64(n) == limit * q
    ensures n == 0
  {
    Wrapped(n);
    hide ToUnsigned64;
    if limit == 0x100 {
      assert n == 0x100 * q || n == 0x100 * (q - 0x100_0000_0000_0000);
    } else if limit == 0x1_0000 {
      assert n == 0x1_0000 * q || n == 0x1_0000 * (q - 0x1_0000_0000_0000);
    } else if limit == TWO_32 {
      assert n == TWO_32 * q || n == TWO_32 * (q - TWO_32);
    }
  }

  lemma Wrapped(n: int)
    requires -TWO_64 < n < TWO_64
    ensures ToUnsigned64(n) == if n < 0 then n + TWO_64 else n
  {
  }

  /** A number that its storage can hold is zero when all its bytes are. */
  lemma ZeroNumber(f: Field, v: Value)
    requires f.Packable() && WordSized(f) && GoodValue(f, v) && AllZero(StoredBytes(f, v))
    ensures Number(v) == 0
  {
    hide Shl, ToUnsigned64;
    var q := ZeroWord(ToUnsigned64(Number(v)), f.dataSize);
    ShlWidths(q);
    match f.dataSize {
      case 1 => NoBitsInside(Number(v), q, 0x100);
      case 2 => NoBitsInside(Number(v), q, 0x1_0000);
      case 4 => NoBitsInside(Number(v), q, TWO_32);
      case _ => NoBitsInside(Number(v), q, TWO_64);
    }
  }

  // ----- Elision loses nothing

  /** Whatever default the decoder leaves for a field that was left out is the value it had. */
  lemma LeftOutIsDefault(f: Field, m: Member, w: Value)
    requires WellFormedField(f) && f.Singular() && f.init.None? && WordSized(f)
    requires HoldsDefault(f, m) && GoodValue(f, Items(f, m)[0]) && DefaultedValue(f, w)
    ensures SameValue(f, Items(f, m)[0], w)
  {
    var v := Items(f, m)[0];
    match f.ltype
    case Submessage(fields) => NestedLeftOut(fields, Members(fields, v), Members(fields, w));
    case Bytes =>
    case String => EmptyString(f, v);
    case FixedLengthBytes =>
    case Extension =>
    case _ => ZeroNumber(f, v);
  }

  lemma EmptyString(f: Field, v: Value)
    requires StringLength(Buffer(f, v)) == 0 && f.ltype.String? && f.init.None?
    ensures SameValue(f, v, ZeroValue(f))
  {
  }

  /** Each field of a nested struct that was left out is absent on both sides. */
  lemma NestedLeftOut(fields: seq<Field>, src: seq<Member>, out: seq<Member>)
    requires |src| == |out| == SlotCount(fields) && WellFormed(fields) && NoFixedCountBelow(fields)
    requires AllHoldDefault(fields, src) && Defaulted(fields, out)
    ensures Rebuilt(fields, src, out)
  {
    hide HoldsDefault, DefaultedMember, SlotOf, SlotCount;
    forall i | 0 <= i < |fields|
      ensures (SlotInRange(fields, i); RebuiltMember(fields[i], src[SlotOf(fields, i)], out[SlotOf(fields, i)]))
    {
      SlotInRange(fields, i);
      MemberLeftOut(fields[i], src[SlotOf(fields, i)], out[SlotOf(fields, i)]);
    }
  }

  lemma MemberLeftOut(f: Field, src: Member, out: Member)
    requires WellFormedField(f) && !f.FixedCount() && HoldsDefault(f, src) && DefaultedMember(f, out)
    ensures RebuiltMember(f, src, out)
  {
  }

  // ----- Except behind a mistaken count

  /** The entries lie one after the other. */
  lemma {:induction false} ArrayByteAt(f: Field, items: seq<Value>, n: nat, i: nat, j: nat)
    requires i < n <= |items| && j < f.dataSize
    requires forall k :: 0 <= k < n ==> |EntryBytes(f, items[k])| == f.dataSize
    ensures 0 <= i * f.dataSize + j < n * f.dataSize == |ArrayBytes(f, items, n)|
    ensures ArrayBytes(f, items, n)[i * f.dataSize + j] == EntryBytes(f, items[i])[j]
    decreases n
  {
    hide EntryBytes;
    var before := ArrayBytes(f, items, n - 1);
    assert n * f.dataSize == (n - 1) * f.dataSize + f.dataSize;
    if n == 1 {
      assert before == [] && i * f.dataSize == 0;
    } else {
      ArrayByteAt(f, items, n - 1, if i < n - 1 then i else 0, j);
      assert |before| == (n - 1) * f.dataSize;
    }
  }

  function First(bs: seq<byte>, n: nat): seq<byte> { if |bs| <= n then bs else bs[..n] }

  /** The part of an entry that is taken for part of the count. */
  function InCount(f: Field, m: Member, i: nat): seq<byte>
    requires f.htype.Repeated? && i < f.arraySize && i * f.dataSize < COUNT_BYTES
  {
    First(EntryBytes(f, Items(f, m)[i]), COUNT_BYTES - i * f.dataSize)
  }

  predicate FixedWidth(f: Field) { f.Packable() || f.ltype.String? || f.ltype.FixedLengthBytes? }

  /** What the check looks at is the first four bytes of the array. */
  lemma CountIsFirstBytes(f: Field, m: Member)
    requires f.FixedCount() && FixedWidth(f) && f.arraySize * f.dataSize >= COUNT_BYTES
    ensures |ArrayBytes(f, Items(f, m), f.arraySize)| >= COUNT_BYTES
    ensures HoldsDefault(f, m) <==> AllZero(ArrayBytes(f, Items(f, m), f.arraySize)[..COUNT_BYTES])
  {
    hide ArrayBytes, AllZero, EntryBytes;
    EntriesAreWide(f, m);
    ArrayByteAt(f, Items(f, m), f.arraySize, 0, 0);
    var bs := ArrayBytes(f, Items(f, m), f.arraySize);
    assert bs[..|bs|] == bs;
    assert MistakenCount(f, m) == bs[..COUNT_BYTES];
  }

  lemma ZeroIfEntriesAre(f: Field, m: Member, p: nat)
    requires f.htype.Repeated? && FixedWidth(f) && p < COUNT_BYTES <= f.arraySize * f.dataSize
    requires forall i :: 0 <= i < f.arraySize && i * f.dataSize < COUNT_BYTES ==> AllZero(InCount(f, m, i))
    ensures var bs := ArrayBytes(f, Items(f, m), f.arraySize); p < |bs| && bs[p] == 0
  {
    hide ArrayBytes;
    EntriesAreWide(f, m);
    hide EntryBytes;
    var i, j := EntryAt(f.arraySize, f.dataSize, p);
    ArrayByteAt(f, Items(f, m), f.arraySize, i, j);
    assert InCount(f, m, i)[j] == 0;
  }

  lemma EntriesAreZero(f: Field, m: Member, i: nat)
    requires f.htype.Repeated? && FixedWidth(f) && i < f.arraySize && i * f.dataSize < COUNT_BYTES
    requires var bs := ArrayBytes(f, Items(f, m), f.arraySize); |bs| >= COUNT_BYTES && AllZero(bs[..COUNT_BYTES])
    ensures AllZero(InCount(f, m, i))
  {
    hide ArrayBytes;
    EntriesAreWide(f, m);
    hide EntryBytes;
    forall j | 0 <= j < |InCount(f, m, i)|
      ensures InCount(f, m, i)[j] == 0
    {
      ArrayByteAt(f, Items(f, m), f.arraySize, i, j);
      assert ArrayBytes(f, Items(f, m), f.arraySize)[..COUNT_BYTES][i * f.dataSize + j] == 0;
    }
  }

  lemma EntriesAreWide(f: Field, m: Member)
    requires f.htype.Repeated? && FixedWidth(f)
    ensures forall k :: 0 <= k < f.arraySize ==> |EntryBytes(f, Items(f, m)[k])| == f.dataSize
  {
    hide LittleEndian, Buffer, ToUnsigned64;
  }

  /**
    Whether an array without a count is left out is decided by its first four bytes alone:
    the entries that begin in them must be zero as far as they lie there.
   */
  lemma FirstEntriesDecide(f: Field, m: Member)
    requires f.FixedCount() && FixedWidth(f) && f.arraySize * f.dataSize >= COUNT_BYTES
    ensures HoldsDefault(f, m) <==>
            forall i :: 0 <= i < f.arraySize && i * f.dataSize < COUNT_BYTES ==> AllZero(InCount(f, m, i))
  {
    hide HoldsDefault, EntryBytes, ArrayBytes, InCount;
    CountIsFirstBytes(f, m);
    if HoldsDefault(f, m) {
      forall i | 0 <= i < f.arraySize && i * f.dataSize < COUNT_BYTES
        ensures AllZero(InCount(f, m, i))
      {
        EntriesAreZero(f, m, i);
      }
    } else if forall i :: 0 <= i < f.arraySize && i * f.dataSize < COUNT_BYTES ==> AllZero(InCount(f, m, i)) {
      forall p | 0 <= p < COUNT_BYTES
        ensures ArrayBytes(f, Items(f, m), f.arraySize)[p] == 0
      {
        ZeroIfEntriesAre(f, m, p);
      }
      assert false;
    }
  }

  /** The entry a byte lies in, and where. */
  lemma EntryAt(n: nat, d: nat, p: nat) returns (i: nat, j: nat)
    requires d > 0 && p < n * d
    ensures i < n && j < d && i * d + j == p
  {
    i, j := p / d, p % d;
    assert i * d + j == p;
    Ordered(i, n, d);
  }

  lemma Ordered(i: nat, n: nat, d: nat)
    ensures n <= i ==> n * d <= i * d
  {
  }

  /** Of byte arrays the length of the first one decides, which is what lies there. */
  lemma FirstLengthDecides(f: Field, m: Member)
    requires f.FixedCount() && f.ltype.Bytes? && f.arraySize > 0 && |BytesInUse(Items(f, m)[0])| < TWO_32
    ensures HoldsDefault(f, m) <==> BytesInUse(Items(f, m)[0]) == []
  {
    hide LittleEndian, ArrayBytes, AllZero, Shl;
    var n := |BytesInUse(Items(f, m)[0])|;
    ArrayStarts(f, Items(f, m), f.arraySize);
    assert MistakenCount(f, m) == LittleEndian(n, COUNT_BYTES);
    ZerosAreZero(COUNT_BYTES);
    if AllZero(LittleEndian(n, COUNT_BYTES)) {
      var q := ZeroWord(n, COUNT_BYTES);
      ShlWidths(q);
    }
  }

  lemma {:induction false} ArrayStarts(f: Field, items: seq<Value>, n: nat)
    requires 0 < n <= |items|
    ensures EntryBytes(f, items[0]) <= ArrayBytes(f, items, n)
  {
    hide EntryBytes;
    if n > 1 {
      ArrayStarts(f, items, n - 1);
    } else {
      assert [] + EntryBytes(f, items[0]) == EntryBytes(f, items[0]);
    }
  }

  /** A struct of two numbers and no count, and a field that holds one. */
  function Pair(): Field { Field(1, Fixed32, Repeated, 0, 0, 4, 2, None) }

  function Outer(): Field { Field(1, Submessage([Pair()]), Optional, 0, 0, 8, 0, None) }

  function PairOf(a: int, b: int): Member { Member(0, [Msg([Member(0, [Int(a), Int(b)])])]) }

  lemma PairCheck(a: int, b: int)
    requires 0 <= a < TWO_32
    ensures HoldsDefault(Outer(), PairOf(a, b)) <==> a == 0
  {
    hide ToUnsigned64, ArrayBytes;
    var m := Member(0, [Int(a), Int(b)]);
    FirstEntriesDecide(Pair(), m);
    assert InCount(Pair(), m, 0) == StoredBytes(Pair(), Int(a));
    if HoldsDefault(Pair(), m) {
      ZeroNumber(Pair(), Int(a));
    }
    if a == 0 {
      Wrapped(a);
      ZerosAreZero(4);
    }
  }

  /**
    Nothing at all is written for such a struct exactly when its first number is zero; the
    second, whatever it is, is then lost.
   */
  lemma PairLostExactly(a: int, b: int)
    requires 0 <= a < TWO_32
    ensures SlotCount([Outer()]) == 1
    ensures EncodeMessage([Outer()], [PairOf(a, b)]) == Some([]) <==> a == 0
  {
    hide HoldsDefault, EncodeValue;
    PairCheck(a, b);
    OuterAlone(PairOf(a, b));
  }

  lemma OuterAlone(m: Member)
    ensures SlotCount([Outer()]) == 1
    ensures EncodeMessage([Outer()], [m]) == Some([]) <==> HoldsDefault(Outer(), m)
  {
    hide HoldsDefault, EncodeValue;
    assert FieldTag(Outer()) != [];
    hide FieldTag;
    var encoded := EncodeField(Outer(), m);
    var value := EncodeValue(Outer(), Items(Outer(), m)[0]);
    assert encoded == if HoldsDefault(Outer(), m) then Some([]) else Then(Some(FieldTag(Outer())), value);
    assert encoded.Some? ==> [] + encoded.value == encoded.value;
    assert EncodeFields([Outer()], [m], 0) == Some([]);
    assert EncodeMessage([Outer()], [m]) == Then(Some([]), encoded);
  }

  lemma {:induction false} ZerosAreZero(width: nat)
    ensures AllZero(LittleEndian(0, width))
  {
    if width > 0 {
      ZerosAreZero(width - 1);
    }
  }
}
