/**
  What the wire primitives promise: the varint codecs are inverse and the encoder
  emits the shortest form, exactly which canonical varints the 32-bit reader
  takes, zigzag is a bijection, and every reader ignores what follows its value.
 */
module VarintLaws {
  import opened Bits
  import opened Parsing
  import opened Wire

  // ----- The encoder's output

  function HeadByte(v: nat): byte {
    if v < 128 then v else v % 128 + 128
  }

  function TailBytes(v: nat): seq<byte> {
    if v < 128 then [] else EncodeVarint(v / 128)
  }

  /** The first byte of an encoding, and what follows it. */
  lemma EncodeSplit(v: nat, rest: seq<byte>)
    ensures EncodeVarint(v) + rest == [HeadByte(v)] + (TailBytes(v) + rest)
  {
    assert EncodeVarint(v) == [HeadByte(v)] + TailBytes(v);
  }

  lemma HeadByteBits(v: nat)
    ensures HeadByte(v) % 128 == v % 128
    ensures HeadByte(v) >= 128 <==> v >= 128
    ensures v < 128 ==> HeadByte(v) == v
  {
  }

  /** n bytes exactly when v needs n groups of seven bits. */
  lemma {:induction false} EncodedLength(v: nat)
    ensures v < Shl(1, 7 * |EncodeVarint(v)|)
    ensures |EncodeVarint(v)| > 1 ==> v >= Shl(1, 7 * (|EncodeVarint(v)| - 1))
  {
    assert Shl(1, 7) == 128;
    if v >= 128 {
      EncodedLength(v / 128);
      var n := |EncodeVarint(v / 128)|;
      ShlSeven(1, 7 * n);
      if n > 1 {
        ShlSeven(1, 7 * (n - 1));
      }
    }
  }

  lemma EncodedLengthOf64Bits(v: nat)
    requires v < TWO_64
    ensures 1 <= |EncodeVarint(v)| <= 10
  {
    EncodedLength(v);
    if |EncodeVarint(v)| > 10 {
      ShlPast64(1, 7 * (|EncodeVarint(v)| - 1));
    }
  }

  // ----- The 64-bit reader

  /** One more group keeps the accumulator below the next position. */
  lemma GroupBound(result: nat, x: nat, bitpos: nat)
    requires result < Shl(1, bitpos) && x < 128
    ensures result + Shl(x, bitpos) < Shl(1, bitpos + 7)
  {
    ShlSeven(1, bitpos);
    ShlAdd(x, 1, bitpos);
    ShlIncreases(x + 1, 128, bitpos, bitpos);
  }

  /** A shifted value is its low group plus the rest shifted seven further. */
  lemma SplitGroup(v: nat, bitpos: nat)
    ensures Shl(v, bitpos) == Shl(v % 128, bitpos) + Shl(v / 128, bitpos + 7)
  {
    ShlSeven(v / 128, bitpos);
    ShlAdd(v % 128, 128 * (v / 128), bitpos);
  }

  lemma StepVarintAdds(b: byte, bitpos: nat, result: nat)
    requires bitpos < 64 && result < Shl(1, bitpos)
    requires Shl(b % 128, bitpos) < TWO_64
    ensures var result' := result + Shl(b % 128, bitpos);
            StepVarint(b, bitpos, result) == if b >= 128 then More(result') else Last(result')
  {
    hide BitOr, Shl;
    BitOrAbove(result, b % 128, bitpos);
  }

  lemma {:induction false} ReadVarintStep(v: nat, rest: seq<byte>, bitpos: nat, result: nat)
    ensures ReadVarint(EncodeVarint(v) + rest, bitpos, result) ==
            var step := StepVarint(HeadByte(v), bitpos, result);
            if step.Reject? then Fail
            else if step.More? then ReadVarint(TailBytes(v) + rest, bitpos + 7, step.result)
            else Ok(step.result, rest)
  {
    hide EncodeVarint, StepVarint, HeadByte;
    EncodeSplit(v, rest);
    HeadByteBits(v);
    var bs := [HeadByte(v)] + (TailBytes(v) + rest);
    assert bs[1..] == TailBytes(v) + rest;
  }

  lemma {:induction false} ReadVarintOfEncoded(v: nat, rest: seq<byte>, bitpos: nat, result: nat)
    requires bitpos < 64 && result < Shl(1, bitpos)
    requires Shl(v, bitpos) < TWO_64
    ensures ReadVarint(EncodeVarint(v) + rest, bitpos, result) == Ok(result + Shl(v, bitpos), rest)
    decreases v
  {
    hide EncodeVarint, ReadVarint, StepVarint, Shl, HeadByte;
    HeadByteBits(v);
    SplitGroup(v, bitpos);
    assert v == v % 128 + 128 * (v / 128);
    StepVarintAdds(HeadByte(v), bitpos, result);
    ReadVarintStep(v, rest, bitpos, result);
    if v >= 128 {
      GroupBound(result, v % 128, bitpos);
      if bitpos + 7 >= 64 {
        ShlPast64(v / 128, bitpos + 7);
      }
      ReadVarintOfEncoded(v / 128, rest, bitpos + 7, result + Shl(v % 128, bitpos));
    } else {
      ShlZero(bitpos + 7);
    }
  }

  /** The round trip: the reader returns v and consumes exactly the 1 to 10 bytes that were written. */
  lemma DecodeVarintInvertsEncode(v: nat, rest: seq<byte>)
    requires v < TWO_64
    ensures DecodeVarint(EncodeVarint(v) + rest) == Ok(v, rest)
    ensures 1 <= |EncodeVarint(v)| <= 10
  {
    ReadVarintOfEncoded(v, rest, 0, 0);
    EncodedLengthOf64Bits(v);
  }

  /** Whatever the byte, the accumulator stays below the next bit position and 2^64. */
  lemma StepVarintBound(b: byte, bitpos: nat, result: nat)
    requires result < Shl(1, bitpos)
    requires !StepVarint(b, bitpos, result).Reject?
    ensures StepVarint(b, bitpos, result).result < Shl(1, bitpos + 7)
    ensures StepVarint(b, bitpos, result).result < TWO_64
  {
    hide BitOr, Shl;
    var x := b % 128;
    var kept := ShlIn64Bits(x, bitpos);
    BitOrAbove(result, kept, bitpos);
    GroupBound(result, kept, bitpos);
  }

  lemma {:induction false} ReadVarintBound(bs: seq<byte>, bitpos: nat, result: nat)
    requires result < Shl(1, bitpos)
    requires ReadVarint(bs, bitpos, result).Ok?
    ensures var r := ReadVarint(bs, bitpos, result);
            r.value < Shl(1, bitpos + 7 * (|bs| - |r.rest|)) && r.value < TWO_64
    decreases |bs|
  {
    hide StepVarint, Shl;
    StepVarintBound(bs[0], bitpos, result);
    var step := StepVarint(bs[0], bitpos, result);
    if step.More? {
      ReadVarintBound(bs[1..], bitpos + 7, step.result);
    }
  }

  /** No string the reader takes for v is shorter than the one the encoder emits. */
  lemma EncodeVarintIsShortest(bs: seq<byte>)
    requires DecodeVarint(bs).Ok?
    ensures var r := DecodeVarint(bs); |EncodeVarint(r.value)| <= |bs| - |r.rest|
  {
    var r := DecodeVarint(bs);
    ReadVarintBound(bs, 0, 0);
    EncodedLength(r.value);
    var used, shortest := |bs| - |r.rest|, |EncodeVarint(r.value)|;
    if shortest > used {
      ShlIncreases(1, 1, 7 * used, 7 * (shortest - 1));
    }
  }

  // ----- The 32-bit reader

  /** `groups` seven-bit groups all zero or all one, and then the single bit 63. */
  predicate HighGroupsUniform(w: nat, groups: nat) {
    if groups == 0 then w == 1
    else (w % 128 == 0 || w % 128 == 127) && HighGroupsUniform(w / 128, groups - 1)
  }

  /**
    The values whose canonical varint the 32-bit reader takes: those that fit, and
    those that look like a sign-extended negative number.  Bits 32 to 34 share a
    byte with bits 28 to 31 and go unchecked.
   */
  predicate Accepted32(v: nat) {
    v < TWO_32 || (v / TWO_31 % 2 == 1 && HighGroupsUniform(v / 0x8_0000_0000, 4))
  }

  lemma {:induction false} ReadVarint32Step(v: nat, rest: seq<byte>, bitpos: nat, result: nat)
    requires bitpos < 249
    ensures ReadVarint32(EncodeVarint(v) + rest, bitpos, result) ==
            var step := StepVarint32(HeadByte(v), bitpos, result);
            if step.Reject? then Fail
            else if step.More? then ReadVarint32(TailBytes(v) + rest, bitpos + 7, step.result)
            else Ok(step.result, rest)
  {
    hide EncodeVarint, StepVarint32, HeadByte;
    EncodeSplit(v, rest);
    HeadByteBits(v);
    var bs := [HeadByte(v)] + (TailBytes(v) + rest);
    assert bs[1..] == TailBytes(v) + rest;
  }

  /** One byte past bit 31: checked, not stored. */
  lemma StepPastBit31(w: nat, bitpos: nat, result: nat)
    requires 35 <= bitpos <= 63 && w > 0
    requires bitpos == 63 ==> w == 1
    ensures StepVarint32(HeadByte(w), bitpos, result) ==
            if bitpos == 63 then (if result >= TWO_31 then Last(result) else Reject)
            else if w >= 128 && (w % 128 == 0 || (w % 128 == 127 && result >= TWO_31)) then More(result)
            else Reject
  {
    hide BitOr, Shl;
    assert result / TWO_31 != 0 <==> result >= TWO_31;
  }

  lemma {:induction false} ReadHighGroups(w: nat, groups: nat, result: nat, rest: seq<byte>)
    requires groups <= 4 && 0 < w < Shl(2, 7 * groups)
    ensures ReadVarint32(EncodeVarint(w) + rest, 63 - 7 * groups, result) ==
            if result >= TWO_31 && HighGroupsUniform(w, groups) then Ok(result, rest) else Fail
    decreases groups
  {
    hide EncodeVarint, ReadVarint32, StepVarint32, HeadByte;
    ReadVarint32Step(w, rest, 63 - 7 * groups, result);
    StepPastBit31(w, 63 - 7 * groups, result);
    if groups > 0 {
      if w < 128 {
        ZeroIsNotUniform(groups - 1);
      } else {
        ShlSeven(2, 7 * (groups - 1));
        ReadHighGroups(w / 128, groups - 1, result, rest);
      }
    }
  }

  lemma {:induction false} ZeroIsNotUniform(groups: nat)
    ensures !HighGroupsUniform(0, groups)
  {
    if groups > 0 {
      ZeroIsNotUniform(groups - 1);
    }
  }

  /** A byte of the 32-bit reader while all its bits are stored. */
  lemma StepLow(b: byte, bitpos: nat, result: nat)
    requires bitpos <= 21 && result < Shl(1, bitpos)
    ensures var result' := result + Shl(b % 128, bitpos);
            && result' < Shl(1, bitpos + 7)
            && StepVarint32(b, bitpos, result) == if b >= 128 then More(result') else Last(result')
  {
    hide BitOr, Shl;
    GroupBound(result, b % 128, bitpos);
    ShlIncreases(1, 1, bitpos + 7, 28);
    ShlBy28(1);
    BitOrAbove(result, b % 128, bitpos);
  }

  lemma FifthByteStores(result: nat, x: nat)
    requires result < 0x1000_0000 && x < 128
    ensures BitOr(result, Shl(x, 28) % TWO_32) == result + 0x1000_0000 * (x % 16)
  {
    hide BitOr, Shl;
    ShlBy28(1);
    ShlBy28(x);
    ShlBy28(x % 16);
    assert x == 16 * (x / 16) + x % 16;
    BitOrAbove(result, x % 16, 28);
  }

  lemma HeadByteNibbles(w: nat)
    ensures HeadByte(w) % 128 % 16 == w % 16
    ensures w < 128 ==> (HeadByte(w) / 16 % 8 != 0 <==> w >= 16)
  {
    // The nibbles of the low group, which the continuation bit does not touch.
    var q, high, low := w / 128, w % 128 / 16, w % 16;
    assert w == 128 * q + 16 * high + low;
    assert HeadByte(w) == 16 * high + low || HeadByte(w) == 16 * (high + 8) + low;
  }

  /** The fifth byte stores four bits; with more it may not be the last. */
  lemma StepFifthByte(w: nat, result: nat)
    requires result < 0x1000_0000
    ensures var result' := result + 0x1000_0000 * (w % 16);
            StepVarint32(HeadByte(w), 28, result) ==
            if w >= 128 then More(result') else if w >= 16 then Reject else Last(result')
  {
    hide BitOr, Shl, AcceptsHighByte, HeadByte;
    HeadByteBits(w);
    HeadByteNibbles(w);
    FifthByteStores(result, HeadByte(w) % 128);
  }

  /** Where the bits of the whole value stand when the reader reaches bit 28. */
  lemma SplitAtBit28(w: nat, result: nat)
    requires result < 0x1000_0000
    ensures var v := result + 0x1000_0000 * w;
            && v % TWO_32 == result + 0x1000_0000 * (w % 16)
            && v / 0x8_0000_0000 == w / 128
            && (v >= TWO_32 <==> w >= 16)
            && (v / TWO_31 % 2 == 1 <==> result + 0x1000_0000 * (w % 16) >= TWO_31)
  {
    var v, low := result + 0x1000_0000 * w, result + 0x1000_0000 * (w % 16);
    assert w == 16 * (w / 16) + w % 16;
    assert v == TWO_32 * (w / 16) + low && 0 <= low < TWO_32;
    var top := if low >= TWO_31 then 1 else 0;
    assert v == TWO_31 * (2 * (w / 16) + top) + (low - TWO_31 * top);
    var seven := w % 128;
    assert w == 128 * (w / 128) + seven;
    assert v == 0x8_0000_0000 * (w / 128) + (result + 0x1000_0000 * seven);
  }

  /** Reading from bit position 28 on. */
  lemma ReadFromBit28(w: nat, result: nat, rest: seq<byte>)
    requires result < 0x1000_0000 && 0 < w < 0x10_0000_0000
    ensures var v := result + 0x1000_0000 * w;
            ReadVarint32(EncodeVarint(w) + rest, 28, result) ==
            if Accepted32(v) then Ok(v % TWO_32, rest) else Fail
  {
    hide ReadVarint32, StepVarint32, EncodeVarint, HeadByte, HighGroupsUniform, Shl;
    ReadVarint32Step(w, rest, 28, result);
    StepFifthByte(w, result);
    SplitAtBit28(w, result);
    if w < 128 {
      ZeroIsNotUniform(4);
    } else {
      ShlBy28(2);
      ReadHighGroups(w / 128, 4, result + 0x1000_0000 * (w % 16), rest);
    }
  }

  /** Reading the bytes at bit positions 7 to 28, `result` holding the bits below. */
  lemma {:induction false} ReadLowGroups(w: nat, bitpos: nat, result: nat, rest: seq<byte>)
    requires bitpos == 7 || bitpos == 14 || bitpos == 21 || bitpos == 28
    requires result < Shl(1, bitpos) && 0 < w && Shl(w, bitpos) < TWO_64
    ensures var v := result + Shl(w, bitpos);
            ReadVarint32(EncodeVarint(w) + rest, bitpos, result) ==
            if Accepted32(v) then Ok(v % TWO_32, rest) else Fail
    decreases 28 - bitpos
  {
    hide ReadVarint32, StepVarint32, Accepted32, EncodeVarint, HeadByte, Shl;
    if bitpos == 28 {
      ShlBy28(1);
      ShlBy28(w);
      ReadFromBit28(w, result, rest);
    } else {
      SplitGroup(w, bitpos);
      HeadByteBits(w);
      ReadVarint32Step(w, rest, bitpos, result);
      StepLow(HeadByte(w), bitpos, result);
      if w < 128 {
        ShlZero(bitpos + 7);
        SmallIsAccepted(result, w, bitpos);
      } else {
        ReadLowGroups(w / 128, bitpos + 7, result + Shl(w % 128, bitpos), rest);
      }
    }
  }

  lemma SmallIsAccepted(result: nat, w: nat, bitpos: nat)
    requires bitpos <= 21 && result < Shl(1, bitpos) && w < 128
    ensures result + Shl(w, bitpos) < TWO_32 && Accepted32(result + Shl(w, bitpos))
  {
    GroupBound(result, w, bitpos);
    ShlIncreases(1, 1, bitpos + 7, 28);
    ShlBy28(1);
    hide Shl;
  }

  /** A varint of one byte, or the first byte of a longer one. */
  lemma {:induction false} DecodeVarint32Start(v: nat, rest: seq<byte>)
    ensures DecodeVarint32(EncodeVarint(v) + rest) ==
            if v < 128 then Ok(v, rest) else ReadVarint32(TailBytes(v) + rest, 7, v % 128)
  {
    hide ReadVarint32, EncodeVarint;
    EncodeSplit(v, rest);
    HeadByteBits(v);
    var bs := [HeadByte(v)] + (TailBytes(v) + rest);
    assert bs[1..] == TailBytes(v) + rest;
  }

  /** Exactly which canonical varints the 32-bit reader takes, and what it returns. */
  lemma {:induction false} DecodeVarint32OfEncoded(v: nat, rest: seq<byte>)
    requires v < TWO_64
    ensures DecodeVarint32(EncodeVarint(v) + rest) == if Accepted32(v) then Ok(v % TWO_32, rest) else Fail
  {
    hide DecodeVarint32, ReadVarint32, EncodeVarint, HighGroupsUniform;
    DecodeVarint32Start(v, rest);
    if v >= 128 {
      ShlSeven(1, 0);
      ShlSeven(v / 128, 0);
      ReadLowGroups(v / 128, 7, v % 128, rest);
    }
  }

  /** The three ranges a caller can check before the call. */
  lemma Accepted32Ranges(v: nat)
    requires v < TWO_64
    ensures v < TWO_32 ==> Accepted32(v)
    ensures v >= TWO_64 - TWO_31 ==> Accepted32(v) && v % TWO_32 == v - (TWO_64 - TWO_32)
    ensures TWO_32 <= v < TWO_63 ==> !Accepted32(v)
  {
    var w := v / 0x8_0000_0000;
    if v >= TWO_64 - TWO_31 {
      assert w == 0x1FFF_FFFF;
      assert HighGroupsUniform(w / 128 / 128 / 128 / 128, 0);
      assert HighGroupsUniform(w / 128 / 128 / 128, 1);
      assert HighGroupsUniform(w / 128 / 128, 2);
      assert HighGroupsUniform(w / 128, 3);
    } else if TWO_32 <= v < TWO_63 {
      assert w / 128 / 128 / 128 / 128 == 0;
      assert !HighGroupsUniform(w / 128 / 128 / 128 / 128, 0);
      assert !HighGroupsUniform(w / 128 / 128 / 128, 1);
      assert !HighGroupsUniform(w / 128 / 128, 2);
      assert !HighGroupsUniform(w / 128, 3);
    }
  }

  /** On canonical input: small values are read as they are, those that are small and negative as 32 bits, others refused. */
  lemma DecodeVarint32InvertsEncode(v: nat, rest: seq<byte>)
    requires v < TWO_64
    ensures v < TWO_32 ==> DecodeVarint32(EncodeVarint(v) + rest) == Ok(v, rest)
    ensures v >= TWO_64 - TWO_31 ==> DecodeVarint32(EncodeVarint(v) + rest) == Ok(v - (TWO_64 - TWO_32), rest)
    ensures TWO_32 <= v < TWO_63 ==> DecodeVarint32(EncodeVarint(v) + rest).Fail?
  {
    hide DecodeVarint32, EncodeVarint, HighGroupsUniform, Accepted32;
    DecodeVarint32OfEncoded(v, rest);
    Accepted32Ranges(v);
  }

  // ----- Zigzag and fixed-width words

  /** The 64-bit shift-and-complement code computes the zigzag numbering. */
  lemma ZigZagNumbering(n: int)
    requires -TWO_63 <= n < TWO_63
    ensures ZigZag(n) == (if n >= 0 then 2 * n else -2 * n - 1) && ZigZag(n) < TWO_64
  {
    if n < 0 {
      assert ToUnsigned64(n) == n + TWO_64;
      assert (n + TWO_64) * 2 % TWO_64 == 2 * n + TWO_64;
    }
  }

  /** The decoder's side of the numbering. */
  lemma UnZigZagNumbering(u: nat)
    requires u < TWO_64
    ensures UnZigZag(u) == if u % 2 == 0 then u / 2 else -(u / 2) - 1
  {
    assert u / 2 < TWO_63;
  }

  lemma ZigZagBijective(n: int, u: nat)
    requires -TWO_63 <= n < TWO_63 && u < TWO_64
    ensures UnZigZag(ZigZag(n)) == n
    ensures -TWO_63 <= UnZigZag(u) < TWO_63 && ZigZag(UnZigZag(u)) == u
  {
    hide ZigZag, UnZigZag;
    ZigZagNumbering(n);
    UnZigZagNumbering(ZigZag(n));
    UnZigZagNumbering(u);
    ZigZagNumbering(UnZigZag(u));
  }

  lemma {:induction false} LittleEndianInverse(v: nat, width: nat)
    requires v < Shl(1, 8 * width)
    ensures FromLittleEndian(LittleEndian(v, width)) == v
  {
    if width > 0 {
      ShlSeven(1, 8 * (width - 1) + 1);
      LittleEndianInverse(v / 256, width - 1);
      assert LittleEndian(v, width)[1..] == LittleEndian(v / 256, width - 1);
    }
  }

  // ----- Tags

  lemma DecodeTagInvertsEncode(wt: WireType, tag: nat, rest: seq<byte>)
    requires !wt.WtInvalid? && 0 < tag < 0x2000_0000
    ensures DecodeTag(EncodeTag(wt, tag) + rest) == Tag(wt, tag, rest)
  {
    hide EncodeVarint, DecodeVarint32;
    DecodeVarint32InvertsEncode(tag * 8 + WireCode(wt), rest);
    assert (tag * 8 + WireCode(wt)) % 8 == WireCode(wt);
  }

  lemma {:induction false} TakeDelimitedInverse(data: seq<byte>, rest: seq<byte>)
    requires |data| < TWO_32
    ensures TakeDelimited(Delimited(data) + rest) == Ok(data, rest)
  {
    hide EncodeVarint, DecodeVarint32;
    assert |data| % TWO_64 == |data|;
    assert Delimited(data) + rest == EncodeVarint(|data|) + (data + rest);
    DecodeVarint32InvertsEncode(|data|, data + rest);
  }

  // ----- Readers do not look past their value

  lemma {:induction false} ReadVarintExtends(bs: seq<byte>, bitpos: nat, result: nat, more: seq<byte>)
    requires ReadVarint(bs, bitpos, result).Ok?
    ensures var r := ReadVarint(bs, bitpos, result);
            ReadVarint(bs + more, bitpos, result) == Ok(r.value, r.rest + more)
    decreases |bs|
  {
    hide StepVarint;
    assert (bs + more)[1..] == bs[1..] + more;
    var step := StepVarint(bs[0], bitpos, result);
    if step.More? {
      ReadVarintExtends(bs[1..], bitpos + 7, step.result, more);
    }
  }

  lemma {:induction false} ReadVarint32Extends(bs: seq<byte>, bitpos: nat, result: nat, more: seq<byte>)
    requires ReadVarint32(bs, bitpos, result).Ok?
    ensures var r := ReadVarint32(bs, bitpos, result);
            ReadVarint32(bs + more, bitpos, result) == Ok(r.value, r.rest + more)
    decreases |bs|
  {
    hide StepVarint32;
    assert (bs + more)[1..] == bs[1..] + more;
    var step := StepVarint32(bs[0], bitpos, result);
    if step.More? {
      ReadVarint32Extends(bs[1..], Advance(bitpos), step.result, more);
    }
  }

  lemma DecodeVarint32Extends(bs: seq<byte>, more: seq<byte>)
    requires DecodeVarint32(bs).Ok?
    ensures var r := DecodeVarint32(bs); DecodeVarint32(bs + more) == Ok(r.value, r.rest + more)
  {
    assert (bs + more)[1..] == bs[1..] + more;
    if bs[0] >= 128 {
      ReadVarint32Extends(bs[1..], 7, bs[0] % 128, more);
    }
  }

  lemma DecodeTagExtends(bs: seq<byte>, more: seq<byte>)
    requires DecodeTag(bs).Tag?
    ensures var r := DecodeTag(bs); DecodeTag(bs + more) == Tag(r.wt, r.tag, r.rest + more)
  {
    DecodeVarint32Extends(bs, more);
  }

  lemma TakeExtends(bs: seq<byte>, n: nat, more: seq<byte>)
    requires Take(bs, n).Ok?
    ensures var r := Take(bs, n); Take(bs + more, n) == Ok(r.value, r.rest + more)
  {
    assert (bs + more)[..n] == bs[..n];
    assert (bs + more)[n..] == bs[n..] + more;
  }

  lemma TakeDelimitedExtends(bs: seq<byte>, more: seq<byte>)
    requires TakeDelimited(bs).Ok?
    ensures var r := TakeDelimited(bs); TakeDelimited(bs + more) == Ok(r.value, r.rest + more)
  {
    DecodeVarint32Extends(bs, more);
    var r := DecodeVarint32(bs);
    TakeExtends(r.rest, r.value, more);
  }

  lemma {:induction false} SkipVarintExtends(bs: seq<byte>, more: seq<byte>)
    requires SkipVarint(bs).Ok?
    ensures SkipVarint(bs + more) == Ok((), SkipVarint(bs).rest + more)
  {
    assert (bs + more)[1..] == bs[1..] + more;
    if bs[0] >= 128 {
      SkipVarintExtends(bs[1..], more);
    }
  }

  lemma SkipFieldExtends(wt: WireType, bs: seq<byte>, more: seq<byte>)
    requires SkipField(wt, bs).Ok?
    ensures SkipField(wt, bs + more) == Ok((), SkipField(wt, bs).rest + more)
  {
    match wt
    case WtVarint => SkipVarintExtends(bs, more);
    case Wt64Bit => TakeExtends(bs, 8, more);
    case WtString => TakeDelimitedExtends(bs, more);
    case Wt32Bit => TakeExtends(bs, 4, more);
  }
}
