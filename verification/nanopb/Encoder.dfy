/**
  The encoder itself: output streams that write into a buffer or only count, and the
  methods that encode values, arrays, fields and messages onto them.  A nested
  message is encoded twice, first to learn its size.  Every method is proved to put
  exactly the bytes of the Encoding functions on the stream.
 */
module Encoder {
  import opened Wrappers
  import opened Bits
  import opened Wire
  import opened VarintLaws
  import opened Descriptor
  import opened Encoding
  import opened FieldIterator

  /** The two outcomes of an encoder call; failures keep their reason. */
  datatype Result = Success | Failure(error: Error)
  datatype Error = StreamFull | ArraySizeExceeded | BytesSizeExceeded | InvalidDataSize | InvalidType | SubmessageSizeChanged

  /** A stream's fields with the contents of the buffer it writes to. */
  datatype OutState = OutState(callback: bool, buf: seq<byte>, state: nat, maxSize: nat, written: nat) {
    /** What is left of the size limit lies inside the buffer. */
    predicate Valid() {
      callback ==> written <= maxSize && state + (maxSize - written) <= |buf|
    }
  }

  /**
    What writing `e` does to a stream.  A sizing stream only counts.  A real one takes
    all the bytes or fails: exactly when they do not fit, or there are none to write;
    and it never touches the buffer outside the bytes it claims to have written.
   */
  predicate Puts(pre: OutState, e: Encoded, r: Result, post: OutState) {
    && post.Valid()
    && post.callback == pre.callback && post.maxSize == pre.maxSize && |post.buf| == |pre.buf|
    && r != Failure(SubmessageSizeChanged)
    && if pre.callback then
         && (r.Success? <==> e.Some? && pre.written + |e.value| <= pre.maxSize)
         && (e.Some? && r.Failure? ==> r.error == StreamFull)
         && pre.written <= post.written
         && post.state - pre.state == post.written - pre.written
         && (r.Success? ==> post.written == pre.written + |e.value| && post.buf[pre.state..post.state] == e.value)
         && post.buf[..pre.state] == pre.buf[..pre.state]
         && post.buf[post.state..] == pre.buf[post.state..]
       else
         && (r.Success? <==> e.Some?)
         && (r.Success? ==> post.written == pre.written + |e.value|)
         && post.state == pre.state && post.buf == pre.buf
  }

  lemma PutsThen(a: OutState, e: Encoded, b: OutState, e': Encoded, r: Result, c: OutState)
    requires a.Valid() && Puts(a, e, Success, b) && Puts(b, e', r, c)
    ensures Puts(a, Then(e, e'), r, c)
  {
    if a.callback {
      assert c.buf[..a.state] == c.buf[..b.state][..a.state];
      if r.Success? {
        assert c.buf[a.state..b.state] == c.buf[..b.state][a.state..];
        assert b.buf[a.state..b.state] == b.buf[..b.state][a.state..];
        assert c.buf[a.state..c.state] == c.buf[a.state..b.state] + c.buf[b.state..c.state];
      }
      assert a.buf[c.state..] == a.buf[b.state..][c.state - b.state..];
      assert b.buf[c.state..] == b.buf[b.state..][c.state - b.state..];
    }
  }

  lemma PutsFailed(a: OutState, e: Encoded, r: Result, b: OutState, e': Encoded)
    requires r.Failure? && Puts(a, e, r, b)
    ensures Puts(a, Then(e, e'), r, b)
  {
  }

  lemma PutsNothing(a: OutState)
    requires a.Valid()
    ensures Puts(a, Some([]), Success, a)
  {
  }

  class OStream {
    var callback: bool
    var buf: array<byte>
    var state: nat
    var maxSize: nat
    var bytesWritten: nat

    ghost function S(): OutState
      reads this, buf
    {
      OutState(callback, buf[..], state, maxSize, bytesWritten)
    }

    /** A stream that only counts. */
    constructor Sizing()
      ensures S() == OutState(false, [], 0, 0, 0) && fresh(buf)
    {
      callback, state, maxSize, bytesWritten := false, 0, 0, 0;
      buf := new byte[0];
    }

    /** A stream onto the first `size` bytes of a buffer. */
    constructor FromBuffer(buf: array<byte>, size: nat)
      requires size <= buf.Length
      ensures S() == OutState(true, buf[..], 0, size, 0) && S().Valid() && this.buf == buf
    {
      callback, state, maxSize, bytesWritten := true, 0, size, 0;
      this.buf := buf;
    }

    method BufWrite(data: seq<byte>)
      requires state + |data| <= buf.Length
      modifies this`state, buf
      ensures state == old(state) + |data|
      ensures buf[..] == old(buf[..])[..old(state)] + data + old(buf[..])[old(state) + |data|..]
    {
      var dest := state;
      state := dest + |data|;
      for i := 0 to |data|
        modifies buf
        invariant buf[..] == old(buf[..])[..dest] + data[..i] + old(buf[..])[dest + i..]
      {
        buf[dest + i] := data[i];
      }
    }

    /** Write `count` bytes; a sizing stream is given none and only counts them. */
    method Write(data: seq<byte>, count: nat, ghost meaning: seq<byte>) returns (r: Result)
      requires S().Valid() && |meaning| == count
      requires callback ==> data == meaning
      modifies this, buf
      ensures buf == old(buf) && Puts(old(S()), Some(meaning), r, S())
    {
      if callback {
        if bytesWritten + count > maxSize {
          return Failure(StreamFull);
        }
        BufWrite(data);
      }
      bytesWritten := bytesWritten + count;
      return Success;
    }
  }

  // ----- Scalars

  /** The first byte of a varint, and the rest. */
  lemma VarintStep(v: nat)
    ensures EncodeVarint(v) == if v <= 0x7F then [v] else [v % 128 + 128] + EncodeVarint(v / 128)
  {
  }

  lemma Rebracket(before: seq<byte>, b: byte, after: seq<byte>)
    ensures before + ([b] + after) == (before + [b]) + after
  {
  }

  lemma NothingBefore(bs: seq<byte>)
    ensures [] + bs == bs
  {
  }

  lemma TakenBack(before: seq<byte>, b: byte)
    ensures (before + [b])[..|before|] == before && (before + [b])[|before|] == b
  {
  }

  method PutVarint(stream: OStream, value: nat) returns (r: Result)
    requires stream.S().Valid() && value < TWO_64
    modifies stream, stream.buf
    ensures stream.buf == old(stream.buf) && Puts(old(stream.S()), Some(EncodeVarint(value)), r, stream.S())
  {
    hide EncodeVarint, Puts;
    VarintStep(value);
    if value <= 0x7F {
      r := stream.Write([value], 1, EncodeVarint(value));
      return;
    }
    EncodedLengthOf64Bits(value);
    var buffer := new byte[10];
    var i, v := 0, value;
    ghost var done: seq<byte> := [];
    NothingBefore(EncodeVarint(value));
    while v != 0
      modifies buffer
      invariant 0 <= v < TWO_64 && 0 <= i == |done| <= 10 && buffer[..i] == done
      invariant v != 0 ==> EncodeVarint(value) == done + EncodeVarint(v)
      invariant v == 0 ==> i > 0 && done[i - 1] >= 128 && EncodeVarint(value) == done[..i - 1] + [done[i - 1] - 128]
      decreases v
    {
      VarintStep(v);
      var b := v % 128 + 128;
      buffer[i] := b;
      Rebracket(done, b, EncodeVarint(v / 128));
      TakenBack(done, b);
      assert buffer[..i + 1] == buffer[..i] + [b];
      done := done + [b];
      v := v / 128;
      i := i + 1;
    }
    buffer[i - 1] := buffer[i - 1] - 128;
    assert buffer[..i] == buffer[..i - 1] + [buffer[i - 1]];
    r := stream.Write(buffer[..i], i, EncodeVarint(value));
  }

  method PutSvarint(stream: OStream, value: int) returns (r: Result)
    requires stream.S().Valid() && -TWO_63 <= value < TWO_63
    modifies stream, stream.buf
    ensures stream.buf == old(stream.buf) && Puts(old(stream.S()), Some(EncodeVarint(ZigZag(value))), r, stream.S())
  {
    ZigZagNumbering(value);
    var zigzagged: int := ToUnsigned64(value) * 2 % TWO_64;
    if value < 0 {
      zigzagged := TWO_64 - 1 - zigzagged;
    }
    r := PutVarint(stream, zigzagged);
  }

  method PutFixed(stream: OStream, value: nat, width: nat) returns (r: Result)
    requires stream.S().Valid()
    modifies stream, stream.buf
    ensures stream.buf == old(stream.buf)
    ensures Puts(old(stream.S()), Some(LittleEndian(value, width)), r, stream.S())
  {
    r := stream.Write(LittleEndian(value, width), width, LittleEndian(value, width));
  }

  method PutTag(stream: OStream, wt: WireType, tag: nat) returns (r: Result)
    requires stream.S().Valid() && tag <= PB_SIZE_MAX && !wt.WtInvalid?
    modifies stream, stream.buf
    ensures stream.buf == old(stream.buf) && Puts(old(stream.S()), Some(EncodeTag(wt, tag)), r, stream.S())
  {
    r := PutVarint(stream, tag * 8 + WireCode(wt));
  }

  method PutString(stream: OStream, data: seq<byte>) returns (r: Result)
    requires stream.S().Valid()
    modifies stream, stream.buf
    ensures stream.buf == old(stream.buf) && Puts(old(stream.S()), Some(Delimited(data)), r, stream.S())
  {
    hide EncodeVarint;
    ghost var s0, prefix := stream.S(), Some(EncodeVarint(|data| % TWO_64));
    r := PutVarint(stream, |data| % TWO_64);
    if r.Failure? {
      PutsFailed(s0, prefix, r, stream.S(), Some(data));
      return;
    }
    ghost var s1 := stream.S();
    r := stream.Write(data, |data|, data);
    PutsThen(s0, prefix, s1, Some(data), r, stream.S());
  }

  // ----- Values and messages

  /** The length of the string in a buffer, by a scan. */
  method StringScan(buffer: seq<byte>) returns (size: nat)
    ensures size == StringLength(buffer)
  {
    size := 0;
    while size < |buffer| && buffer[size] != 0
      invariant size <= |buffer|
      invariant StringLength(buffer) == size + StringLength(buffer[size..])
    {
      assert buffer[size..][1..] == buffer[size + 1..];
      size := size + 1;
    }
  }

  /** The proto3 zero check of one field. */
  method CheckProto3Default(f: Field, m: Member) returns (isDefault: bool)
    ensures isDefault == HoldsDefault(f, m)
    decreases f
  {
    if f.htype.Required? {
      return false;
    }
    if f.htype.Repeated? {
      // The count is read at the size offset, which without a count is the array itself.
      if f.FixedCount() {
        isDefault := ScanZero(MistakenCount(f, m));
        return;
      }
      return m.size == 0;
    }
    if f.htype.Oneof? || f.HasSize() {
      return m.size == 0;
    }
    var v := Items(f, m)[0];
    match f.ltype
    case Bytes => return |BytesInUse(v)| == 0;
    case String =>
      var buffer := Buffer(f, v);
      return buffer == [] || buffer[0] == 0;
    case FixedLengthBytes => return f.dataSize == 0;
    case Submessage(fields) => isDefault := CheckAllDefault(fields, Members(fields, v));
    case _ => isDefault := ScanZero(StoredBytes(f, v));
  }

  /** Byte after byte, until one is not zero. */
  method ScanZero(bs: seq<byte>) returns (zero: bool)
    ensures zero <==> AllZero(bs)
  {
    for i := 0 to |bs|
      invariant forall k :: 0 <= k < i ==> bs[k] == 0
    {
      if bs[i] != 0 {
        return false;
      }
    }
    return true;
  }

  /** The same of a nested struct: its fields are visited in turn. */
  method CheckAllDefault(fields: seq<Field>, members: seq<Member>) returns (allDefault: bool)
    requires |members| == SlotCount(fields)
    ensures allDefault == AllHoldDefault(fields, members)
    decreases fields, 0
  {
    hide HoldsDefault, SlotOf, SlotCount;
    var iter := new FieldIter(fields, 0);
    var more := iter.Begin();
    while more
      modifies iter
      invariant iter.Valid() && iter.start == fields && (more ==> iter.pos < |fields|)
      invariant forall i :: 0 <= i < (if more then iter.pos else |fields|) ==>
                  (SlotInRange(fields, i); HoldsDefault(fields[i], members[SlotOf(fields, i)]))
      decreases if more then |fields| - iter.pos else 0
    {
      SlotInRange(fields, iter.pos);
      var isDefault := CheckProto3Default(fields[iter.pos], members[SlotOf(fields, iter.pos)]);
      if !isDefault {
        return false;
      }
      more := iter.Next();
    }
    return true;
  }

  method PutValue(stream: OStream, f: Field, v: Value) returns (r: Result)
    requires stream.S().Valid() && WellFormedField(f)
    modifies stream, stream.buf
    ensures stream.buf == old(stream.buf) && Puts(old(stream.S()), EncodeValue(f, v), r, stream.S())
    decreases f, 0, 0
  {
    hide EncodeVarint, ZigZag, LittleEndian, Delimited, EncodeMessage;
    match f.ltype
    case Varint =>
      if !IntegerSize(f.dataSize) {
        return Failure(InvalidDataSize);
      }
      r := PutVarint(stream, ToUnsigned64(Number(v)));
    case UVarint =>
      if !IntegerSize(f.dataSize) {
        return Failure(InvalidDataSize);
      }
      r := PutVarint(stream, ToUnsigned64(Number(v)));
    case SVarint =>
      if !IntegerSize(f.dataSize) {
        return Failure(InvalidDataSize);
      }
      r := PutSvarint(stream, SignedNumber(v));
    case Fixed32 => r := PutFixed(stream, ToUnsigned64(Number(v)) % TWO_32, 4);
    case Fixed64 => r := PutFixed(stream, ToUnsigned64(Number(v)), 8);
    case Bytes =>
      if |BytesInUse(v)| + BYTES_HEADER > f.dataSize {
        return Failure(BytesSizeExceeded);
      }
      r := PutString(stream, BytesInUse(v));
    case String =>
      var buffer := Buffer(f, v);
      var size := StringScan(buffer);
      r := PutString(stream, buffer[..size]);
    case Submessage(fields) => r := PutSubmessage(stream, fields, Members(fields, v));
    case FixedLengthBytes => r := PutString(stream, Buffer(f, v));
    case Extension => r := Failure(InvalidType);
  }

  /** A message as a value: none if it cannot be encoded, else its length and its bytes. */
  function DelimitedMessage(fields: seq<Field>, members: seq<Member>): Encoded
    requires |members| == SlotCount(fields)
  {
    var body := EncodeMessage(fields, members);
    if body.Some? then Some(Delimited(body.value)) else None
  }

  /**
    Encode a message twice: onto a sizing stream for its length prefix, then onto a
    substream limited to exactly that size.  The sizes never disagree.
   */
  method PutSubmessage(stream: OStream, fields: seq<Field>, members: seq<Member>) returns (r: Result)
    requires stream.S().Valid() && WellFormed(fields) && |members| == SlotCount(fields)
    modifies stream, stream.buf
    ensures stream.buf == old(stream.buf)
    ensures Puts(old(stream.S()), DelimitedMessage(fields, members), r, stream.S())
    decreases fields, 4, 0
  {
    hide EncodeVarint, EncodeMessage;
    ghost var s0 := stream.S();
    var substream := new OStream.Sizing();
    r := Encode(substream, fields, members);
    if r.Failure? {
      return;
    }
    ghost var body := EncodeMessage(fields, members).value;
    var size := substream.bytesWritten;
    assert size == |body|;
    ghost var prefix := Some(EncodeVarint(size % TWO_64));
    r := PutVarint(stream, size % TWO_64);
    if r.Failure? {
      PutsFailed(s0, prefix, r, stream.S(), Some(body));
      return;
    }
    ghost var s1 := stream.S();
    if !stream.callback {
      r := stream.Write([], size, body);
      PutsThen(s0, prefix, s1, Some(body), r, stream.S());
      return;
    }
    if stream.bytesWritten + size > stream.maxSize {
      r := Failure(StreamFull);
      assert Puts(s1, Some(body), r, stream.S());
      PutsThen(s0, prefix, s1, Some(body), r, stream.S());
      return;
    }
    substream.callback, substream.buf, substream.state := true, stream.buf, stream.state;
    substream.maxSize, substream.bytesWritten := size, 0;
    var status := Encode(substream, fields, members);
    stream.bytesWritten := stream.bytesWritten + substream.bytesWritten;
    stream.state := substream.state;
    if substream.bytesWritten != size {
      assert false;
      return Failure(SubmessageSizeChanged);
    }
    r := status;
    PutsThen(s0, prefix, s1, Some(body), r, stream.S());
  }

  // ----- Fields

  method PutTagged(stream: OStream, f: Field, v: Value) returns (r: Result)
    requires stream.S().Valid() && WellFormedField(f) && !f.ltype.Extension?
    modifies stream, stream.buf
    ensures stream.buf == old(stream.buf) && Puts(old(stream.S()), EncodeTagged(f, v), r, stream.S())
    decreases f, 1, 0
  {
    hide EncodeTag, EncodeValue;
    ghost var s0 := stream.S();
    r := PutTag(stream, WireTypeFor(f.ltype), f.tag);
    if r.Failure? {
      PutsFailed(s0, Some(FieldTag(f)), r, stream.S(), EncodeValue(f, v));
      return;
    }
    ghost var s1 := stream.S();
    r := PutValue(stream, f, v);
    PutsThen(s0, Some(FieldTag(f)), s1, EncodeValue(f, v), r, stream.S());
  }

  lemma {:induction false} ItemsFailed(a: OutState, f: Field, items: seq<Value>, i: nat, n: nat, r: Result, b: OutState)
    requires i <= n <= |items| && r.Failure? && Puts(a, EncodeItems(f, items, i), r, b)
    ensures Puts(a, EncodeItems(f, items, n), r, b)
    decreases n
  {
    hide Puts, EncodeValue;
    if i < n {
      ItemsFailed(a, f, items, i, n - 1, r, b);
      PutsFailed(a, EncodeItems(f, items, n - 1), r, b, EncodeValue(f, items[n - 1]));
    }
  }

  /** The first `count` entries of an array, without tags. */
  method PutItems(stream: OStream, f: Field, items: seq<Value>, count: nat) returns (r: Result)
    requires stream.S().Valid() && WellFormedField(f) && count <= |items|
    modifies stream, stream.buf
    ensures stream.buf == old(stream.buf) && Puts(old(stream.S()), EncodeItems(f, items, count), r, stream.S())
    decreases f, 1, 0
  {
    ghost var s0 := stream.S();
    PutsNothing(s0);
    for i := 0 to count
      invariant stream.buf == old(stream.buf) && Puts(s0, EncodeItems(f, items, i), Success, stream.S())
    {
      ghost var si := stream.S();
      hide Puts, EncodeValue, WellFormedField;
      PutsValid(s0, EncodeItems(f, items, i), Success, si);
      r := PutValue(stream, f, items[i]);
      PutsThen(s0, EncodeItems(f, items, i), si, EncodeValue(f, items[i]), r, stream.S());
      if r.Failure? {
        ItemsFailed(s0, f, items, i + 1, count, r, stream.S());
        return;
      }
    }
    r := Success;
  }

  lemma PutsValid(a: OutState, e: Encoded, r: Result, b: OutState)
    requires Puts(a, e, r, b)
    ensures b.Valid()
  {
  }

  lemma {:induction false} TaggedItemsFailed(a: OutState, f: Field, items: seq<Value>, i: nat, n: nat, r: Result, b: OutState)
    requires i <= n <= |items| && r.Failure? && Puts(a, EncodeTaggedItems(f, items, i), r, b)
    ensures Puts(a, EncodeTaggedItems(f, items, n), r, b)
    decreases n
  {
    hide Puts, EncodeTagged;
    if i < n {
      TaggedItemsFailed(a, f, items, i, n - 1, r, b);
      PutsFailed(a, EncodeTaggedItems(f, items, n - 1), r, b, EncodeTagged(f, items[n - 1]));
    }
  }

  method PutTaggedItems(stream: OStream, f: Field, items: seq<Value>, count: nat) returns (r: Result)
    requires stream.S().Valid() && WellFormedField(f) && !f.ltype.Extension? && count <= |items|
    modifies stream, stream.buf
    ensures stream.buf == old(stream.buf)
    ensures Puts(old(stream.S()), EncodeTaggedItems(f, items, count), r, stream.S())
    decreases f, 2, 0
  {
    ghost var s0 := stream.S();
    PutsNothing(s0);
    for i := 0 to count
      invariant stream.buf == old(stream.buf) && Puts(s0, EncodeTaggedItems(f, items, i), Success, stream.S())
    {
      ghost var si := stream.S();
      hide Puts, EncodeTagged, WellFormedField;
      PutsValid(s0, EncodeTaggedItems(f, items, i), Success, si);
      r := PutTagged(stream, f, items[i]);
      PutsThen(s0, EncodeTaggedItems(f, items, i), si, EncodeTagged(f, items[i]), r, stream.S());
      if r.Failure? {
        TaggedItemsFailed(s0, f, items, i + 1, count, r, stream.S());
        return;
      }
    }
    r := Success;
  }

  lemma {:induction false} FixedItemsLength(f: Field, items: seq<Value>, n: nat)
    requires n <= |items| && (f.ltype.Fixed32? || f.ltype.Fixed64?)
    ensures EncodeItems(f, items, n).Some?
    ensures |EncodeItems(f, items, n).value| == (if f.ltype.Fixed32? then 4 else 8) * n
  {
    hide LittleEndian;
    if n > 0 {
      FixedItemsLength(f, items, n - 1);
    }
  }

  /** The byte count of a packed array: by its width, or by encoding it onto a sizing stream. */
  method PackedSize(f: Field, items: seq<Value>, count: nat) returns (r: Result, size: nat)
    requires WellFormedField(f) && count <= |items|
    ensures r.Success? <==> EncodeItems(f, items, count).Some?
    ensures r.Success? ==> size == |EncodeItems(f, items, count).value|
    ensures r != Failure(SubmessageSizeChanged)
    decreases f, 2, 0
  {
    hide EncodeItems, WellFormedField;
    r, size := Success, 0;
    if f.ltype.Fixed32? {
      size := 4 * count;
      FixedItemsLength(f, items, count);
    } else if f.ltype.Fixed64? {
      size := 8 * count;
      FixedItemsLength(f, items, count);
    } else {
      var sizestream := new OStream.Sizing();
      r := PutItems(sizestream, f, items, count);
      size := sizestream.bytesWritten;
    }
  }

  /** The second half of a packed array: its size and its entries. */
  method PutPackedData(stream: OStream, f: Field, items: seq<Value>, count: nat, size: nat) returns (r: Result)
    requires stream.S().Valid() && WellFormedField(f) && count <= |items|
    requires EncodeItems(f, items, count).Some? && size == |EncodeItems(f, items, count).value|
    modifies stream, stream.buf
    ensures stream.buf == old(stream.buf)
    ensures Puts(old(stream.S()), Some(Delimited(EncodeItems(f, items, count).value)), r, stream.S())
    decreases f, 2, 0
  {
    hide EncodeItems, EncodeVarint, WellFormedField;
    ghost var s0, data := stream.S(), EncodeItems(f, items, count);
    ghost var prefix := Some(EncodeVarint(size % TWO_64));
    r := PutVarint(stream, size % TWO_64);
    if r.Failure? {
      PutsFailed(s0, prefix, r, stream.S(), data);
      return;
    }
    ghost var s1 := stream.S();
    if !stream.callback {
      r := stream.Write([], size, data.value);
    } else {
      r := PutItems(stream, f, items, count);
    }
    PutsThen(s0, prefix, s1, data, r, stream.S());
  }

  /** An array: packed under one tag if its type allows it, else every entry under its own. */
  method PutArray(stream: OStream, f: Field, items: seq<Value>, count: nat) returns (r: Result)
    requires stream.S().Valid() && WellFormedField(f) && !f.ltype.Extension? && |items| == f.arraySize
    modifies stream, stream.buf
    ensures stream.buf == old(stream.buf) && Puts(old(stream.S()), EncodeArray(f, items, count), r, stream.S())
    decreases f, 3, 0
  {
    hide EncodeItems, EncodeTaggedItems, EncodeTag, Delimited;
    ghost var s0 := stream.S();
    if count == 0 {
      PutsNothing(s0);
      return Success;
    }
    if count > f.arraySize {
      return Failure(ArraySizeExceeded);
    }
    if !f.Packable() {
      r := PutTaggedItems(stream, f, items, count);
      return;
    }
    ghost var data := EncodeItems(f, items, count);
    ghost var tag := Some(EncodeTag(WtString, f.tag));
    ghost var body := if data.Some? then Some(Delimited(data.value)) else None;
    assert Then(tag, body) == EncodeArray(f, items, count);
    r := PutTag(stream, WtString, f.tag);
    if r.Failure? {
      PutsFailed(s0, tag, r, stream.S(), body);
      return;
    }
    ghost var s1 := stream.S();
    var sized, size := PackedSize(f, items, count);
    if sized.Failure? {
      return sized;
    }
    r := PutPackedData(stream, f, items, count, size);
    PutsThen(s0, tag, s1, body, r, stream.S());
  }

  method PutField(stream: OStream, f: Field, m: Member) returns (r: Result)
    requires stream.S().Valid() && WellFormedField(f)
    modifies stream, stream.buf
    ensures stream.buf == old(stream.buf) && Puts(old(stream.S()), EncodeField(f, m), r, stream.S())
    decreases f, 4, 0
  {
    hide EncodeTagged, EncodeArray, HoldsDefault;
    PutsNothing(stream.S());
    if f.ltype.Extension? {
      // A placeholder without registered extensions.
      return Success;
    }
    match f.htype
    case Required => r := PutTagged(stream, f, Items(f, m)[0]);
    case Optional =>
      var has;
      if f.HasSize() {
        has := m.size != 0;
      } else {
        var isDefault := CheckProto3Default(f, m);
        has := !isDefault;
      }
      if has {
        r := PutTagged(stream, f, Items(f, m)[0]);
      } else {
        r := Success;
      }
    case Repeated => r := PutArray(stream, f, Items(f, m), if f.HasSize() then m.size else f.arraySize);
    case Oneof =>
      if m.size == f.tag {
        r := PutTagged(stream, f, Items(f, m)[0]);
      } else {
        r := Success;
      }
  }

  lemma {:induction false} FieldsFailed(a: OutState, fields: seq<Field>, members: seq<Member>, i: nat, n: nat, r: Result, b: OutState)
    requires i <= n <= |fields| && |members| == SlotCount(fields)
    requires r.Failure? && Puts(a, EncodeFields(fields, members, i), r, b)
    ensures Puts(a, EncodeFields(fields, members, n), r, b)
    decreases n
  {
    hide Puts, EncodeField, SlotOf, SlotCount;
    if i < n {
      FieldsFailed(a, fields, members, i, n - 1, r, b);
      SlotInRange(fields, n - 1);
      PutsFailed(a, EncodeFields(fields, members, n - 1), r, b,
                 EncodeField(fields[n - 1], members[SlotOf(fields, n - 1)]));
    }
  }

  method Encode(stream: OStream, fields: seq<Field>, members: seq<Member>) returns (r: Result)
    requires stream.S().Valid() && WellFormed(fields) && |members| == SlotCount(fields)
    modifies stream, stream.buf
    ensures stream.buf == old(stream.buf) && Puts(old(stream.S()), EncodeMessage(fields, members), r, stream.S())
    decreases fields, 3, 0
  {
    hide Puts, EncodeField, SlotOf, SlotCount, WellFormedField;
    ghost var s0 := stream.S();
    PutsNothing(s0);
    var iter := new FieldIter(fields, 0);
    var more := iter.Begin();
    while more
      modifies iter, stream, stream.buf
      invariant iter.Valid() && iter.start == fields && (more ==> iter.pos < |fields|)
      invariant stream.buf == old(stream.buf)
      invariant Puts(s0, EncodeFields(fields, members, if more then iter.pos else |fields|), Success, stream.S())
      decreases if more then |fields| - iter.pos else 0
    {
      var i := iter.pos;
      SlotInRange(fields, i);
      ghost var si := stream.S();
      PutsValid(s0, EncodeFields(fields, members, i), Success, si);
      r := PutField(stream, fields[i], members[SlotOf(fields, i)]);
      PutsThen(s0, EncodeFields(fields, members, i), si, EncodeField(fields[i], members[SlotOf(fields, i)]), r, stream.S());
      if r.Failure? {
        FieldsFailed(s0, fields, members, i + 1, |fields|, r, stream.S());
        return;
      }
      more := iter.Next();
    }
    r := Success;
  }

  // ----- What a caller relies on

  /** The size of a message is the number of bytes encoding it really takes. */
  method GetEncodedSize(fields: seq<Field>, members: seq<Member>) returns (size: Option<nat>)
    requires WellFormed(fields) && |members| == SlotCount(fields)
    ensures var e := EncodeMessage(fields, members);
            size == if e.Some? then Some(|e.value|) else None
  {
    hide EncodeMessage, WellFormed, SlotCount;
    var stream := new OStream.Sizing();
    var r := Encode(stream, fields, members);
    size := if r.Success? then Some(stream.bytesWritten) else None;
  }

  /** Encoding into N bytes succeeds exactly when the size is at most N, and stays inside them. */
  method EncodeIntoBuffer(buf: array<byte>, n: nat, fields: seq<Field>, members: seq<Member>)
    returns (r: Result, written: nat)
    requires n <= buf.Length && WellFormed(fields) && |members| == SlotCount(fields)
    modifies buf
    ensures var e := EncodeMessage(fields, members);
            && (r.Success? <==> e.Some? && |e.value| <= n)
            && (e.Some? && r.Failure? ==> r.error == StreamFull)
            && (r.Success? ==> written == |e.value| && buf[..written] == e.value)
    ensures r != Failure(SubmessageSizeChanged)
    ensures written <= n && buf[written..] == old(buf[written..])
  {
    hide EncodeMessage, WellFormed, SlotCount;
    var stream := new OStream.FromBuffer(buf, n);
    ghost var s0 := stream.S();
    r := Encode(stream, fields, members);
    written := stream.bytesWritten;
  }
}
