/**
  What the encoder writes for a struct, as functions: nothing when some array count
  or buffer is out of range, otherwise the bytes in descriptor order.
 */
module Encoding {
  import opened Wrappers
  import opened Bits
  import opened Wire
  import opened Descriptor

  type Encoded = Option<seq<byte>>

  /** One encoding after another. */
  function Then(first: Encoded, second: Encoded): Encoded {
    if first.Some? && second.Some? then Some(first.value + second.value) else None
  }

  function WireTypeFor(t: LType): WireType {
    match t
    case Varint => WtVarint
    case UVarint => WtVarint
    case SVarint => WtVarint
    case Fixed32 => Wt32Bit
    case Fixed64 => Wt64Bit
    case _ => WtString
  }

  // ----- Proto3 elision

  predicate AllZero(bs: seq<byte>) { forall i :: 0 <= i < |bs| ==> bs[i] == 0 }

  /** A number as it lies in storage. */
  function StoredBytes(f: Field, v: Value): seq<byte> { LittleEndian(ToUnsigned64(Number(v)), f.dataSize) }

  /** An array entry as it lies in storage; how a nested struct does is left open. */
  function EntryBytes(f: Field, v: Value): seq<byte> {
    match f.ltype
    case Bytes => LittleEndian(|BytesInUse(v)| % TWO_32, BYTES_HEADER) + BytesInUse(v)
    case String => Buffer(f, v)
    case FixedLengthBytes => Buffer(f, v)
    case Submessage(_) => []
    case Extension => []
    case _ => StoredBytes(f, v)
  }

  /** The first n entries of an array as they lie in storage. */
  function ArrayBytes(f: Field, items: seq<Value>, n: nat): seq<byte>
    requires n <= |items|
  {
    if n == 0 then [] else ArrayBytes(f, items, n - 1) + EntryBytes(f, items[n - 1])
  }

  /** The bytes a count is read from where an array has none: the first ones of the array itself. */
  function MistakenCount(f: Field, m: Member): seq<byte>
    requires f.htype.Repeated?
  {
    var bs := ArrayBytes(f, Items(f, m), f.arraySize);
    if |bs| <= COUNT_BYTES then bs else bs[..COUNT_BYTES]
  }

  /** A field the proto3 check regards as holding its zero value. */
  predicate HoldsDefault(f: Field, m: Member)
    decreases f
  {
    match f.htype
    case Required => false
    case Repeated => if f.FixedCount() then AllZero(MistakenCount(f, m)) else m.size == 0
    case Oneof => m.size == 0
    case Optional =>
      if f.HasSize() then m.size == 0
      else
        var v := Items(f, m)[0];
        match f.ltype
        case Bytes => BytesInUse(v) == []
        case String => StringLength(Buffer(f, v)) == 0
        case FixedLengthBytes => f.dataSize == 0
        case Submessage(fields) => AllHoldDefault(fields, Members(fields, v))
        case _ => AllZero(StoredBytes(f, v))
  }

  predicate AllHoldDefault(fields: seq<Field>, members: seq<Member>)
    requires |members| == SlotCount(fields)
    decreases fields
  {
    forall i :: 0 <= i < |fields| ==>
      (SlotInRange(fields, i); HoldsDefault(fields[i], members[SlotOf(fields, i)]))
  }

  /** Whether an optional field is written. */
  predicate Present(f: Field, m: Member) {
    if f.HasSize() then m.size != 0 else !HoldsDefault(f, m)
  }

  // ----- Values, fields, messages

  /** A number in storage, read into a signed 64-bit variable. */
  function SignedNumber(v: Value): (n: int)
    ensures -TWO_63 <= n < TWO_63
    ensures -TWO_63 <= Number(v) < TWO_63 ==> n == Number(v)
  {
    ToSigned64(ToUnsigned64(Number(v)))
  }

  function EncodeValue(f: Field, v: Value): Encoded
    decreases f, 0, 0
  {
    match f.ltype
    case Varint => if IntegerSize(f.dataSize) then Some(EncodeVarint(ToUnsigned64(Number(v)))) else None
    case UVarint => if IntegerSize(f.dataSize) then Some(EncodeVarint(ToUnsigned64(Number(v)))) else None
    case SVarint => if IntegerSize(f.dataSize) then Some(EncodeVarint(ZigZag(SignedNumber(v)))) else None
    case Fixed32 => Some(LittleEndian(ToUnsigned64(Number(v)) % TWO_32, 4))
    case Fixed64 => Some(LittleEndian(ToUnsigned64(Number(v)), 8))
    case Bytes =>
      if |BytesInUse(v)| + BYTES_HEADER > f.dataSize then None else Some(Delimited(BytesInUse(v)))
    case String => (var b := Buffer(f, v); Some(Delimited(b[..StringLength(b)])))
    case Submessage(fields) =>
      var body := EncodeMessage(fields, Members(fields, v));
      if body.Some? then Some(Delimited(body.value)) else None
    case FixedLengthBytes => Some(Delimited(Buffer(f, v)))
    case Extension => None
  }

  /** The first n entries, one after the other. */
  function EncodeItems(f: Field, items: seq<Value>, n: nat): Encoded
    requires n <= |items|
    decreases f, 1, n
  {
    if n == 0 then Some([])
    else Then(EncodeItems(f, items, n - 1), EncodeValue(f, items[n - 1]))
  }

  function FieldTag(f: Field): seq<byte> { EncodeTag(WireTypeFor(f.ltype), f.tag) }

  function EncodeTagged(f: Field, v: Value): Encoded
    decreases f, 1, 0
  {
    Then(Some(FieldTag(f)), EncodeValue(f, v))
  }

  /** The first n entries, each under its own tag. */
  function EncodeTaggedItems(f: Field, items: seq<Value>, n: nat): Encoded
    requires n <= |items|
    decreases f, 2, n
  {
    if n == 0 then Some([])
    else Then(EncodeTaggedItems(f, items, n - 1), EncodeTagged(f, items[n - 1]))
  }

  /** Arrays are packed whenever the type allows it. */
  function EncodeArray(f: Field, items: seq<Value>, count: nat): Encoded
    requires |items| == f.arraySize
    decreases f, 3, 0
  {
    if count == 0 then Some([])
    else if count > f.arraySize then None
    else if f.Packable() then
      var data := EncodeItems(f, items, count);
      if data.Some? then Some(EncodeTag(WtString, f.tag) + Delimited(data.value)) else None
    else EncodeTaggedItems(f, items, count)
  }

  function EncodeField(f: Field, m: Member): Encoded
    decreases f, 4, 0
  {
    if f.ltype.Extension? then Some([])
    else
      match f.htype
      case Required => EncodeTagged(f, Items(f, m)[0])
      case Optional => if Present(f, m) then EncodeTagged(f, Items(f, m)[0]) else Some([])
      case Repeated => EncodeArray(f, Items(f, m), if f.HasSize() then m.size else f.arraySize)
      case Oneof => if m.size == f.tag then EncodeTagged(f, Items(f, m)[0]) else Some([])
  }

  /** The first n fields. */
  function EncodeFields(fields: seq<Field>, members: seq<Member>, n: nat): Encoded
    requires n <= |fields| && |members| == SlotCount(fields)
    decreases fields, 0, n
  {
    if n == 0 then Some([])
    else
      SlotInRange(fields, n - 1);
      Then(EncodeFields(fields, members, n - 1), EncodeField(fields[n - 1], members[SlotOf(fields, n - 1)]))
  }

  function EncodeMessage(fields: seq<Field>, members: seq<Member>): Encoded
    requires |members| == SlotCount(fields)
    decreases fields, 1, 0
  {
    EncodeFields(fields, members, |fields|)
  }
}
