/**
  The wire primitives of nanopb as functions on byte sequences: base-128
  varints, the 32-bit varint reader with its laxities, tags, little-endian
  words, zigzag.  The stream methods in Encoder and Decoder are verified against
  these functions; what the functions promise is proved here and in VarintLaws.
 */
module Wire {
  import opened Bits
  import opened Parsing

  // ----- Varints

  /** Base-128, least significant group first, top bit set on all but the last byte. */
  function EncodeVarint(v: nat): (bs: seq<byte>)
    ensures |bs| >= 1
  {
    if v < 128 then [v] else [v % 128 + 128] + EncodeVarint(v / 128)
  }

  /** What one byte does to a varint reader's accumulator. */
  datatype Step = More(result: nat) | Last(result: nat) | Reject

  /** A byte of the 64-bit reader: seven bits are OR-ed in at the bit position. */
  function StepVarint(b: byte, bitpos: nat, result: nat): (s: Step)
    ensures s.More? ==> b >= 128
    ensures s.Last? ==> b < 128
  {
    if bitpos >= 64 then Reject
    else
      var result' := BitOr(result, Shl(b % 128, bitpos) % TWO_64);
      if b >= 128 then More(result') else Last(result')
  }

  /** The 64-bit reader's loop, from the bit position and accumulator it has reached. */
  function ReadVarint(bs: seq<byte>, bitpos: nat, result: nat): (r: Parsed<nat>)
    ensures r.Ok? ==> |r.rest| < |bs| && r.rest == bs[|bs| - |r.rest|..]
    decreases |bs|
  {
    if bs == [] then Fail
    else
      match StepVarint(bs[0], bitpos, result)
      case Reject => Fail
      case More(result') => ReadVarint(bs[1..], bitpos + 7, result')
      case Last(result') => Ok(result', bs[1..])
  }

  function DecodeVarint(bs: seq<byte>): (r: Parsed<nat>)
    ensures r.Ok? ==> |r.rest| < |bs| && r.rest == bs[|bs| - |r.rest|..]
  {
    ReadVarint(bs, 0, 0)
  }

  /** What the 32-bit reader accepts from byte `b` at bit position 32 or above. */
  predicate AcceptsHighByte(result: nat, bitpos: nat, b: byte) {
    var signExtension := if bitpos < 63 then 0xFF else 0x01;
    b % 128 == 0 || (result / TWO_31 != 0 && b == signExtension)
  }

  /**
    A byte of the 32-bit reader past the first: from bit 32 on it is checked, not
    stored, and a last byte at bit 28 may only use the four bits that fit.
   */
  function StepVarint32(b: byte, bitpos: nat, result: nat): (s: Step)
    ensures s.More? ==> b >= 128
    ensures s.Last? ==> b < 128
  {
    if bitpos >= 32 && !AcceptsHighByte(result, bitpos, b) then Reject
    else
      var result' := if bitpos >= 32 then result else BitOr(result, Shl(b % 128, bitpos) % TWO_32);
      if b >= 128 then More(result')
      else if bitpos == 28 && b / 16 % 8 != 0 then Reject
      else Last(result')
  }

  /** Adding seven to the 8-bit bit position. */
  function Advance(bitpos: nat): nat {
    if bitpos + 7 < 256 then bitpos + 7 else bitpos + 7 - 256
  }

  /** The multi-byte loop of the 32-bit reader; its 8-bit bit position wraps at 256. */
  function ReadVarint32(bs: seq<byte>, bitpos: nat, result: nat): (r: Parsed<nat>)
    ensures r.Ok? ==> |r.rest| < |bs| && r.rest == bs[|bs| - |r.rest|..]
    decreases |bs|
  {
    if bs == [] then Fail
    else
      match StepVarint32(bs[0], bitpos, result)
      case Reject => Fail
      case More(result') => ReadVarint32(bs[1..], Advance(bitpos), result')
      case Last(result') => Ok(result', bs[1..])
  }

  function DecodeVarint32(bs: seq<byte>): (r: Parsed<nat>)
    ensures r.Ok? ==> |r.rest| < |bs| && r.rest == bs[|bs| - |r.rest|..]
  {
    if bs == [] then Fail
    else if bs[0] < 128 then Ok(bs[0], bs[1..])
    else ReadVarint32(bs[1..], 7, bs[0] % 128)
  }

  // ----- Zigzag

  /** Reinterpret a signed 64-bit value as unsigned. */
  function ToUnsigned64(n: int): nat { n % TWO_64 }

  function ToSigned64(u: nat): int { if u < TWO_63 then u else u - TWO_64 }

  /** The cast to int32_t of an unsigned 64-bit value. */
  function ToSigned32(u: nat): int {
    var low := u % TWO_32;
    if low < TWO_31 then low else low - TWO_32
  }

  /** Shift left by one in 64 bits, complemented when the value is negative. */
  function ZigZag(n: int): nat {
    var doubled := ToUnsigned64(n) * 2 % TWO_64;
    if n < 0 then TWO_64 - 1 - doubled else doubled
  }

  function UnZigZag(u: nat): int {
    if u % 2 == 1 then ToSigned64((TWO_64 - 1 - u / 2) % TWO_64) else ToSigned64(u / 2)
  }

  // ----- Fixed-width words

  function LittleEndian(v: nat, width: nat): (bs: seq<byte>)
    ensures |bs| == width
  {
    if width == 0 then [] else [v % 256] + LittleEndian(v / 256, width - 1)
  }

  function FromLittleEndian(bs: seq<byte>): nat {
    if bs == [] then 0 else bs[0] + 256 * FromLittleEndian(bs[1..])
  }

  // ----- Tags and raw bytes

  datatype WireType = WtVarint | Wt64Bit | WtString | Wt32Bit | WtInvalid(code: nat)

  function WireCode(wt: WireType): nat {
    match wt
    case WtVarint => 0
    case Wt64Bit => 1
    case WtString => 2
    case Wt32Bit => 5
    case WtInvalid(code) => code
  }

  function WireTypeOf(code: nat): WireType {
    match code
    case 0 => WtVarint
    case 1 => Wt64Bit
    case 2 => WtString
    case 5 => Wt32Bit
    case _ => WtInvalid(code)
  }

  function EncodeTag(wt: WireType, tag: nat): (bs: seq<byte>)
    ensures |bs| >= 1
  {
    EncodeVarint(tag * 8 + WireCode(wt))
  }

  /** The next field's tag; a zero value ends the message early. */
  datatype TagResult = Tag(wt: WireType, tag: nat, rest: seq<byte>) | Terminator(rest: seq<byte>) | BadTag

  function DecodeTag(bs: seq<byte>): (r: TagResult)
    ensures r.Tag? ==> |r.rest| < |bs| && r.rest == bs[|bs| - |r.rest|..]
    ensures r.Terminator? ==> |r.rest| < |bs| && r.rest == bs[|bs| - |r.rest|..]
  {
    match DecodeVarint32(bs)
    case Fail => BadTag
    case Ok(v, rest) => if v == 0 then Terminator(rest) else Tag(WireTypeOf(v % 8), v / 8, rest)
  }

  /** A length prefix and the bytes it announces. */
  function TakeDelimited(bs: seq<byte>): (r: Parsed<seq<byte>>)
    ensures r.Ok? ==> |r.rest| + |r.value| < |bs|
  {
    var (len, rest) :- DecodeVarint32(bs);
    Take(rest, len)
  }

  /** A length prefix, cast to 64 bits, and the bytes it announces. */
  function Delimited(data: seq<byte>): (bs: seq<byte>)
    ensures |bs| > |data|
  {
    EncodeVarint(|data| % TWO_64) + data
  }

  function SkipVarint(bs: seq<byte>): (r: Parsed<()>)
    ensures r.Ok? ==> |r.rest| < |bs|
  {
    if bs == [] then Fail
    else if bs[0] >= 128 then SkipVarint(bs[1..])
    else Ok((), bs[1..])
  }

  function SkipField(wt: WireType, bs: seq<byte>): (r: Parsed<()>)
    ensures r.Ok? ==> |r.rest| < |bs|
  {
    match wt
    case WtVarint => SkipVarint(bs)
    case Wt64Bit => (var (_, rest) :- Take(bs, 8); Ok((), rest))
    case WtString => (var (_, rest) :- TakeDelimited(bs); Ok((), rest))
    case Wt32Bit => (var (_, rest) :- Take(bs, 4); Ok((), rest))
    case WtInvalid(_) => Fail
  }
}
