/**
  The decoder itself: an input stream that moves through a buffer, the methods that
  read varints, tags, values and fields off it, and the decode loop, which updates
  the destination struct in place and notes required fields in two 32-bit words.
  Every method is proved to read exactly what the Decoding functions say.
 */
module Decoder {
  import opened Wrappers
  import opened Bits
  import opened Parsing
  import opened Wire
  import opened Descriptor
  import opened Decoding
  import opened FieldIterator
  import opened RequiredWords

  /** A reader returned `r` and left `after`, as the parse `spec` demands. */
  predicate Reads<T(==)>(spec: Parsed<T>, r: Option<T>, after: seq<byte>) {
    && (r.Some? <==> spec.Ok?)
    && (r.Some? ==> r.value == spec.value && after == spec.rest)
  }

  /** The same of a method that only moves past a value. */
  predicate Skips<T>(spec: Parsed<T>, ok: bool, after: seq<byte>) {
    && (ok <==> spec.Ok?)
    && (ok ==> after == spec.rest)
  }

  /** Where a stream may end after a call: never later, and unmoved if the call succeeds. */
  predicate Within(before: nat, after: nat, success: bool) {
    after <= before && (success ==> after == before)
  }

  lemma TakenAfterLength(bs: seq<byte>)
    ensures var len := Wire.DecodeVarint32(bs);
            && (len.Fail? ==> TakeDelimited(bs) == Fail)
            && (len.Ok? ==> TakeDelimited(bs) == Take(len.rest, len.value))
  {
    hide Wire.DecodeVarint32;
  }

  lemma ReadVarintOnce(bs: seq<byte>, bitpos: nat, result: nat)
    ensures ReadVarint(bs, bitpos, result) ==
            if bs == [] then Fail
            else
              match StepVarint(bs[0], bitpos, result)
              case Reject => Fail
              case More(result') => ReadVarint(bs[1..], bitpos + 7, result')
              case Last(result') => Ok(result', bs[1..])
  {
  }

  lemma Sliced(buf: array<byte>, pos: nat, size: nat, n: nat)
    requires n <= size && pos + size <= buf.Length
    ensures buf[pos..pos + size][..n] == buf[pos..pos + n] && buf[pos..pos + size][n..] == buf[pos + n..pos + size]
  {
  }

  class IStream {
    const buf: array<byte>
    var pos: nat
    var bytesLeft: nat

    ghost predicate Valid()
      reads this
    {
      pos + bytesLeft <= buf.Length
    }

    ghost function Rest(): seq<byte>
      requires Valid()
      reads this, buf
    {
      buf[pos..pos + bytesLeft]
    }

    /** Nothing past this position is ever read. */
    ghost function End(): nat
      reads this
    {
      pos + bytesLeft
    }

    constructor (buf: array<byte>, size: nat)
      requires size <= buf.Length
      ensures Valid() && this.buf == buf && Rest() == buf[..size] && pos == 0 && bytesLeft == size
    {
      this.buf := buf;
      pos, bytesLeft := 0, size;
    }

    constructor CopyOf(stream: IStream)
      requires stream.Valid()
      ensures Valid() && buf == stream.buf && pos == stream.pos && bytesLeft == stream.bytesLeft
    {
      buf, pos, bytesLeft := stream.buf, stream.pos, stream.bytesLeft;
    }

    method Read(count: nat) returns (data: Option<seq<byte>>)
      requires Valid()
      modifies this
      ensures Valid() && Within(old(End()), End(), data.Some?)
      ensures Reads(Take(old(Rest()), count), data, Rest())
      ensures data.Some? ==> pos == old(pos) + count && bytesLeft == old(bytesLeft) - count
    {
      ghost var before := Rest();
      if bytesLeft < count {
        return None;
      }
      assert before[..count] == buf[pos..pos + count];
      data := Some(buf[pos..pos + count]);
      pos, bytesLeft := pos + count, bytesLeft - count;
    }

    method Skip(count: nat) returns (ok: bool)
      requires Valid()
      modifies this
      ensures Valid() && Within(old(End()), End(), ok)
      ensures Skips(Take(old(Rest()), count), ok, Rest())
    {
      var data := Read(count);
      ok := data.Some?;
    }

    method ReadByte() returns (b: Option<byte>)
      requires Valid()
      modifies this
      ensures Valid() && Within(old(End()), End(), b.Some?)
      ensures b == if old(Rest()) == [] then None else Some(old(Rest())[0])
      ensures b.Some? ==> Rest() == old(Rest())[1..] && bytesLeft == old(bytesLeft) - 1
    {
      if bytesLeft == 0 {
        return None;
      }
      b := Some(buf[pos]);
      pos, bytesLeft := pos + 1, bytesLeft - 1;
    }

    method DecodeVarint() returns (value: Option<nat>)
      requires Valid()
      modifies this
      ensures Valid() && Within(old(End()), End(), value.Some?)
      ensures Reads(Wire.DecodeVarint(old(Rest())), value, Rest())
    {
      hide BitOr, Shl, ReadVarint, Rest;
      var bitpos: nat, result: nat := 0, 0;
      while true
        invariant Valid() && End() == old(End())
        invariant Wire.DecodeVarint(old(Rest())) == ReadVarint(Rest(), bitpos, result)
        decreases bytesLeft
      {
        ReadVarintOnce(Rest(), bitpos, result);
        if bitpos >= 64 {
          return None;
        }
        var b := ReadByte();
        if b.None? {
          return None;
        }
        result := BitOr(result, Shl(b.value % 128, bitpos) % TWO_64);
        bitpos := bitpos + 7;
        if b.value < 128 {
          return Some(result);
        }
      }
    }

    method DecodeVarint32() returns (value: Option<nat>)
      requires Valid()
      modifies this
      ensures Valid() && Within(old(End()), End(), value.Some?)
      ensures Reads(Wire.DecodeVarint32(old(Rest())), value, Rest())
    {
      hide BitOr, Shl;
      var b := ReadByte();
      if b.None? {
        return None;
      }
      if b.value < 128 {
        return Some(b.value);
      }
      var bitpos: nat, result: nat := 7, b.value % 128;
      while true
        invariant Valid() && End() == old(End())
        invariant Wire.DecodeVarint32(old(Rest())) == ReadVarint32(Rest(), bitpos, result)
        decreases bytesLeft
      {
        b := ReadByte();
        if b.None? {
          return None;
        }
        var before := bitpos;
        if bitpos >= 32 {
          var signExtension := if bitpos < 63 then 0xFF else 0x01;
          if b.value % 128 != 0 && (result / TWO_31 == 0 || b.value != signExtension) {
            return None;
          }
        } else {
          result := BitOr(result, Shl(b.value % 128, bitpos) % TWO_32);
        }
        bitpos := Advance(bitpos);
        if b.value < 128 {
          // The last byte was at bit 28, where only four bits fit.
          if before == 28 && b.value / 16 % 8 != 0 {
            return None;
          }
          return Some(result);
        }
      }
    }

    method SkipVarint() returns (ok: bool)
      requires Valid()
      modifies this
      ensures Valid() && Within(old(End()), End(), ok)
      ensures Skips(Wire.SkipVarint(old(Rest())), ok, Rest())
    {
      while true
        invariant Valid() && End() == old(End())
        invariant Wire.SkipVarint(old(Rest())) == Wire.SkipVarint(Rest())
        decreases bytesLeft
      {
        var b := ReadByte();
        if b.None? {
          return false;
        }
        if b.value < 128 {
          return true;
        }
      }
    }

    /** The tag and wire type of the next field; at a zero, the end of the message. */
    method DecodeTag() returns (r: Option<(WireType, nat)>, eof: bool)
      requires Valid() && bytesLeft > 0
      modifies this
      ensures Valid() && Within(old(End()), End(), r.Some? || eof)
      ensures var spec := Wire.DecodeTag(old(Rest()));
              && (r.Some? <==> spec.Tag?)
              && (r.Some? ==> r.value == (spec.wt, spec.tag) && Rest() == spec.rest)
              && (r.None? ==> (eof <==> spec.Terminator?))
              && (r.None? && eof ==> Rest() == spec.rest)
    {
      hide Wire.DecodeVarint32, WireTypeOf;
      eof := false;
      var v := DecodeVarint32();
      if v.None? {
        return None, false;
      }
      if v.value == 0 {
        return None, true;
      }
      return Some((WireTypeOf(v.value % 8), v.value / 8)), false;
    }

    method SkipField(wt: WireType) returns (ok: bool)
      requires Valid()
      modifies this
      ensures Valid() && Within(old(End()), End(), ok)
      ensures Skips(Wire.SkipField(wt, old(Rest())), ok, Rest())
    {
      hide Wire.DecodeVarint32, Wire.SkipVarint, Take;
      match wt
      case WtVarint => ok := SkipVarint();
      case Wt64Bit => ok := Skip(8);
      case WtString =>
        var length := DecodeVarint32();
        if length.None? {
          return false;
        }
        ok := Skip(length.value);
      case Wt32Bit => ok := Skip(4);
      case WtInvalid(_) => ok := false;
    }

    /**
      A stream over the next length-delimited value.  This one gives the bytes up at
      once but only moves past them when the substream is closed.
     */
    method MakeSubstream() returns (substream: Option<IStream>)
      requires Valid()
      modifies this
      ensures Valid() && End() <= old(End())
      ensures substream.Some? <==> TakeDelimited(old(Rest())).Ok?
      ensures substream.Some? ==>
                var sub, spec := substream.value, TakeDelimited(old(Rest()));
                && fresh(sub) && sub.Valid() && sub.buf == buf
                && sub.Rest() == spec.value
                && sub.End() + bytesLeft == old(End())
                && buf[sub.End()..sub.End() + bytesLeft] == spec.rest
    {
      hide Wire.DecodeVarint32, TakeDelimited;
      TakenAfterLength(Rest());
      var size := DecodeVarint32();
      if size.None? {
        return None;
      }
      var sub := new IStream.CopyOf(this);
      if sub.bytesLeft < size.value {
        return None;
      }
      Sliced(buf, pos, bytesLeft, size.value);
      sub.bytesLeft := size.value;
      bytesLeft := bytesLeft - size.value;
      substream := Some(sub);
    }

    /** Read what the substream has left and move past it. */
    method CloseSubstream(substream: IStream)
      requires Valid() && substream != this && substream.Valid() && substream.buf == buf
      requires substream.End() + bytesLeft <= buf.Length
      modifies this, substream
      ensures Valid() && pos == old(substream.End()) && bytesLeft == old(bytesLeft)
    {
      if substream.bytesLeft > 0 {
        var _ := substream.Read(substream.bytesLeft);
      }
      pos := substream.pos;
    }
  }

  /** A destination struct, updated in place. */
  class Struct {
    var members: seq<Member>

    constructor (members: seq<Member>)
      ensures this.members == members
    {
      this.members := members;
    }
  }

  // ----- Defaults

  method FieldSetToDefault(f: Field, m: Member) returns (r: Member)
    requires !f.ltype.Extension?
    ensures r == DefaultMember(f, m)
    decreases f, 1
  {
    hide SetDefaults;
    r := m;
    if f.htype.Optional? && f.HasSize() {
      r := r.(size := 0);
    } else if f.htype.Repeated? || f.htype.Oneof? {
      return r.(size := 0);
    }
    var v := Items(f, m)[0];
    if f.ltype.Submessage? {
      var nested := new Struct(Members(f.ltype.fields, v));
      MessageSetToDefaults(f.ltype.fields, nested);
      v := Msg(nested.members);
    } else if f.init.Some? {
      v := f.init.value;
    } else {
      v := ZeroValue(f);
    }
    r := r.(items := [v]);
  }

  method MessageSetToDefaults(fields: seq<Field>, dest: Struct)
    requires |dest.members| == SlotCount(fields)
    modifies dest
    ensures dest.members == SetDefaults(fields, old(dest.members))
    decreases fields
  {
    hide DefaultMember, SlotOf, SlotCount;
    var iter := new FieldIter(fields, 0);
    var more := iter.Begin();
    while more
      modifies iter, dest
      invariant iter.Valid() && iter.start == fields && (more ==> iter.pos < |fields|)
      invariant dest.members == SetDefaultsTo(fields, old(dest.members), if more then iter.pos else |fields|)
      decreases if more then |fields| - iter.pos else 0
    {
      var f, slot := fields[iter.pos], SlotOf(fields, iter.pos);
      SlotInRange(fields, iter.pos);
      var m := dest.members[slot];
      if f.ltype.Extension? {
        ExtensionKeepsDefault(f, m);
      } else {
        m := FieldSetToDefault(f, m);
      }
      dest.members := dest.members[slot := m];
      more := iter.Next();
    }
  }

  /** The extensions registered at a placeholder are not part of the struct. */
  lemma ExtensionKeepsDefault(f: Field, m: Member)
    requires f.ltype.Extension?
    ensures DefaultMember(f, m) == m
  {
  }

  // ----- Values

  /** Store a decoded integer: it must survive the cast to the field's width. */
  method StoreInteger(n: int, clamped: int, size: nat) returns (v: Option<Value>)
    ensures Reads(Checked(n, clamped, size, []), v, [])
  {
    if !IntegerSize(size) || clamped != n {
      return None;
    }
    v := Some(Int(n));
  }

  method GetInteger(stream: IStream, f: Field, ghost prior: Value) returns (v: Option<Value>)
    requires stream.Valid() && (f.ltype.Varint? || f.ltype.UVarint? || f.ltype.SVarint?)
    modifies stream
    ensures stream.Valid() && Within(old(stream.End()), stream.End(), v.Some?)
    ensures Reads(DecodeValue(f, prior, old(stream.Rest())), v, stream.Rest())
  {
    hide DecodeVarint, ClampSigned, ClampUnsigned, ToSigned64, ToSigned32, UnZigZag;
    var u := stream.DecodeVarint();
    if u.None? {
      return None;
    }
    match f.ltype {
      case UVarint => v := StoreInteger(u.value, ClampUnsigned(u.value, f.dataSize), f.dataSize);
      case Varint =>
        var n := if f.dataSize == 8 then ToSigned64(u.value) else ToSigned32(u.value);
        v := StoreInteger(n, ClampSigned(n, f.dataSize), f.dataSize);
      case SVarint =>
        var n := UnZigZag(u.value);
        v := StoreInteger(n, ClampSigned(n, f.dataSize), f.dataSize);
    }
  }

  method GetFixed(stream: IStream, f: Field, ghost prior: Value) returns (v: Option<Value>)
    requires stream.Valid() && (f.ltype.Fixed32? || f.ltype.Fixed64?)
    modifies stream
    ensures stream.Valid() && Within(old(stream.End()), stream.End(), v.Some?)
    ensures Reads(DecodeValue(f, prior, old(stream.Rest())), v, stream.Rest())
  {
    hide FromLittleEndian;
    var word := stream.Read(if f.ltype.Fixed32? then 4 else 8);
    v := if word.Some? then Some(Int(FromLittleEndian(word.value))) else None;
  }

  method GetString(stream: IStream, f: Field, prior: Value) returns (v: Option<Value>)
    requires stream.Valid() && f.ltype.String?
    modifies stream
    ensures stream.Valid() && Within(old(stream.End()), stream.End(), v.Some?)
    ensures Reads(DecodeValue(f, prior, old(stream.Rest())), v, stream.Rest())
  {
    hide DecodeVarint32, Take, Buffer;
    var size := stream.DecodeVarint32();
    if size.None? {
      return None;
    }
    // The space for the terminator, counted in 32 bits.
    var allocSize := (size.value + 1) % TWO_32;
    if allocSize < size.value || allocSize > f.dataSize {
      return None;
    }
    assert size.value + 1 <= f.dataSize by { NoWrap(size.value, f.dataSize); }
    var data := stream.Read(size.value);
    v := if data.Some? then Some(Blob(data.value + [0] + Buffer(f, prior)[size.value + 1..])) else None;
  }

  lemma NoWrap(size: nat, limit: nat)
    requires size <= (size + 1) % TWO_32 <= limit
    ensures size + 1 <= limit
  {
  }

  method GetBytes(stream: IStream, f: Field, ghost prior: Value) returns (v: Option<Value>)
    requires stream.Valid() && (f.ltype.Bytes? || f.ltype.FixedLengthBytes?)
    modifies stream
    ensures stream.Valid() && Within(old(stream.End()), stream.End(), v.Some?)
    ensures Reads(DecodeValue(f, prior, old(stream.Rest())), v, stream.Rest())
  {
    hide DecodeVarint32, Take;
    var size := stream.DecodeVarint32();
    if size.None? {
      return None;
    }
    if f.ltype.Bytes? {
      if size.value > PB_SIZE_MAX || size.value + BYTES_HEADER > f.dataSize {
        return None;
      }
    } else {
      if size.value == 0 {
        return Some(Blob(seq(f.dataSize, _ => 0)));
      }
      if size.value != f.dataSize {
        return None;
      }
    }
    var data := stream.Read(size.value);
    v := if data.Some? then Some(Blob(data.value)) else None;
  }

  /** What a nested message decodes to, given its delimited bytes. */
  function Nested(f: Field, prior: Value, bytes: Parsed<seq<byte>>): Parsed<Value>
    requires f.ltype.Submessage?
  {
    if bytes.Fail? then Fail
    else
      var fields := f.ltype.fields;
      var start := Members(fields, prior);
      var r := DecodeMessage(fields, if f.htype.Repeated? then SetDefaults(fields, start) else start, bytes.value);
      if r.Ok? then Ok(Msg(r.value), bytes.rest) else Fail
  }

  lemma NestedIsValue(f: Field, prior: Value, bs: seq<byte>)
    requires f.ltype.Submessage?
    ensures DecodeValue(f, prior, bs) == Nested(f, prior, TakeDelimited(bs))
  {
    hide DecodeMessage, TakeDelimited, SetDefaults, SlotCount;
  }

  /** A nested message is decoded from a substream onto the nested struct. */
  method GetSubmessage(stream: IStream, f: Field, prior: Value) returns (v: Option<Value>)
    requires stream.Valid() && f.ltype.Submessage? && WellFormed(f.ltype.fields)
    modifies stream
    ensures stream.Valid() && Within(old(stream.End()), stream.End(), v.Some?)
    ensures Reads(DecodeValue(f, prior, old(stream.Rest())), v, stream.Rest())
    decreases f, 0
  {
    hide DecodeMessage, TakeDelimited, SetDefaults, WellFormed, SlotCount, DecodeValue;
    NestedIsValue(f, prior, stream.Rest());
    var fields := f.ltype.fields;
    var substream := stream.MakeSubstream();
    if substream.None? {
      return None;
    }
    var sub := substream.value;
    var dest := new Struct(Members(fields, prior));
    if f.htype.Repeated? {
      MessageSetToDefaults(fields, dest);
    }
    var status := DecodeNoinit(sub, fields, dest);
    if !status {
      return None;
    }
    stream.CloseSubstream(sub);
    v := Some(Msg(dest.members));
  }

  method GetValue(stream: IStream, f: Field, prior: Value) returns (v: Option<Value>)
    requires stream.Valid() && WellFormedField(f)
    modifies stream
    ensures stream.Valid() && Within(old(stream.End()), stream.End(), v.Some?)
    ensures Reads(DecodeValue(f, prior, old(stream.Rest())), v, stream.Rest())
    decreases f, 1
  {
    match f.ltype
    case Varint => v := GetInteger(stream, f, prior);
    case UVarint => v := GetInteger(stream, f, prior);
    case SVarint => v := GetInteger(stream, f, prior);
    case Fixed32 => v := GetFixed(stream, f, prior);
    case Fixed64 => v := GetFixed(stream, f, prior);
    case Bytes => v := GetBytes(stream, f, prior);
    case FixedLengthBytes => v := GetBytes(stream, f, prior);
    case String => v := GetString(stream, f, prior);
    case Submessage(_) => v := GetSubmessage(stream, f, prior);
    case Extension => v := None;
  }

  // ----- Fields

  /** A union's previous member must be one the table knows. */
  method ReleaseUnionField(fields: seq<Field>, f: Field, m: Member) returns (ok: bool)
    requires WellFormed(fields)
    ensures ok <==> !StaleSelector(fields, f, m)
  {
    if m.size == 0 || m.size == f.tag {
      return true;
    }
    if fields == [] {
      return false;
    }
    var iter := new FieldIter(fields, 0);
    NextMatchIsFindTag(fields, m.size, 0);
    ok := iter.Find(m.size);
  }

  /** Packed entries, as long as there are bytes and room. */
  method GetPacked(stream: IStream, f: Field, items: seq<Value>, count: nat)
    returns (ok: bool, items': seq<Value>, count': nat)
    requires stream.Valid() && WellFormedField(f) && |items| == f.arraySize
    modifies stream
    ensures stream.Valid() && Within(old(stream.End()), stream.End(), ok)
    ensures var spec := DecodePacked(f, items, count, old(stream.Rest()));
            && (ok <==> spec.Ok?)
            && (ok ==> (items', count') == spec.value && stream.Rest() == [])
    decreases f, 2
  {
    hide DecodeValue, WellFormedField;
    items', count' := items, count;
    while stream.bytesLeft > 0 && count' < f.arraySize
      invariant stream.Valid() && stream.End() == old(stream.End()) && |items'| == f.arraySize
      invariant DecodePacked(f, items, count, old(stream.Rest())) == DecodePacked(f, items', count', stream.Rest())
      decreases stream.bytesLeft
    {
      ghost var before := stream.bytesLeft;
      var v := GetValue(stream, f, items'[count']);
      if v.None? {
        return false, items', count';
      }
      assert |stream.Rest()| == stream.bytesLeft;
      items', count' := items'[count' := v.value], count' + 1;
    }
    // Bytes left over overflow the array.
    ok := stream.bytesLeft == 0;
  }

  /** One of the entries of a repeated field, or many of them packed. */
  method GetRepeated(stream: IStream, wt: WireType, f: Field, items: seq<Value>, count: nat)
    returns (ok: bool, items': seq<Value>, count': nat)
    requires stream.Valid() && WellFormedField(f) && f.htype.Repeated? && |items| == f.arraySize
    modifies stream
    ensures stream.Valid() && Within(old(stream.End()), stream.End(), ok)
    ensures var spec := DecodeRepeated(f, wt, items, count, old(stream.Rest()));
            && (ok <==> spec.Ok?)
            && (ok ==> (items', count') == spec.value && stream.Rest() == spec.rest)
    decreases f, 3
  {
    hide DecodeValue, DecodePacked, TakeDelimited, WellFormedField;
    items', count' := items, count;
    if wt.WtString? && f.Packable() {
      var substream := stream.MakeSubstream();
      if substream.None? {
        return false, items', count';
      }
      ok, items', count' := GetPacked(substream.value, f, items, count);
      if ok {
        stream.CloseSubstream(substream.value);
      }
    } else {
      count' := count' + 1;
      if count >= f.arraySize {
        return false, items', count';
      }
      var v := GetValue(stream, f, items[count]);
      ok := v.Some?;
      if ok {
        items' := items[count := v.value];
      }
    }
  }

  /** What the value of a union member is decoded onto: a nested struct starts afresh. */
  method UnionTarget(f: Field, m: Member) returns (start: Value)
    requires f.htype.Oneof?
    ensures start == UnionStart(f, m)
  {
    if f.ltype.Submessage? {
      var nested := new Struct(seq(SlotCount(f.ltype.fields), _ => Member(0, [])));
      MessageSetToDefaults(f.ltype.fields, nested);
      start := Msg(nested.members);
    } else {
      start := Items(f, m)[0];
    }
  }

  /** One value, into the member of a field that is not repeated. */
  method GetSingular(stream: IStream, fields: seq<Field>, f: Field, m: Member) returns (r: Option<Member>)
    requires stream.Valid() && WellFormed(fields) && WellFormedField(f) && !f.htype.Repeated?
    modifies stream
    ensures stream.Valid() && Within(old(stream.End()), stream.End(), r.Some?)
    ensures Reads(DecodeSingular(fields, f, m, old(stream.Rest())), r, stream.Rest())
    decreases f, 4
  {
    hide DecodeValue, Items, StaleSelector, WellFormedField, UnionStart, WellFormed;
    var m', start := m, Items(f, m)[0];
    if f.htype.Optional? && f.HasSize() {
      m' := m'.(size := 1);
    } else if f.htype.Oneof? {
      var released := ReleaseUnionField(fields, f, m);
      if !released {
        return None;
      }
      start := UnionTarget(f, m);
      m' := m'.(size := f.tag);
    }
    var v := GetValue(stream, f, start);
    r := if v.Some? then Some(m'.(items := [v.value])) else None;
  }

  /** The value of field `i`, read into the destination; `fixedCount` counts where the struct does not. */
  method DecodeStaticField(stream: IStream, wt: WireType, fields: seq<Field>, i: nat, dest: Struct, fixedCount: nat,
                           ghost st: State) returns (ok: bool, fixedCount': nat)
    requires stream.Valid() && WellFormed(fields) && i < |fields| && |dest.members| == SlotCount(fields)
    requires st.members == dest.members && st.fixedCount == fixedCount
    modifies stream, dest
    ensures stream.Valid() && Within(old(stream.End()), stream.End(), ok)
    ensures var spec := DecodeField(fields, i, wt, st, old(stream.Rest()));
            && (ok <==> spec.Ok?)
            && (ok ==> spec.value == st.(members := dest.members, fixedCount := fixedCount')
                       && stream.Rest() == spec.rest)
    decreases fields, 0
  {
    hide DecodeSingular, DecodeRepeated, Items, SlotOf, SlotCount, WellFormedField;
    SlotInRange(fields, i);
    var f, slot := fields[i], SlotOf(fields, i);
    var m := dest.members[slot];
    fixedCount' := fixedCount;
    if f.htype.Repeated? {
      var items, count;
      ok, items, count := GetRepeated(stream, wt, f, Items(f, m), if f.HasSize() then m.size else fixedCount);
      if f.HasSize() {
        dest.members := dest.members[slot := Member(count, items)];
      } else {
        dest.members := dest.members[slot := m.(items := items)];
        fixedCount' := count;
      }
    } else {
      var m' := GetSingular(stream, fields, f, m);
      ok := m'.Some?;
      if ok {
        dest.members := dest.members[slot := m'.value];
      }
    }
  }

  // ----- The decode loop

  /** Only indices of required fields are ever noted. */
  ghost predicate Known(fields: seq<Field>, st: State) {
    && (forall k :: k in st.seen ==> k < RequiredIndex(fields, |fields|) && k < PB_MAX_REQUIRED_FIELDS)
    && (st.fixedAt.Some? ==> st.fixedAt.value < |fields|)
  }

  lemma KnownStill(fields: seq<Field>, st: State, st': State)
    requires Known(fields, st) && st'.seen == st.seen && st'.fixedAt == st.fixedAt
    ensures Known(fields, st')
  {
  }

  /** Note the field the iterator stands at: a fixed-count array begun, a required field met. */
  method NoteMatch(fields: seq<Field>, iter: FieldIter, fieldsSeen: array<nat>, fixedAt: Option<nat>, fixedCount: nat,
                   ghost st: State)
    returns (ok: bool, fixedAt': Option<nat>, fixedCount': nat, ghost st': State)
    requires iter.Valid() && iter.start == fields != []
    requires st.fixedAt == fixedAt && st.fixedCount == fixedCount
    requires Notes(fieldsSeen[..], st.seen) && Known(fields, st)
    modifies fieldsSeen
    ensures var spec := NoteField(fields, iter.pos, st);
            && (ok <==> spec.Some?)
            && (ok ==> st' == spec.value)
    ensures ok ==> st' == State(st.members, st'.seen, fixedAt', fixedCount')
    ensures ok ==> Notes(fieldsSeen[..], st'.seen) && Known(fields, st')
  {
    hide Notes, RequiredIndex;
    ok, fixedAt', fixedCount', st' := true, fixedAt, fixedCount, st;
    var i, f := iter.pos, fields[iter.pos];
    if f.FixedCount() && fixedAt != Some(i) {
      if fixedAt.Some? && fixedCount != fields[fixedAt.value].arraySize {
        return false, fixedAt, fixedCount, st;
      }
      fixedAt', fixedCount' := Some(i), 0;
      st' := st.(fixedAt := Some(i), fixedCount := 0);
    }
    if f.htype.Required? && iter.requiredFieldIndex < PB_MAX_REQUIRED_FIELDS {
      RequiredIndexGrows(fields, i, |fields|);
      Note(fieldsSeen, iter.requiredFieldIndex, st.seen);
      st' := st.(seen := st.seen + {iter.requiredFieldIndex});
    }
  }

  /** The field a tag names is noted and read, or the value of an unknown tag skipped. */
  method DecodeOneField(stream: IStream, fields: seq<Field>, iter: FieldIter, wt: WireType, tag: nat, dest: Struct,
                        fieldsSeen: array<nat>, fixedAt: Option<nat>, fixedCount: nat, ghost st: State)
    returns (ok: bool, fixedAt': Option<nat>, fixedCount': nat, ghost st': State)
    requires stream.Valid() && WellFormed(fields) && |dest.members| == SlotCount(fields)
    requires iter.Valid() && iter.start == fields
    requires st == State(dest.members, st.seen, fixedAt, fixedCount)
    requires Notes(fieldsSeen[..], st.seen) && Known(fields, st)
    modifies stream, dest, iter, fieldsSeen
    ensures stream.Valid() && Within(old(stream.End()), stream.End(), ok) && iter.Valid()
    ensures var spec := DecodeOne(fields, st, wt, tag, old(stream.Rest()));
            && (ok <==> spec.Ok?)
            && (ok ==> st' == spec.value && stream.Rest() == spec.rest)
    ensures ok ==> st' == State(dest.members, st'.seen, fixedAt', fixedCount')
    ensures ok ==> Notes(fieldsSeen[..], st'.seen) && Known(fields, st')
    decreases fields, 1
  {
    hide DecodeField, SkipField, FindTag, NextMatch, SlotCount, Notes, RequiredIndex, NoteField, Known;
    fixedAt', fixedCount', st' := fixedAt, fixedCount, st;
    if fields != [] {
      NextMatchIsFindTag(fields, tag, iter.pos);
    }
    assert forall i :: 0 <= i < |fields| ==> fields[i].tag != 0 by {
      assert forall i :: 0 <= i < |fields| ==> WellFormedField(fields[i]);
    }
    var found := iter.Find(tag);
    if !found {
      assert FindTag(fields, tag).None?;
      ok := stream.SkipField(wt);
      return;
    }
    if fields == [] {
      // The terminator of an empty table has no decoder.
      return false, fixedAt, fixedCount, st;
    }
    ok, fixedAt', fixedCount', st' := NoteMatch(fields, iter, fieldsSeen, fixedAt, fixedCount, st);
    if !ok {
      return;
    }
    ghost var noted := st';
    ok, fixedCount' := DecodeStaticField(stream, wt, fields, iter.pos, dest, fixedCount', noted);
    st' := noted.(members := dest.members, fixedCount := fixedCount');
    KnownStill(fields, noted, st');
  }

  /** How many required fields the table has, from a walk to its end. */
  method CountRequired(iter: FieldIter) returns (count: nat)
    requires iter.Valid()
    modifies iter
    ensures count == RequiredIndex(iter.start, |iter.start|)
  {
    var more, lastRequired := true, false;
    count := 0;
    while more
      invariant iter.Valid()
      invariant !more && iter.start != [] ==>
                  var last := |iter.start| - 1;
                  count == RequiredIndex(iter.start, last) && lastRequired == iter.start[last].htype.Required?
      invariant iter.start == [] ==> count == 0
      decreases if more then 1 + |iter.start| - iter.pos else 0
    {
      count := iter.requiredFieldIndex;
      lastRequired := iter.start != [] && iter.start[iter.pos].htype.Required?;
      more := iter.Next();
    }
    if lastRequired && iter.start != [] {
      count := count + 1;
    }
  }

  /** The closing check of the loop. */
  method CheckComplete(iter: FieldIter, fields: seq<Field>, fieldsSeen: array<nat>, fixedAt: Option<nat>,
                       fixedCount: nat, ghost st: State) returns (ok: bool)
    requires iter.Valid() && iter.start == fields
    requires st.fixedAt == fixedAt && st.fixedCount == fixedCount
    requires Notes(fieldsSeen[..], st.seen) && Known(fields, st)
    modifies iter
    ensures ok <==> Complete(fields, st)
  {
    hide Notes, RequiredIndex;
    if fixedAt.Some? && fixedCount != fields[fixedAt.value].arraySize {
      return false;
    }
    var count := CountRequired(iter);
    if count > PB_MAX_REQUIRED_FIELDS {
      count := PB_MAX_REQUIRED_FIELDS;
    }
    ok := AllNoted(fieldsSeen, count, st.seen);
  }

  method DecodeNoinit(stream: IStream, fields: seq<Field>, dest: Struct) returns (ok: bool)
    requires stream.Valid() && WellFormed(fields) && |dest.members| == SlotCount(fields)
    modifies stream, dest
    ensures stream.Valid() && Within(old(stream.End()), stream.End(), ok)
    ensures var spec := DecodeMessage(fields, old(dest.members), old(stream.Rest()));
            && (ok <==> spec.Ok?)
            && (ok ==> dest.members == spec.value && stream.Rest() == spec.rest)
    decreases fields, 2
  {
    hide DecodeOne, DecodeTag, WellFormed, SlotCount, Complete, Notes, RequiredIndex, SlotOf;
    assert Known(fields, Start(dest.members));
    hide Known;
    var fieldsSeen := new nat[2](_ => 0);
    NothingNoted();
    assert fieldsSeen[..] == [0, 0];
    var fixedAt: Option<nat>, fixedCount: nat := None, 0;
    var iter := new FieldIter(fields, 0);
    ghost var st := Start(dest.members);
    while stream.bytesLeft > 0
      modifies stream, dest, iter, fieldsSeen
      invariant stream.Valid() && stream.End() == old(stream.End())
      invariant iter.Valid() && iter.start == fields && |dest.members| == SlotCount(fields)
      invariant st == State(dest.members, st.seen, fixedAt, fixedCount)
      invariant Notes(fieldsSeen[..], st.seen) && Known(fields, st)
      invariant Run(fields, Start(old(dest.members)), old(stream.Rest())) == Run(fields, st, stream.Rest())
      decreases stream.bytesLeft
    {
      ghost var before := stream.Rest();
      var tag, eof := stream.DecodeTag();
      if tag.None? {
        if eof {
          break;
        }
        return false;
      }
      ok, fixedAt, fixedCount, st := DecodeOneField(stream, fields, iter, tag.value.0, tag.value.1, dest,
                                                    fieldsSeen, fixedAt, fixedCount, st);
      if !ok {
        return;
      }
      assert |stream.Rest()| == stream.bytesLeft && |before| > |stream.Rest()|;
    }
    ok := CheckComplete(iter, fields, fieldsSeen, fixedAt, fixedCount, st);
  }

  /** Decoding a message: the destination is set to its defaults and then filled. */
  method Decode(stream: IStream, fields: seq<Field>, dest: Struct) returns (ok: bool)
    requires stream.Valid() && WellFormed(fields) && |dest.members| == SlotCount(fields)
    modifies stream, dest
    ensures stream.Valid() && Within(old(stream.End()), stream.End(), ok)
    ensures var spec := Decoding.Decode(fields, old(dest.members), old(stream.Rest()));
            && (ok <==> spec.Ok?)
            && (ok ==> dest.members == spec.value && stream.Rest() == spec.rest)
  {
    hide DecodeMessage, SetDefaults;
    MessageSetToDefaults(fields, dest);
    ok := DecodeNoinit(stream, fields, dest);
  }
}
