/**
  What the decoder does with a byte sequence, as functions: the decode loop threads
  the destination struct, the required fields seen and the position in a
  fixed-count array from field to field, and the closing check looks at the last two.
 */
module Decoding {
  import opened Wrappers
  import opened Bits
  import opened Parsing
  import opened Wire
  import opened Descriptor

  // ----- Defaults

  function ZeroValue(f: Field): Value {
    match f.ltype
    case Bytes => Blob([])
    case String => Blob(seq(f.dataSize, _ => 0))
    case FixedLengthBytes => Blob(seq(f.dataSize, _ => 0))
    case _ => Int(0)
  }

  function DefaultValue(f: Field, prior: Value): Value
    decreases f, 0, 0
  {
    match f.ltype
    case Submessage(fields) => Msg(SetDefaults(fields, Members(fields, prior)))
    case _ => if f.init.Some? then f.init.value else ZeroValue(f)
  }

  /** Clear the flag, count or selector; array and union contents are left alone. */
  function DefaultMember(f: Field, m: Member): Member
    decreases f, 1, 0
  {
    if f.ltype.Extension? then m
    else
      match f.htype
      case Repeated => m.(size := 0)
      case Oneof => m.(size := 0)
      case Required => m.(items := [DefaultValue(f, Items(f, m)[0])])
      case Optional => Member(if f.HasSize() then 0 else m.size, [DefaultValue(f, Items(f, m)[0])])
  }

  /** The first n fields set to their defaults. */
  function SetDefaultsTo(fields: seq<Field>, members: seq<Member>, n: nat): (r: seq<Member>)
    requires n <= |fields| && |members| == SlotCount(fields)
    ensures |r| == |members|
    decreases fields, 0, n
  {
    if n == 0 then members
    else
      SlotInRange(fields, n - 1);
      var slot := SlotOf(fields, n - 1);
      var before := SetDefaultsTo(fields, members, n - 1);
      before[slot := DefaultMember(fields[n - 1], before[slot])]
  }

  function SetDefaults(fields: seq<Field>, members: seq<Member>): (r: seq<Member>)
    requires |members| == SlotCount(fields)
    ensures |r| == |members|
    decreases fields, 1, 0
  {
    SetDefaultsTo(fields, members, |fields|)
  }

  // ----- Integers

  /** Half the range of a signed integer of `size` bytes. */
  function HalfRange(size: nat): (half: int)
    ensures half > 0
  {
    match size
    case 1 => 0x80
    case 2 => 0x8000
    case 4 => 0x8000_0000
    case _ => 0x8000_0000_0000_0000
  }

  /** The cast to a signed integer of `size` bytes. */
  function ClampSigned(n: int, size: nat): int {
    var half := HalfRange(size);
    (n + half) % (2 * half) - half
  }

  function ClampUnsigned(n: nat, size: nat): nat { n % (2 * HalfRange(size)) }

  /** A cast that must not lose anything. */
  function Checked(n: int, clamped: int, size: nat, rest: seq<byte>): Parsed<Value> {
    if IntegerSize(size) && clamped == n then Ok(Int(n), rest) else Fail
  }

  // ----- Values

  function DecodeValue(f: Field, prior: Value, bs: seq<byte>): (r: Parsed<Value>)
    ensures r.Ok? ==> |r.rest| < |bs|
    decreases |bs|, 0
  {
    match f.ltype
    case Varint =>
      var (u, rest) :- DecodeVarint(bs);
      var n := if f.dataSize == 8 then ToSigned64(u) else ToSigned32(u);
      Checked(n, ClampSigned(n, f.dataSize), f.dataSize, rest)
    case UVarint =>
      var (u, rest) :- DecodeVarint(bs);
      Checked(u, ClampUnsigned(u, f.dataSize), f.dataSize, rest)
    case SVarint =>
      var (u, rest) :- DecodeVarint(bs);
      var n := UnZigZag(u);
      Checked(n, ClampSigned(n, f.dataSize), f.dataSize, rest)
    case Fixed32 =>
      var (word, rest) :- Take(bs, 4);
      Ok(Int(FromLittleEndian(word)), rest)
    case Fixed64 =>
      var (word, rest) :- Take(bs, 8);
      Ok(Int(FromLittleEndian(word)), rest)
    case Bytes =>
      var (size, rest) :- DecodeVarint32(bs);
      if size > PB_SIZE_MAX || size + BYTES_HEADER > f.dataSize then Fail
      else
        var (data, rest') :- Take(rest, size);
        Ok(Blob(data), rest')
    case String =>
      var (size, rest) :- DecodeVarint32(bs);
      var allocSize := (size + 1) % TWO_32;
      if allocSize < size || allocSize > f.dataSize then Fail
      else
        var (data, rest') :- Take(rest, size);
        Ok(Blob(data + [0] + Buffer(f, prior)[size + 1..]), rest')
    case Submessage(fields) =>
      var (data, rest) :- TakeDelimited(bs);
      var start := Members(fields, prior);
      var r := DecodeMessage(fields, if f.htype.Repeated? then SetDefaults(fields, start) else start, data);
      if r.Ok? then Ok(Msg(r.value), rest) else Fail
    case FixedLengthBytes =>
      var (size, rest) :- DecodeVarint32(bs);
      if size == 0 then Ok(Blob(seq(f.dataSize, _ => 0)), rest)
      else if size != f.dataSize then Fail
      else
        var (data, rest') :- Take(rest, size);
        Ok(Blob(data), rest')
    case Extension => Fail
  }

  /** Packed entries go into the array from `count` on, and all of them must fit. */
  function DecodePacked(f: Field, items: seq<Value>, count: nat, data: seq<byte>): (r: Parsed<(seq<Value>, nat)>)
    requires |items| == f.arraySize
    ensures r.Ok? ==> r.rest == [] && |r.value.0| == |items|
    decreases |data|, 1
  {
    if data == [] then Ok((items, count), [])
    else if count >= f.arraySize then Fail
    else
      var (v, rest) :- DecodeValue(f, items[count], data);
      DecodePacked(f, items[count := v], count + 1, rest)
  }

  /** What a repeated field adds to its entries: a packed array, or one entry. */
  function DecodeRepeated(f: Field, wt: WireType, items: seq<Value>, count: nat, bs: seq<byte>)
    : (r: Parsed<(seq<Value>, nat)>)
    requires |items| == f.arraySize
    ensures r.Ok? ==> |r.rest| < |bs| && |r.value.0| == |items|
    decreases |bs|, 2
  {
    if wt.WtString? && f.Packable() then
      var (data, rest) :- TakeDelimited(bs);
      var p := DecodePacked(f, items, count, data);
      if p.Ok? then Ok(p.value, rest) else Fail
    else if count >= f.arraySize then Fail
    else
      var (v, rest) :- DecodeValue(f, items[count], bs);
      Ok((items[count := v], count + 1), rest)
  }

  // ----- The decode loop

  /**
    The struct under construction, the indices of the required fields met, and the
    fixed-count array being received with the number of its entries so far.
   */
  datatype State = State(members: seq<Member>, seen: set<nat>, fixedAt: Option<nat>, fixedCount: nat)

  /** What is noted when field `i` turns up, before its value is read. */
  function NoteField(fields: seq<Field>, i: nat, st: State): Option<State>
    requires i < |fields|
  {
    var f := fields[i];
    if f.FixedCount() && st.fixedAt != Some(i) then
      if FixedArrayIncomplete(fields, st) then None else Some(st.(fixedAt := Some(i), fixedCount := 0))
    else if f.htype.Required? && RequiredIndex(fields, i) < PB_MAX_REQUIRED_FIELDS then
      Some(st.(seen := st.seen + {RequiredIndex(fields, i)}))
    else Some(st)
  }

  predicate FixedArrayIncomplete(fields: seq<Field>, st: State) {
    st.fixedAt.Some? && st.fixedAt.value < |fields| && st.fixedCount != fields[st.fixedAt.value].arraySize
  }

  /** The union's selector names no field at all. */
  predicate StaleSelector(fields: seq<Field>, f: Field, m: Member) {
    m.size != 0 && m.size != f.tag && FindTag(fields, m.size).None?
  }

  /** What a union member's value is decoded onto. */
  function UnionStart(f: Field, m: Member): Value
    requires f.htype.Oneof?
  {
    match f.ltype
    case Submessage(sub) => Msg(SetDefaults(sub, seq(SlotCount(sub), _ => Member(0, []))))
    case _ => Items(f, m)[0]
  }

  function Store(st: State, f: Field, slot: nat, items: seq<Value>, count: nat): State
    requires slot < |st.members|
  {
    if f.HasSize() then st.(members := st.members[slot := Member(count, items)])
    else st.(members := st.members[slot := st.members[slot].(items := items)], fixedCount := count)
  }

  /** What one value does to the member of a field that is not repeated. */
  function DecodeSingular(fields: seq<Field>, f: Field, m: Member, bs: seq<byte>): (r: Parsed<Member>)
    requires !f.htype.Repeated?
    ensures r.Ok? ==> |r.rest| < |bs|
    decreases |bs|, 2
  {
    match f.htype
    case Required =>
      var (v, rest) :- DecodeValue(f, Items(f, m)[0], bs);
      Ok(m.(items := [v]), rest)
    case Optional =>
      var (v, rest) :- DecodeValue(f, Items(f, m)[0], bs);
      Ok(Member(if f.HasSize() then 1 else m.size, [v]), rest)
    case Oneof =>
      if StaleSelector(fields, f, m) then Fail
      else
        var (v, rest) :- DecodeValue(f, UnionStart(f, m), bs);
        Ok(Member(f.tag, [v]), rest)
  }

  /** The value of field `i`, read into the struct. */
  function DecodeField(fields: seq<Field>, i: nat, wt: WireType, st: State, bs: seq<byte>): (r: Parsed<State>)
    requires i < |fields| && |st.members| == SlotCount(fields)
    ensures r.Ok? ==> |r.rest| < |bs| && |r.value.members| == |st.members|
    decreases |bs|, 3
  {
    SlotInRange(fields, i);
    var f, slot := fields[i], SlotOf(fields, i);
    var m := st.members[slot];
    if f.htype.Repeated? then
      var (p, rest) :- DecodeRepeated(f, wt, Items(f, m), if f.HasSize() then m.size else st.fixedCount, bs);
      Ok(Store(st, f, slot, p.0, p.1), rest)
    else
      var (m', rest) :- DecodeSingular(fields, f, m, bs);
      Ok(st.(members := st.members[slot := m']), rest)
  }

  /** How a run of the loop ends: at the end of the bytes or at a zero tag, or badly. */
  datatype Outcome = Done(st: State, rest: seq<byte>, stopped: bool) | Bad

  /** One field, known or not, off the front of `bs`. */
  function DecodeOne(fields: seq<Field>, st: State, wt: WireType, tag: nat, bs: seq<byte>): (r: Parsed<State>)
    requires |st.members| == SlotCount(fields)
    ensures r.Ok? ==> |r.rest| < |bs| && |r.value.members| == |st.members|
    decreases |bs|, 4
  {
    // The search finds the terminator of an empty table, which decodes as nothing.
    if fields == [] && tag == 0 then Fail
    else
      var found := FindTag(fields, tag);
      if found.None? then
        var (_, rest) :- SkipField(wt, bs);
        Ok(st, rest)
      else
        var noted := NoteField(fields, found.value, st);
        if noted.None? then Fail else DecodeField(fields, found.value, wt, noted.value, bs)
  }

  function Run(fields: seq<Field>, st: State, bs: seq<byte>): (r: Outcome)
    requires |st.members| == SlotCount(fields)
    ensures r.Done? ==> |r.st.members| == |st.members|
    ensures r.Done? && !r.stopped ==> r.rest == []
    decreases |bs|, 5
  {
    if bs == [] then Done(st, [], false)
    else
      match DecodeTag(bs)
      case BadTag => Bad
      case Terminator(rest) => Done(st, rest, true)
      case Tag(wt, tag, rest) =>
        var r := DecodeOne(fields, st, wt, tag, rest);
        if r.Fail? then Bad else Run(fields, r.value, r.rest)
  }

  /** The closing check: no array cut short, no required field missing. */
  predicate Complete(fields: seq<Field>, st: State) {
    && !FixedArrayIncomplete(fields, st)
    && forall k :: 0 <= k < RequiredIndex(fields, |fields|) && k < PB_MAX_REQUIRED_FIELDS ==> k in st.seen
  }

  function Start(members: seq<Member>): State { State(members, {}, None, 0) }

  /** Decoding onto a struct as it is. */
  function DecodeMessage(fields: seq<Field>, members: seq<Member>, bs: seq<byte>): (r: Parsed<seq<Member>>)
    requires |members| == SlotCount(fields)
    ensures r.Ok? ==> |r.value| == |members|
    decreases |bs|, 6
  {
    var r := Run(fields, Start(members), bs);
    if r.Done? && Complete(fields, r.st) then Ok(r.st.members, r.rest) else Fail
  }

  /** Decoding onto a struct first set to its defaults. */
  function Decode(fields: seq<Field>, members: seq<Member>, bs: seq<byte>): (r: Parsed<seq<Member>>)
    requires |members| == SlotCount(fields)
    ensures r.Ok? ==> |r.value| == |members|
  {
    DecodeMessage(fields, SetDefaults(fields, members), bs)
  }
}
