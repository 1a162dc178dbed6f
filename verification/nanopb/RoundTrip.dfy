/**
  The message round trip: decoding what the encoder wrote rebuilds every field that
  was present and leaves the absent ones at their defaults, at every nesting depth.
 */
module RoundTrip {
  import opened Wrappers
  import opened Bits
  import opened Parsing
  import opened Wire
  import opened VarintLaws
  import opened Descriptor
  import opened Encoding
  import opened Decoding
  import opened Folding

  // ----- Well-formed structs

  /** A value the field's storage can hold and the wire can carry. */
  predicate GoodValue(f: Field, v: Value)
    decreases f, 0, 0
  {
    match f.ltype
    case Varint => IntegerSize(f.dataSize) && -HalfRange(f.dataSize) <= Number(v) < HalfRange(f.dataSize)
    case SVarint => IntegerSize(f.dataSize) && -HalfRange(f.dataSize) <= Number(v) < HalfRange(f.dataSize)
    case UVarint => IntegerSize(f.dataSize) && 0 <= Number(v) < 2 * HalfRange(f.dataSize)
    case Fixed32 => 0 <= Number(v) < TWO_32
    case Fixed64 => 0 <= Number(v) < TWO_64
    case Bytes => |BytesInUse(v)| + BYTES_HEADER <= f.dataSize
    case String => StringLength(Buffer(f, v)) < f.dataSize
    case Submessage(fields) =>
      && GoodMessage(fields, Members(fields, v))
      && Fits(EncodeMessage(fields, Members(fields, v)))
    case FixedLengthBytes => true
    case Extension => true
  }

  /** A length prefix is read with 32 bits. */
  predicate Fits(e: Encoded) { e.Some? ==> |e.value| < TWO_32 }

  function Count(f: Field, m: Member): nat {
    if f.HasSize() then m.size else f.arraySize
  }

  predicate GoodMember(f: Field, m: Member)
    decreases f, 1, 0
  {
    match f.htype
    case Required => GoodValue(f, Items(f, m)[0])
    case Optional => !f.ltype.Extension? && Present(f, m) ==> GoodValue(f, Items(f, m)[0])
    case Oneof => m.size == f.tag ==> GoodValue(f, Items(f, m)[0])
    case Repeated =>
      && Count(f, m) <= f.arraySize
      && (forall k :: 0 <= k < Count(f, m) ==> GoodValue(f, Items(f, m)[k]))
      && (f.Packable() ==> Fits(EncodeItems(f, Items(f, m), Count(f, m))))
  }

  /** A union's selector is zero or names one of the union's fields. */
  predicate GoodSelector(fields: seq<Field>, i: nat, m: Member)
    requires i < |fields|
  {
    fields[i].htype.Oneof? && m.size != 0 ==>
      exists j :: 0 <= j < |fields| && SlotOf(fields, j) == SlotOf(fields, i) && fields[j].tag == m.size
                  && fields[j].htype.Oneof?
  }

  predicate GoodMessage(fields: seq<Field>, members: seq<Member>)
    requires |members| == SlotCount(fields)
    decreases fields, 2, 0
  {
    forall i :: 0 <= i < |fields| ==>
      (SlotInRange(fields, i);
       && GoodMember(fields[i], members[SlotOf(fields, i)])
       && GoodSelector(fields, i, members[SlotOf(fields, i)]))
  }

  // ----- Structs at their defaults

  predicate DefaultedValue(f: Field, v: Value)
    decreases f, 0, 0
  {
    match f.ltype
    case Submessage(fields) => Defaulted(fields, Members(fields, v))
    case _ => v == if f.init.Some? then f.init.value else ZeroValue(f)
  }

  predicate DefaultedMember(f: Field, m: Member)
    decreases f, 1, 0
  {
    f.ltype.Extension? ||
    match f.htype
    case Repeated => m.size == 0
    case Oneof => m.size == 0
    case Required => DefaultedValue(f, Items(f, m)[0])
    case Optional => (f.HasSize() ==> m.size == 0) && DefaultedValue(f, Items(f, m)[0])
  }

  predicate Defaulted(fields: seq<Field>, members: seq<Member>)
    requires |members| == SlotCount(fields)
    decreases fields, 2, 0
  {
    forall i :: 0 <= i < |fields| ==>
      (SlotInRange(fields, i); DefaultedMember(fields[i], members[SlotOf(fields, i)]))
  }

  lemma {:induction false} DefaultValueIsDefaulted(f: Field, prior: Value)
    requires WellFormedField(f)
    ensures DefaultedValue(f, DefaultValue(f, prior))
    decreases f, 0, 0
  {
    if f.ltype.Submessage? {
      SetDefaultsDefaults(f.ltype.fields, Members(f.ltype.fields, prior));
    }
  }

  lemma {:induction false} DefaultMemberIsDefaulted(f: Field, m: Member)
    requires WellFormedField(f)
    ensures DefaultedMember(f, DefaultMember(f, m))
    decreases f, 1, 0
  {
    if !f.htype.Repeated? && !f.htype.Oneof? {
      DefaultValueIsDefaulted(f, Items(f, m)[0]);
    }
  }

  lemma {:induction false} SetDefaultsToDefaults(fields: seq<Field>, members: seq<Member>, n: nat, i: nat)
    requires WellFormed(fields) && |members| == SlotCount(fields) && i < n <= |fields|
    ensures SlotOf(fields, i) < |members|
    ensures DefaultedMember(fields[i], SetDefaultsTo(fields, members, n)[SlotOf(fields, i)])
    decreases fields, 0, n
  {
    hide DefaultMember, DefaultedMember;
    SlotInRange(fields, i);
    SlotInRange(fields, n - 1);
    var before := SetDefaultsTo(fields, members, n - 1);
    var slot := SlotOf(fields, n - 1);
    if i == n - 1 {
      DefaultMemberIsDefaulted(fields[i], before[slot]);
    } else {
      SetDefaultsToDefaults(fields, members, n - 1, i);
      if SlotOf(fields, i) == slot {
        SharedSlotIsUnion(fields, i, n - 1);
        UnionDefaults(fields[i], fields[n - 1], before[slot]);
      }
    }
  }

  lemma UnionDefaults(f: Field, g: Field, m: Member)
    requires f.htype.Oneof? && g.htype.Oneof? && WellFormedField(f) && WellFormedField(g)
    ensures DefaultedMember(f, DefaultMember(g, m))
  {
  }

  lemma {:induction false} SetDefaultsDefaults(fields: seq<Field>, members: seq<Member>)
    requires WellFormed(fields) && |members| == SlotCount(fields)
    ensures Defaulted(fields, SetDefaults(fields, members))
    decreases fields, 1, 0
  {
    forall i | 0 <= i < |fields|
      ensures (SlotInRange(fields, i); DefaultedMember(fields[i], SetDefaults(fields, members)[SlotOf(fields, i)]))
    {
      SetDefaultsToDefaults(fields, members, |fields|, i);
    }
  }

  // ----- Rebuilt structs

  /** The same value, whatever lies behind a string's terminator. */
  predicate SameValue(f: Field, v: Value, w: Value)
    decreases f, 0, 0
  {
    match f.ltype
    case Bytes => BytesInUse(v) == BytesInUse(w)
    case String =>
      var a, b := Buffer(f, v), Buffer(f, w);
      a[..StringLength(a)] == b[..StringLength(b)]
    case FixedLengthBytes => Buffer(f, v) == Buffer(f, w)
    case Submessage(fields) => Rebuilt(fields, Members(fields, v), Members(fields, w))
    case Extension => true
    case _ => Number(v) == Number(w)
  }

  /** Present fields hold the source's value, absent ones their default. */
  predicate RebuiltMember(f: Field, src: Member, out: Member)
    decreases f, 1, 0
  {
    f.ltype.Extension? ||
    match f.htype
    case Required => SameValue(f, Items(f, src)[0], Items(f, out)[0])
    case Optional =>
      if Present(f, src) then (f.HasSize() ==> out.size != 0) && SameValue(f, Items(f, src)[0], Items(f, out)[0])
      else DefaultedMember(f, out)
    case Repeated =>
      && (f.HasSize() ==> out.size == src.size)
      && forall k :: 0 <= k < Count(f, src) && k < f.arraySize ==> SameValue(f, Items(f, src)[k], Items(f, out)[k])
    case Oneof => out.size == src.size && (src.size == f.tag ==> SameValue(f, Items(f, src)[0], Items(f, out)[0]))
  }

  predicate Rebuilt(fields: seq<Field>, src: seq<Member>, out: seq<Member>)
    requires |src| == |out| == SlotCount(fields)
    decreases fields, 2, 0
  {
    forall i :: 0 <= i < |fields| ==>
      (SlotInRange(fields, i);
       RebuiltMember(fields[i], src[SlotOf(fields, i)], out[SlotOf(fields, i)]))
  }

  // ----- Values

  /** A value survives the wire: its bytes decode, all of them, to the same value. */
  predicate Survives(f: Field, prior: Value, v: Value) {
    var e := EncodeValue(f, v);
    && e.Some?
    && var r := DecodeValue(f, prior, e.value);
       r.Ok? && r.rest == [] && SameValue(f, v, r.value)
  }

  lemma HalfRangeBound(size: nat)
    ensures 0x80 <= HalfRange(size) <= TWO_63
  {
  }

  lemma CastsLoseNothing(n: int, size: nat)
    ensures -HalfRange(size) <= n < HalfRange(size) ==> ClampSigned(n, size) == n
    ensures 0 <= n < 2 * HalfRange(size) ==> ClampUnsigned(n, size) == n
  {
    hide HalfRange;
    var half := HalfRange(size);
    if -half <= n < half {
      QuotientUnique(n + half, 2 * half, 0, n + half);
    }
    if 0 <= n < 2 * half {
      QuotientUnique(n, 2 * half, 0, n);
    }
  }

  /** Sign extension to 64 bits and the decoder's two-step narrowing are inverse. */
  lemma NarrowingInvertsExtension(n: int, size: nat)
    requires IntegerSize(size) && -HalfRange(size) <= n < HalfRange(size)
    ensures (if size == 8 then ToSigned64(ToUnsigned64(n)) else ToSigned32(ToUnsigned64(n))) == n
  {
    assert ToUnsigned64(n) == if n >= 0 then n else n + TWO_64;
    if size != 8 {
      assert (n + TWO_64) % TWO_32 == n % TWO_32;
    }
  }

  lemma VarintSurvives(f: Field, prior: Value, v: Value)
    requires f.ltype.Varint? && GoodValue(f, v)
    ensures Survives(f, prior, v)
  {
    hide EncodeVarint, DecodeVarint, ToUnsigned64, ToSigned32, ToSigned64, ClampSigned, HalfRange;
    var n := Number(v);
    CastsLoseNothing(n, f.dataSize);
    NarrowingInvertsExtension(n, f.dataSize);
    VarintAlone(n);
  }

  lemma VarintAlone(n: int)
    ensures DecodeVarint(EncodeVarint(ToUnsigned64(n))) == Ok(ToUnsigned64(n), [])
  {
    hide EncodeVarint, DecodeVarint;
    DecodeVarintInvertsEncode(ToUnsigned64(n), []);
    assert EncodeVarint(ToUnsigned64(n)) + [] == EncodeVarint(ToUnsigned64(n));
  }

  lemma AlreadyUnsigned(n: int)
    ensures 0 <= n < TWO_64 ==> ToUnsigned64(n) == n
  {
  }

  lemma {:induction false} UVarintSurvives(f: Field, prior: Value, v: Value)
    requires f.ltype.UVarint? && GoodValue(f, v)
    ensures Survives(f, prior, v)
  {
    hide EncodeVarint, DecodeVarint, ClampUnsigned, HalfRange, ToUnsigned64;
    var n := Number(v);
    HalfRangeBound(f.dataSize);
    CastsLoseNothing(n, f.dataSize);
    VarintAlone(n);
    AlreadyUnsigned(n);
  }

  lemma SVarintSurvives(f: Field, prior: Value, v: Value)
    requires f.ltype.SVarint? && GoodValue(f, v)
    ensures Survives(f, prior, v)
  {
    hide EncodeVarint, DecodeVarint, ZigZag, UnZigZag, ClampSigned, HalfRange;
    var n := Number(v);
    HalfRangeBound(f.dataSize);
    CastsLoseNothing(n, f.dataSize);
    ZigZagBijective(n, 0);
    ZigZagNumbering(n);
    DecodeVarintInvertsEncode(ZigZag(n), []);
    assert EncodeVarint(ZigZag(n)) + [] == EncodeVarint(ZigZag(n));
  }

  lemma WordAlone(n: nat, width: nat)
    requires (width == 4 && n < TWO_32) || (width == 8 && n < TWO_64)
    ensures Take(LittleEndian(n, width), width) == Ok(LittleEndian(n, width), [])
    ensures FromLittleEndian(LittleEndian(n, width)) == n
  {
    hide LittleEndian, FromLittleEndian, Shl;
    ShlBy28(1);
    ShlOne(1, 28); ShlOne(1, 29); ShlOne(1, 30); ShlOne(1, 31);
    Shl64();
    LittleEndianInverse(n, width);
    assert LittleEndian(n, width)[..width] == LittleEndian(n, width);
  }

  lemma WordSurvives(f: Field, prior: Value, v: Value)
    requires f.ltype.Fixed32? || f.ltype.Fixed64?
    requires GoodValue(f, v)
    ensures Survives(f, prior, v)
  {
    hide LittleEndian, FromLittleEndian, Take;
    WordAlone(Number(v), if f.ltype.Fixed32? then 4 else 8);
  }

  lemma DelimitedPrefix(data: seq<byte>)
    requires |data| < TWO_32
    ensures DecodeVarint32(Delimited(data)) == Ok(|data|, data)
  {
    hide EncodeVarint, DecodeVarint32;
    assert |data| % TWO_64 == |data|;
    DecodeVarint32InvertsEncode(|data|, data);
  }

  lemma BytesSurvive(f: Field, prior: Value, v: Value)
    requires f.ltype.Bytes? && WellFormedField(f) && GoodValue(f, v)
    ensures Survives(f, prior, v)
  {
    hide Delimited, DecodeVarint32;
    var b := BytesInUse(v);
    DelimitedPrefix(b);
    assert b[..|b|] == b && b[|b|..] == [];
  }

  lemma StringSurvives(f: Field, prior: Value, v: Value)
    requires f.ltype.String? && WellFormedField(f) && GoodValue(f, v)
    ensures Survives(f, prior, v)
  {
    hide Delimited, DecodeVarint32, StringLength, Buffer;
    var buffer := Buffer(f, v);
    var n := StringLength(buffer);
    var text := buffer[..n];
    DelimitedPrefix(text);
    assert text[..n] == text && text[n..] == [];
    var out := text + [0] + Buffer(f, prior)[n + 1..];
    assert out[..n] == text;
    BufferOf(f, out);
    StringLengthUnique(out, n);
  }

  lemma BufferOf(f: Field, bs: seq<byte>)
    requires |bs| == f.dataSize
    ensures Buffer(f, Blob(bs)) == bs
  {
  }

  lemma {:induction false} StringLengthUnique(buffer: seq<byte>, n: nat)
    requires n < |buffer| && buffer[n] == 0
    requires forall i :: 0 <= i < n ==> buffer[i] != 0
    ensures StringLength(buffer) == n
  {
    if n > 0 {
      StringLengthUnique(buffer[1..], n - 1);
    }
  }

  lemma FixedLengthSurvives(f: Field, prior: Value, v: Value)
    requires f.ltype.FixedLengthBytes? && WellFormedField(f)
    ensures Survives(f, prior, v)
  {
    hide Delimited, DecodeVarint32, WellFormed;
    var b := Buffer(f, v);
    DelimitedPrefix(b);
    assert b[..|b|] == b && b[|b|..] == [];
  }

  // ----- One tagged value on the wire

  /** Running the loop over exactly one field: its tag and a payload it takes whole. */
  lemma RunTagged(fields: seq<Field>, i: nat, wt: WireType, st: State, payload: seq<byte>)
    requires WellFormed(fields) && i < |fields| && !fields[i].ltype.Extension? && !wt.WtInvalid?
    requires |st.members| == SlotCount(fields)
    requires NoteField(fields, i, st).Some?
    requires DecodeField(fields, i, wt, NoteField(fields, i, st).value, payload).Ok?
    requires DecodeField(fields, i, wt, NoteField(fields, i, st).value, payload).rest == []
    ensures Run(fields, st, EncodeTag(wt, fields[i].tag) + payload) ==
            Done(DecodeField(fields, i, wt, NoteField(fields, i, st).value, payload).value, [], false)
  {
    hide DecodeField, EncodeTag, DecodeTag, NoteField, FindTag;
    assert WellFormedField(fields[i]);
    DecodeTagInvertsEncode(wt, fields[i].tag, payload);
    FindTagUnique(fields, i);
  }

  /** The value of a field that is neither repeated nor in need of a note. */
  lemma RunValue(fields: seq<Field>, i: nat, st: State, v: Value, prior: Value)
    requires WellFormed(fields) && i < |fields| && |st.members| == SlotCount(fields)
    requires !fields[i].ltype.Extension? && !fields[i].htype.Repeated?
    requires SlotOf(fields, i) < |st.members|
    requires var m := st.members[SlotOf(fields, i)];
             && prior == (if fields[i].htype.Oneof? then UnionStart(fields[i], m) else Items(fields[i], m)[0])
             && (fields[i].htype.Oneof? ==> !StaleSelector(fields, fields[i], m))
    requires Survives(fields[i], prior, v)
    ensures var f := fields[i];
            var w := DecodeValue(f, prior, EncodeValue(f, v).value).value;
            && SameValue(f, v, w)
            && EncodeTagged(f, v).Some?
            && Run(fields, st, EncodeTagged(f, v).value) == Done(AfterValue(fields, i, st, w), [], false)
  {
    hide EncodeValue, DecodeValue, EncodeTag, Run, StaleSelector, UnionStart, Items, SlotOf, SameValue, WellFormed;
    var f := fields[i];
    assert !f.FixedCount();
    RunTagged(fields, i, WireTypeFor(f.ltype), st, EncodeValue(f, v).value);
  }

  /** The loop's state after a singular field with value `w`. */
  function AfterValue(fields: seq<Field>, i: nat, st: State, w: Value): State
    requires i < |fields| && SlotOf(fields, i) < |st.members|
  {
    var f, slot := fields[i], SlotOf(fields, i);
    st.(members := st.members[slot := Member(StoredSize(f, st.members[slot]), [w])],
        seen := SeenAfter(fields, i, st.seen))
  }

  /** The flag or selector a decoded singular field leaves behind. */
  function StoredSize(f: Field, m: Member): nat {
    match f.htype
    case Oneof => f.tag
    case Optional => if f.HasSize() then 1 else m.size
    case _ => m.size
  }

  function SeenAfter(fields: seq<Field>, i: nat, seen: set<nat>): set<nat>
    requires i < |fields|
  {
    if fields[i].htype.Required? && RequiredIndex(fields, i) < PB_MAX_REQUIRED_FIELDS
    then seen + {RequiredIndex(fields, i)} else seen
  }

  // ----- Arrays on the wire

  /** The loop is about to store entry `k` of the array field `i`. */
  predicate AtEntry(fields: seq<Field>, i: nat, st: State, k: nat)
    requires i < |fields| && SlotOf(fields, i) < |st.members|
  {
    if fields[i].HasSize() then st.members[SlotOf(fields, i)].size == k
    else if k == 0 then st.fixedAt != Some(i) && !FixedArrayIncomplete(fields, st)
    else st.fixedAt == Some(i) && st.fixedCount == k
  }

  /** The loop's state once the array field `i` has `items` of which `k` are stored. */
  function AfterEntries(fields: seq<Field>, i: nat, st: State, items: seq<Value>, k: nat): State
    requires i < |fields| && SlotOf(fields, i) < |st.members|
  {
    var f, slot := fields[i], SlotOf(fields, i);
    if f.HasSize() then st.(members := st.members[slot := Member(k, items)])
    else st.(members := st.members[slot := st.members[slot].(items := items)], fixedAt := Some(i), fixedCount := k)
  }

  lemma RunEntry(fields: seq<Field>, i: nat, st: State, v: Value, k: nat)
    requires WellFormed(fields) && i < |fields| && |st.members| == SlotCount(fields)
    requires SlotOf(fields, i) < |st.members|
    requires fields[i].htype.Repeated? && !fields[i].ltype.Extension?
    requires k < fields[i].arraySize && AtEntry(fields, i, st, k)
    requires Survives(fields[i], Items(fields[i], st.members[SlotOf(fields, i)])[k], v)
    ensures var f := fields[i];
            var items := Items(f, st.members[SlotOf(fields, i)]);
            var w := DecodeValue(f, items[k], EncodeValue(f, v).value).value;
            && SameValue(f, v, w)
            && EncodeTagged(f, v).Some?
            && Run(fields, st, EncodeTagged(f, v).value) ==
               Done(AfterEntries(fields, i, st, items[k := w], k + 1), [], false)
  {
    hide EncodeValue, DecodeValue, DecodePacked, EncodeTag, Run, Items, SlotOf, SameValue, WellFormed;
    var f := fields[i];
    RunTagged(fields, i, WireTypeFor(f.ltype), st, EncodeValue(f, v).value);
  }

  lemma RunPacked(fields: seq<Field>, i: nat, st: State, data: seq<byte>)
    requires WellFormed(fields) && i < |fields| && |st.members| == SlotCount(fields)
    requires SlotOf(fields, i) < |st.members|
    requires fields[i].htype.Repeated? && fields[i].Packable()
    requires AtEntry(fields, i, st, 0) && |data| < TWO_32
    requires DecodePacked(fields[i], Items(fields[i], st.members[SlotOf(fields, i)]), 0, data).Ok?
    ensures var f := fields[i];
            var p := DecodePacked(f, Items(f, st.members[SlotOf(fields, i)]), 0, data).value;
            Run(fields, st, EncodeTag(WtString, f.tag) + Delimited(data)) ==
            Done(AfterEntries(fields, i, st, p.0, p.1), [], false)
  {
    hide DecodeValue, DecodePacked, EncodeTag, Run, Items, SlotOf, WellFormed, Delimited, TakeDelimited;
    TakeDelimitedInverse(data, []);
    assert Delimited(data) + [] == Delimited(data);
    RunTagged(fields, i, WtString, st, Delimited(data));
  }

  /** The first k entries agree. */
  predicate SameItems(f: Field, src: seq<Value>, out: seq<Value>, k: nat)
    requires k <= |src| && k <= |out|
  {
    forall j :: 0 <= j < k ==> SameValue(f, src[j], out[j])
  }

  // ----- The induction over descriptors

  lemma {:induction false} ValueSurvives(f: Field, prior: Value, v: Value)
    requires WellFormedField(f) && !f.ltype.Extension? && GoodValue(f, v)
    requires f.ltype.Submessage? && !f.htype.Repeated? ==> DefaultedValue(f, prior)
    ensures Survives(f, prior, v)
    decreases f, 0, 0
  {
    match f.ltype
    case Varint => VarintSurvives(f, prior, v);
    case UVarint => UVarintSurvives(f, prior, v);
    case SVarint => SVarintSurvives(f, prior, v);
    case Fixed32 => WordSurvives(f, prior, v);
    case Fixed64 => WordSurvives(f, prior, v);
    case Bytes => BytesSurvive(f, prior, v);
    case String => StringSurvives(f, prior, v);
    case FixedLengthBytes => FixedLengthSurvives(f, prior, v);
    case Submessage(fields) =>
      var src, start := Members(fields, v), Members(fields, prior);
      if f.htype.Repeated? {
        SetDefaultsDefaults(fields, start);
        start := SetDefaults(fields, start);
      }
      MessageSurvives(fields, src, start);
      SubmessageSurvives(f, prior, v);
  }

  /** A struct survives: decoding its encoding onto defaults rebuilds it. */
  predicate MessageRebuilt(fields: seq<Field>, src: seq<Member>, dst: seq<Member>)
    requires |src| == |dst| == SlotCount(fields)
  {
    var e := EncodeMessage(fields, src);
    && e.Some?
    && var r := DecodeMessage(fields, dst, e.value);
       r.Ok? && r.rest == [] && Rebuilt(fields, src, r.value)
  }

  lemma SubmessageSurvives(f: Field, prior: Value, v: Value)
    requires f.ltype.Submessage?
    requires var fields := f.ltype.fields;
             var src, start := Members(fields, v), Members(fields, prior);
             && Fits(EncodeMessage(fields, src))
             && MessageRebuilt(fields, src, if f.htype.Repeated? then SetDefaults(fields, start) else start)
    ensures Survives(f, prior, v)
  {
    hide EncodeMessage, DecodeMessage, Delimited, TakeDelimited, SetDefaults, Rebuilt;
    var fields := f.ltype.fields;
    var body := EncodeMessage(fields, Members(fields, v)).value;
    TakeDelimitedInverse(body, []);
    assert Delimited(body) + [] == Delimited(body);
  }

  lemma {:induction false} ItemsSurvive(f: Field, src: seq<Value>, into: seq<Value>, k: nat) returns (out: seq<Value>)
    requires WellFormedField(f) && f.htype.Repeated? && f.Packable()
    requires |src| == |into| == f.arraySize && k <= f.arraySize
    requires forall j :: 0 <= j < k ==> GoodValue(f, src[j])
    ensures EncodeItems(f, src, k).Some?
    ensures DecodePacked(f, into, 0, EncodeItems(f, src, k).value) == Ok((out, k), [])
    ensures |out| == |into| && SameItems(f, src, out, k)
    decreases f, 1, k
  {
    hide EncodeValue, DecodeValue, GoodValue, SameValue, WellFormedField;
    if k == 0 {
      out := into;
    } else {
      var before := ItemsSurvive(f, src, into, k - 1);
      ValueSurvives(f, before[k - 1], src[k - 1]);
      var a, b := EncodeItems(f, src, k - 1).value, EncodeValue(f, src[k - 1]).value;
      DecodePackedConcat(f, into, 0, a, b);
      var w := DecodeValue(f, before[k - 1], b).value;
      out := before[k - 1 := w];
    }
  }

  lemma {:induction false} TaggedItemsSurvive(fields: seq<Field>, i: nat, st: State, src: seq<Value>, k: nat)
    returns (out: seq<Value>)
    requires WellFormed(fields) && i < |fields| && |st.members| == SlotCount(fields)
    requires SlotOf(fields, i) < |st.members|
    requires fields[i].htype.Repeated? && !fields[i].ltype.Extension?
    requires |src| == fields[i].arraySize && 0 < k <= fields[i].arraySize
    requires AtEntry(fields, i, st, 0)
    requires forall j :: 0 <= j < k ==> GoodValue(fields[i], src[j])
    ensures EncodeTaggedItems(fields[i], src, k).Some?
    ensures Run(fields, st, EncodeTaggedItems(fields[i], src, k).value) ==
            Done(AfterEntries(fields, i, st, out, k), [], false)
    ensures |out| == fields[i].arraySize && SameItems(fields[i], src, out, k)
    decreases fields[i], 2, k
  {
    hide EncodeValue, DecodeValue, EncodeTagged, GoodValue, SameValue, Run, WellFormedField;
    var f, slot := fields[i], SlotOf(fields, i);
    assert WellFormedField(f);
    var items, st', a := Items(f, st.members[slot]), st, [];
    if k > 1 {
      items := TaggedItemsSurvive(fields, i, st, src, k - 1);
      st' := AfterEntries(fields, i, st, items, k - 1);
      a := EncodeTaggedItems(f, src, k - 1).value;
    } else {
      RunNothing(fields, st);
    }
    ItemsOf(f, items, st'.members[slot].size);
    assert Items(f, st'.members[slot]) == items;
    ValueSurvives(f, items[k - 1], src[k - 1]);
    RunEntry(fields, i, st', src[k - 1], k - 1);
    var b := EncodeTagged(f, src[k - 1]).value;
    out := items[k - 1 := DecodeValue(f, items[k - 1], EncodeValue(f, src[k - 1]).value).value];
    RunConcat(fields, st, a, b);
  }

  lemma RunNothing(fields: seq<Field>, st: State)
    requires |st.members| == SlotCount(fields)
    ensures Run(fields, st, []) == Done(st, [], false)
  {
  }

  lemma ItemsOf(f: Field, items: seq<Value>, size: nat)
    requires |items| == if f.htype.Repeated? then f.arraySize else 1
    ensures Items(f, Member(size, items)) == items
  {
  }

  // ----- Fields, one after the other

  /** The selector of a union is clear or already the source's. */
  predicate SelectorReached(src: Member, out: Member) { out.size == 0 || out.size == src.size }

  predicate FieldDone(f: Field, src: Member, out: Member) {
    if f.htype.Oneof? then
      && SelectorReached(src, out)
      && (src.size == f.tag ==> out.size == f.tag && SameValue(f, Items(f, src)[0], Items(f, out)[0]))
    else RebuiltMember(f, src, out)
  }

  predicate FieldPending(f: Field, src: Member, out: Member) {
    if f.htype.Oneof? then SelectorReached(src, out) else DefaultedMember(f, out)
  }

  /** Where field `i` stands when the first n fields have been read. */
  predicate FieldAt(fields: seq<Field>, src: seq<Member>, n: nat, st: State, i: nat)
    requires i < |fields| && |src| == |st.members| == SlotCount(fields)
  {
    SlotInRange(fields, i);
    var s, o := src[SlotOf(fields, i)], st.members[SlotOf(fields, i)];
    if i < n then FieldDone(fields[i], s, o) else FieldPending(fields[i], s, o)
  }

  /** The first n fields are rebuilt, the others still at their defaults. */
  predicate Progress(fields: seq<Field>, src: seq<Member>, n: nat, st: State)
    requires |src| == SlotCount(fields)
  {
    && |st.members| == |src|
    && (forall i :: 0 <= i < |fields| ==> FieldAt(fields, src, n, st, i))
    && (forall i :: 0 <= i < n && i < |fields| ==> RequiredSeen(fields, i, st))
    && (st.fixedAt.Some? ==> st.fixedAt.value < n)
    && !FixedArrayIncomplete(fields, st)
  }

  predicate RequiredSeen(fields: seq<Field>, i: nat, st: State)
    requires i < |fields|
  {
    fields[i].htype.Required? && RequiredIndex(fields, i) < PB_MAX_REQUIRED_FIELDS ==>
      RequiredIndex(fields, i) in st.seen
  }

  /** Reading field `n` leaves the standing of every other field. */
  lemma {:induction false} FieldStep(fields: seq<Field>, src: seq<Member>, n: nat, st: State, st': State, i: nat)
    requires WellFormed(fields) && n < |fields| && i < |fields|
    requires |src| == |st.members| == |st'.members| == SlotCount(fields)
    requires FieldAt(fields, src, n, st, i) && SlotOf(fields, n) < |src|
    requires forall slot :: 0 <= slot < |src| && slot != SlotOf(fields, n) ==> st'.members[slot] == st.members[slot]
    requires FieldDone(fields[n], src[SlotOf(fields, n)], st'.members[SlotOf(fields, n)])
    requires st'.members[SlotOf(fields, n)] != st.members[SlotOf(fields, n)] && fields[n].htype.Oneof? ==>
               src[SlotOf(fields, n)].size == fields[n].tag
    ensures FieldAt(fields, src, n + 1, st', i)
  {
    hide RebuiltMember, DefaultedMember, SameValue, WellFormedField, Items, SlotOf, SlotCount;
    SlotInRange(fields, i);
    if i != n && SlotOf(fields, i) == SlotOf(fields, n) {
      if i < n {
        SharedSlotIsUnion(fields, i, n);
      } else {
        SharedSlotIsUnion(fields, n, i);
      }
      assert fields[i].tag != fields[n].tag;
    }
  }

  /** What the next field must establish for progress. */
  lemma {:induction false} ProgressStep(fields: seq<Field>, src: seq<Member>, n: nat, st: State, st': State)
    requires WellFormed(fields) && n < |fields| && |src| == SlotCount(fields)
    requires Progress(fields, src, n, st)
    requires SlotOf(fields, n) < |src| && |st'.members| == |src|
    requires forall slot :: 0 <= slot < |src| && slot != SlotOf(fields, n) ==> st'.members[slot] == st.members[slot]
    requires FieldDone(fields[n], src[SlotOf(fields, n)], st'.members[SlotOf(fields, n)])
    requires st'.members[SlotOf(fields, n)] != st.members[SlotOf(fields, n)] && fields[n].htype.Oneof? ==>
               src[SlotOf(fields, n)].size == fields[n].tag
    requires st.seen <= st'.seen && RequiredSeen(fields, n, st')
    requires st'.fixedAt.Some? ==> st'.fixedAt.value < n + 1
    requires !FixedArrayIncomplete(fields, st')
    ensures Progress(fields, src, n + 1, st')
  {
    hide FieldAt, FieldDone, WellFormed, SlotOf, SlotCount, FixedArrayIncomplete, RequiredIndex;
    var n' := n + 1;
    forall i | 0 <= i < |fields|
      ensures FieldAt(fields, src, n', st', i)
    {
      FieldStep(fields, src, n, st, st', i);
    }
    forall i | 0 <= i < n + 1 && i < |fields|
      ensures RequiredSeen(fields, i, st')
    {
      assert i < n ==> RequiredSeen(fields, i, st);
    }
  }

  /** A field that is written as one tagged value. */
  predicate WrittenOnce(f: Field, m: Member) {
    !f.ltype.Extension? &&
    match f.htype
    case Required => true
    case Optional => Present(f, m)
    case Oneof => m.size == f.tag
    case Repeated => false
  }

  /** What a singular field's value is decoded onto. */
  function Prior(f: Field, m: Member): Value
    requires !f.htype.Repeated?
  {
    if f.htype.Oneof? then UnionStart(f, m) else Items(f, m)[0]
  }

  lemma SingularFieldReady(fields: seq<Field>, src: seq<Member>, n: nat, st: State)
    requires WellFormed(fields) && n < |fields| && |src| == SlotCount(fields)
    requires Progress(fields, src, n, st) && GoodMessage(fields, src)
    requires SlotOf(fields, n) < |src| && WrittenOnce(fields[n], src[SlotOf(fields, n)])
    ensures |st.members| == |src| && WellFormedField(fields[n])
    ensures var f, s, m := fields[n], src[SlotOf(fields, n)], st.members[SlotOf(fields, n)];
            && GoodValue(f, Items(f, s)[0])
            && (f.ltype.Submessage? ==> DefaultedValue(f, Prior(f, m)))
            && (f.htype.Oneof? ==> !StaleSelector(fields, f, m))
  {
    hide GoodValue, DefaultedValue, Present, SameValue, RequiredSeen, FixedArrayIncomplete;
    SlotInRange(fields, n);
    var f, slot := fields[n], SlotOf(fields, n);
    var m := st.members[slot];
    assert FieldAt(fields, src, n, st, n);
    assert GoodMember(f, src[slot]) && WellFormedField(f) && FieldPending(f, src[slot], m);
    if f.htype.Oneof? && f.ltype.Submessage? {
      UnionStartDefaulted(f, m);
    }
  }

  lemma SingularFieldDone(fields: seq<Field>, src: seq<Member>, n: nat, st: State, w: Value)
    requires WellFormed(fields) && n < |fields| && |src| == SlotCount(fields)
    requires Progress(fields, src, n, st)
    requires SlotOf(fields, n) < |src| == |st.members| && WrittenOnce(fields[n], src[SlotOf(fields, n)])
    requires SameValue(fields[n], Items(fields[n], src[SlotOf(fields, n)])[0], w)
    ensures Progress(fields, src, n + 1, AfterValue(fields, n, st, w))
  {
    hide SameValue, Present, DefaultedValue, RequiredIndex;
    var f, slot := fields[n], SlotOf(fields, n);
    ItemsOf(f, [w], StoredSize(f, st.members[slot]));
    ProgressStep(fields, src, n, st, AfterValue(fields, n, st, w));
  }

  lemma {:induction false} SingularFieldSurvives(fields: seq<Field>, src: seq<Member>, n: nat, st: State) returns (st': State)
    requires WellFormed(fields) && n < |fields| && |src| == SlotCount(fields)
    requires Progress(fields, src, n, st) && GoodMessage(fields, src)
    requires SlotOf(fields, n) < |src| && WrittenOnce(fields[n], src[SlotOf(fields, n)])
    ensures EncodeField(fields[n], src[SlotOf(fields, n)]).Some?
    ensures Run(fields, st, EncodeField(fields[n], src[SlotOf(fields, n)]).value) == Done(st', [], false)
    ensures Progress(fields, src, n + 1, st')
    decreases fields, 0, n
  {
    hide EncodeValue, DecodeValue, EncodeTagged, Run, SameValue, Survives, Present, DefaultedValue, GoodValue;
    hide Progress, GoodMessage, WellFormed, WellFormedField, StaleSelector, UnionStart, AfterValue, Items;
    SingularFieldReady(fields, src, n, st);
    var f, slot := fields[n], SlotOf(fields, n);
    var v, prior := Items(f, src[slot])[0], Prior(f, st.members[slot]);
    ValueSurvives(f, prior, v);
    RunValue(fields, n, st, v, prior);
    var w := DecodeValue(f, prior, EncodeValue(f, v).value).value;
    SingularFieldDone(fields, src, n, st, w);
    st' := AfterValue(fields, n, st, w);
  }

  lemma UnionStartDefaulted(f: Field, m: Member)
    requires WellFormedField(f) && f.htype.Oneof? && f.ltype.Submessage?
    ensures DefaultedValue(f, UnionStart(f, m))
  {
    SetDefaultsDefaults(f.ltype.fields, seq(SlotCount(f.ltype.fields), _ => Member(0, [])));
  }

  lemma {:induction false} ArrayFieldSurvives(fields: seq<Field>, src: seq<Member>, n: nat, st: State) returns (st': State)
    requires WellFormed(fields) && n < |fields| && |src| == SlotCount(fields)
    requires Progress(fields, src, n, st) && GoodMessage(fields, src)
    requires SlotOf(fields, n) < |src|
    requires !fields[n].ltype.Extension? && fields[n].htype.Repeated?
    requires Count(fields[n], src[SlotOf(fields, n)]) > 0
    ensures EncodeField(fields[n], src[SlotOf(fields, n)]).Some?
    ensures Run(fields, st, EncodeField(fields[n], src[SlotOf(fields, n)]).value) == Done(st', [], false)
    ensures Progress(fields, src, n + 1, st')
    decreases fields, 0, n
  {
    hide EncodeItems, EncodeTaggedItems, DecodePacked, EncodeTag, Delimited, Run, SameValue, GoodValue, DefaultedValue;
    SlotInRange(fields, n);
    var f, slot := fields[n], SlotOf(fields, n);
    var items, count := Items(f, src[slot]), Count(f, src[slot]);
    assert FieldAt(fields, src, n, st, n);
    assert GoodMember(f, src[slot]) && WellFormedField(f) && FieldPending(f, src[slot], st.members[slot]);
    var out;
    if f.Packable() {
      out := ItemsSurvive(f, items, Items(f, st.members[slot]), count);
      RunPacked(fields, n, st, EncodeItems(f, items, count).value);
    } else {
      out := TaggedItemsSurvive(fields, n, st, items, count);
    }
    st' := AfterEntries(fields, n, st, out, count);
    ItemsOf(f, out, st'.members[slot].size);
    ProgressStep(fields, src, n, st, st');
  }

  lemma AbsentFieldSkipped(fields: seq<Field>, src: seq<Member>, n: nat, st: State)
    requires WellFormed(fields) && n < |fields| && |src| == SlotCount(fields)
    requires Progress(fields, src, n, st) && SlotOf(fields, n) < |src|
    requires EncodeField(fields[n], src[SlotOf(fields, n)]) == Some([])
    requires var f, m := fields[n], src[SlotOf(fields, n)];
             f.ltype.Extension? ||
             match f.htype
             case Required => false
             case Optional => !Present(f, m)
             case Repeated => Count(f, m) == 0
             case Oneof => m.size != f.tag
    ensures Progress(fields, src, n + 1, st)
  {
    hide Present, EncodeField, DefaultedValue, SameValue;
    SlotInRange(fields, n);
    assert WellFormedField(fields[n]);
    assert FieldAt(fields, src, n, st, n);
    ProgressStep(fields, src, n, st, st);
  }

  lemma {:induction false} FieldSurvives(fields: seq<Field>, src: seq<Member>, n: nat, st: State) returns (st': State)
    requires WellFormed(fields) && n < |fields| && |src| == SlotCount(fields)
    requires Progress(fields, src, n, st) && GoodMessage(fields, src)
    requires SlotOf(fields, n) < |src|
    ensures EncodeField(fields[n], src[SlotOf(fields, n)]).Some?
    ensures Run(fields, st, EncodeField(fields[n], src[SlotOf(fields, n)]).value) == Done(st', [], false)
    ensures Progress(fields, src, n + 1, st')
    decreases fields, 0, n + 1
  {
    hide Progress, GoodMessage, EncodeTagged, EncodeTaggedItems, EncodeItems, Present, Run, WellFormed;
    var f, m := fields[n], src[SlotOf(fields, n)];
    if f.ltype.Extension? || (f.htype.Optional? && !Present(f, m)) || (f.htype.Repeated? && Count(f, m) == 0)
       || (f.htype.Oneof? && m.size != f.tag) {
      AbsentFieldSkipped(fields, src, n, st);
      assert |st.members| == SlotCount(fields) by { ProgressShape(fields, src, n, st); }
      RunNothing(fields, st);
      st' := st;
    } else if f.htype.Repeated? {
      st' := ArrayFieldSurvives(fields, src, n, st);
    } else {
      st' := SingularFieldSurvives(fields, src, n, st);
    }
  }

  lemma ProgressShape(fields: seq<Field>, src: seq<Member>, n: nat, st: State)
    requires |src| == SlotCount(fields) && Progress(fields, src, n, st)
    ensures |st.members| == |src|
  {
  }

  lemma {:induction false} FieldsSurvive(fields: seq<Field>, src: seq<Member>, dst: seq<Member>, n: nat) returns (st: State)
    requires WellFormed(fields) && |src| == |dst| == SlotCount(fields) && n <= |fields|
    requires GoodMessage(fields, src) && Defaulted(fields, dst)
    ensures EncodeFields(fields, src, n).Some?
    ensures Run(fields, Start(dst), EncodeFields(fields, src, n).value) == Done(st, [], false)
    ensures Progress(fields, src, n, st)
    decreases fields, 1, n
  {
    hide EncodeField, Run, GoodMessage, WellFormed, Progress, Defaulted, SlotOf;
    if n == 0 {
      st := Start(dst);
      RunNothing(fields, st);
      DefaultedIsPending(fields, src, dst);
    } else {
      var before := FieldsSurvive(fields, src, dst, n - 1);
      SlotInRange(fields, n - 1);
      st := FieldSurvives(fields, src, n - 1, before);
      RunConcat(fields, Start(dst), EncodeFields(fields, src, n - 1).value,
                EncodeField(fields[n - 1], src[SlotOf(fields, n - 1)]).value);
    }
  }

  lemma DefaultedIsPending(fields: seq<Field>, src: seq<Member>, dst: seq<Member>)
    requires WellFormed(fields) && |src| == |dst| == SlotCount(fields) && Defaulted(fields, dst)
    ensures Progress(fields, src, 0, Start(dst))
  {
    hide DefaultedValue, SlotOf;
    forall i | 0 <= i < |fields|
      ensures FieldAt(fields, src, 0, Start(dst), i)
    {
      SlotInRange(fields, i);
      assert DefaultedMember(fields[i], dst[SlotOf(fields, i)]);
      assert WellFormedField(fields[i]);
    }
  }

  // ----- The closing check and the whole message

  lemma ProgressCompletes(fields: seq<Field>, src: seq<Member>, st: State)
    requires WellFormed(fields) && |src| == SlotCount(fields)
    requires Progress(fields, src, |fields|, st) && GoodMessage(fields, src)
    ensures Complete(fields, st) && Rebuilt(fields, src, st.members)
  {
    hide GoodMember, SameValue, DefaultedMember, WellFormedField;
    forall k | 0 <= k < RequiredIndex(fields, |fields|) && k < PB_MAX_REQUIRED_FIELDS
      ensures k in st.seen
    {
      var i := RequiredFieldAt(fields, |fields|, k);
      assert RequiredSeen(fields, i, st);
    }
    forall i | 0 <= i < |fields|
      ensures (SlotInRange(fields, i);
               RebuiltMember(fields[i], src[SlotOf(fields, i)], st.members[SlotOf(fields, i)]))
    {
      SlotInRange(fields, i);
      var slot := SlotOf(fields, i);
      assert FieldAt(fields, src, |fields|, st, i);
      if fields[i].htype.Oneof? && src[slot].size != 0 {
        assert GoodSelector(fields, i, src[slot]);
        var j :| 0 <= j < |fields| && SlotOf(fields, j) == slot && fields[j].tag == src[slot].size
                 && fields[j].htype.Oneof?;
        assert FieldAt(fields, src, |fields|, st, j);
      }
    }
  }

  /** Decoding an encoding onto defaults succeeds, takes it all, and rebuilds the struct. */
  lemma {:induction false} MessageSurvives(fields: seq<Field>, src: seq<Member>, dst: seq<Member>)
    requires WellFormed(fields) && |src| == |dst| == SlotCount(fields)
    requires GoodMessage(fields, src) && Defaulted(fields, dst)
    ensures MessageRebuilt(fields, src, dst)
    decreases fields, 2, 0
  {
    hide EncodeFields, Run, Progress, GoodMessage, WellFormed, Rebuilt, Complete;
    var st := FieldsSurvive(fields, src, dst, |fields|);
    ProgressCompletes(fields, src, st);
  }

  /** The round trip from an arbitrary destination, which is first set to its defaults. */
  lemma DecodeInvertsEncode(fields: seq<Field>, src: seq<Member>, dst: seq<Member>)
    requires WellFormed(fields) && |src| == |dst| == SlotCount(fields)
    requires GoodMessage(fields, src)
    ensures EncodeMessage(fields, src).Some?
    ensures var r := Decode(fields, dst, EncodeMessage(fields, src).value);
            r.Ok? && r.rest == [] && Rebuilt(fields, src, r.value)
  {
    SetDefaultsDefaults(fields, dst);
    MessageSurvives(fields, src, SetDefaults(fields, dst));
  }
}
