/**
  Decoding is a fold over the fields on the wire: a reader never looks past its
  value, so the loop over a ++ b is the loop over b from where a left it.  Unknown
  fields can therefore be inserted anywhere between fields, and a repeated scalar
  may be split into packed chunks or single entries at will.
 */
module Folding {
  import opened Bits
  import opened Parsing
  import opened Wire
  import opened VarintLaws
  import opened Descriptor
  import opened Decoding

  lemma {:induction false} DecodeValueExtends(f: Field, prior: Value, bs: seq<byte>, more: seq<byte>)
    requires DecodeValue(f, prior, bs).Ok?
    ensures var r := DecodeValue(f, prior, bs); DecodeValue(f, prior, bs + more) == Ok(r.value, r.rest + more)
  {
    hide DecodeVarint32, DecodeMessage, TakeDelimited, Take, ReadVarint, FromLittleEndian, ClampSigned, ClampUnsigned;
    match f.ltype
    case Varint => ReadVarintExtends(bs, 0, 0, more);
    case UVarint => ReadVarintExtends(bs, 0, 0, more);
    case SVarint => ReadVarintExtends(bs, 0, 0, more);
    case Fixed32 => TakeExtends(bs, 4, more);
    case Fixed64 => TakeExtends(bs, 8, more);
    case Submessage(fields) => TakeDelimitedExtends(bs, more);
    case Bytes => TakeAfterLength(bs, more);
    case String => TakeAfterLength(bs, more);
    case FixedLengthBytes => TakeAfterLength(bs, more);
  }

  lemma TakeAfterLength(bs: seq<byte>, more: seq<byte>)
    requires DecodeVarint32(bs).Ok?
    ensures var r := DecodeVarint32(bs);
            && DecodeVarint32(bs + more) == Ok(r.value, r.rest + more)
            && (Take(r.rest, r.value).Ok? ==>
                  var t := Take(r.rest, r.value);
                  Take(r.rest + more, r.value) == Ok(t.value, t.rest + more))
  {
    hide DecodeVarint32, Take;
    DecodeVarint32Extends(bs, more);
    var r := DecodeVarint32(bs);
    if Take(r.rest, r.value).Ok? {
      TakeExtends(r.rest, r.value, more);
    }
  }

  lemma DecodeFieldExtends(fields: seq<Field>, i: nat, wt: WireType, st: State, bs: seq<byte>, more: seq<byte>)
    requires i < |fields| && |st.members| == SlotCount(fields)
    requires DecodeField(fields, i, wt, st, bs).Ok?
    ensures var r := DecodeField(fields, i, wt, st, bs);
            DecodeField(fields, i, wt, st, bs + more) == Ok(r.value, r.rest + more)
  {
    hide DecodeValue, DecodePacked, TakeDelimited, Store, StaleSelector, UnionStart, Items, SlotOf;
    SlotInRange(fields, i);
    var f, slot := fields[i], SlotOf(fields, i);
    var m := st.members[slot];
    match f.htype {
      case Required => DecodeValueExtends(f, Items(f, m)[0], bs, more);
      case Optional => DecodeValueExtends(f, Items(f, m)[0], bs, more);
      case Oneof => DecodeValueExtends(f, UnionStart(f, m), bs, more);
      case Repeated =>
        if wt.WtString? && f.Packable() {
          TakeDelimitedExtends(bs, more);
        } else {
          var count := if f.HasSize() then m.size else st.fixedCount;
          DecodeValueExtends(f, Items(f, m)[count], bs, more);
        }
    }
  }

  lemma {:induction false} DecodeOneExtends(fields: seq<Field>, st: State, wt: WireType, tag: nat, bs: seq<byte>, more: seq<byte>)
    requires |st.members| == SlotCount(fields)
    requires DecodeOne(fields, st, wt, tag, bs).Ok?
    ensures var r := DecodeOne(fields, st, wt, tag, bs);
            DecodeOne(fields, st, wt, tag, bs + more) == Ok(r.value, r.rest + more)
  {
    hide DecodeField, SkipField, NoteField, FindTag;
    var found := FindTag(fields, tag);
    if found.None? {
      SkipFieldExtends(wt, bs, more);
    } else {
      DecodeFieldExtends(fields, found.value, wt, NoteField(fields, found.value, st).value, bs, more);
    }
  }

  /** Decoding a ++ b is decoding b onto what decoding a produced. */
  lemma {:induction false} RunConcat(fields: seq<Field>, st: State, a: seq<byte>, b: seq<byte>)
    requires |st.members| == SlotCount(fields)
    requires Run(fields, st, a).Done? && !Run(fields, st, a).stopped
    ensures Run(fields, st, a + b) == Run(fields, Run(fields, st, a).st, b)
    decreases |a|
  {
    hide DecodeOne, DecodeTag;
    if a == [] {
      assert a + b == b;
    } else {
      DecodeTagExtends(a, b);
      var t := DecodeTag(a);
      var r := DecodeOne(fields, st, t.wt, t.tag, t.rest);
      DecodeOneExtends(fields, st, t.wt, t.tag, t.rest, b);
      RunConcat(fields, r.value, r.rest, b);
    }
  }

  // ----- Merging

  /** No field whose arrival is checked when the message ends. */
  predicate Unchecked(fields: seq<Field>) {
    forall i :: 0 <= i < |fields| ==> !fields[i].htype.Required? && !fields[i].FixedCount()
  }

  lemma DecodeOneKeepsNotes(fields: seq<Field>, st: State, wt: WireType, tag: nat, bs: seq<byte>)
    requires |st.members| == SlotCount(fields) && Unchecked(fields)
    ensures var r := DecodeOne(fields, st, wt, tag, bs);
            r.Ok? ==> r.value == st.(members := r.value.members)
  {
    hide DecodeRepeated, DecodeSingular, SkipField, FindTag, Items, SlotOf;
  }

  lemma {:induction false} RunKeepsNotes(fields: seq<Field>, st: State, bs: seq<byte>)
    requires |st.members| == SlotCount(fields) && Unchecked(fields)
    ensures var r := Run(fields, st, bs);
            r.Done? ==> r.st == st.(members := r.st.members)
    decreases |bs|
  {
    hide DecodeOne, DecodeTag, Unchecked;
    if bs != [] && DecodeTag(bs).Tag? {
      var t := DecodeTag(bs);
      DecodeOneKeepsNotes(fields, st, t.wt, t.tag, t.rest);
      var r := DecodeOne(fields, st, t.wt, t.tag, t.rest);
      if r.Ok? {
        RunKeepsNotes(fields, r.value, r.rest);
      }
    }
  }

  /** Decoding stays inside the fields of `a`: none is cut short, and none has tag zero. */
  predicate WholeFields(fields: seq<Field>, members: seq<Member>, a: seq<byte>)
    requires |members| == SlotCount(fields)
  {
    var r := Run(fields, Start(members), a);
    r.Done? && !r.stopped
  }

  /** With nothing to check at the end, decoding a ++ b merges b into what a gave. */
  lemma DecodeConcat(fields: seq<Field>, dst: seq<Member>, a: seq<byte>, b: seq<byte>)
    requires |dst| == SlotCount(fields) && Unchecked(fields)
    requires WholeFields(fields, SetDefaults(fields, dst), a)
    ensures Decode(fields, dst, a).Ok?
    ensures Decode(fields, dst, a + b) == DecodeMessage(fields, Decode(fields, dst, a).value, b)
  {
    var start := SetDefaults(fields, dst);
    RunKeepsNotes(fields, Start(start), a);
    RequiredFree(fields, |fields|);
    hide Run, SetDefaults, Unchecked;
    RunConcat(fields, Start(start), a, b);
  }

  lemma {:induction false} RequiredFree(fields: seq<Field>, n: nat)
    requires n <= |fields| && Unchecked(fields)
    ensures RequiredIndex(fields, n) == 0
  {
    if n > 0 {
      RequiredFree(fields, n - 1);
    }
  }

  // ----- Unknown fields

  /** Some bytes form one well-formed field: a tag, and a value of its wire type, no more. */
  predicate OneField(tag: nat, bs: seq<byte>) {
    var t := DecodeTag(bs);
    t.Tag? && t.tag == tag && SkipField(t.wt, t.rest) == Ok((), [])
  }

  /** Inserting a field nobody knows between any two fields changes nothing. */
  lemma {:induction false} UnknownFieldIgnored(fields: seq<Field>, st: State, a: seq<byte>, tag: nat, unknown: seq<byte>, b: seq<byte>)
    requires |st.members| == SlotCount(fields)
    requires Run(fields, st, a).Done? && !Run(fields, st, a).stopped
    requires OneField(tag, unknown) && FindTag(fields, tag).None? && !(fields == [] && tag == 0)
    ensures Run(fields, st, a + unknown + b) == Run(fields, st, a + b)
  {
    var st' := Run(fields, st, a).st;
    UnknownFieldAlone(fields, st', tag, unknown);
    hide Run, DecodeTag, SkipField, FindTag;
    assert a + unknown + b == a + (unknown + b);
    RunConcat(fields, st, a, unknown + b);
    RunConcat(fields, st', unknown, b);
    RunConcat(fields, st, a, b);
  }

  lemma UnknownFieldAlone(fields: seq<Field>, st: State, tag: nat, unknown: seq<byte>)
    requires |st.members| == SlotCount(fields)
    requires OneField(tag, unknown) && FindTag(fields, tag).None? && !(fields == [] && tag == 0)
    ensures Run(fields, st, unknown) == Done(st, [], false)
  {
    hide DecodeTag, SkipField, FindTag;
  }

  /** So a receiver that does not know a field decodes the message as if it were not there. */
  lemma UnknownFieldsChangeNothing(fields: seq<Field>, dst: seq<Member>, a: seq<byte>, tag: nat, unknown: seq<byte>,
                                   b: seq<byte>)
    requires |dst| == SlotCount(fields) && WholeFields(fields, SetDefaults(fields, dst), a)
    requires OneField(tag, unknown) && FindTag(fields, tag).None? && !(fields == [] && tag == 0)
    ensures Decode(fields, dst, a + unknown + b) == Decode(fields, dst, a + b)
  {
    hide Run, OneField, FindTag, SetDefaults;
    UnknownFieldIgnored(fields, Start(SetDefaults(fields, dst)), a, tag, unknown, b);
  }

  // ----- Packed, split or single

  /** Packed data goes into the array chunk by chunk. */
  lemma {:induction false} DecodePackedConcat(f: Field, items: seq<Value>, count: nat, a: seq<byte>, b: seq<byte>)
    requires |items| == f.arraySize
    requires DecodePacked(f, items, count, a).Ok?
    ensures var p := DecodePacked(f, items, count, a).value;
            DecodePacked(f, items, count, a + b) == DecodePacked(f, p.0, p.1, b)
    decreases |a|
  {
    hide DecodeValue;
    if a == [] {
      assert a + b == b;
    } else {
      DecodeValueExtends(f, items[count], a, b);
      var r := DecodeValue(f, items[count], a);
      DecodePackedConcat(f, items[count := r.value], count + 1, r.rest, b);
    }
  }
}
