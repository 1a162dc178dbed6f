/**
  A repeated scalar may come packed, in several packed chunks, one entry per tag, or
  in any mixture: the decode loop ends in the same state, or fails alike.
 */
module Packing {
  import opened Wrappers
  import opened Bits
  import opened Parsing
  import opened Wire
  import opened VarintLaws
  import opened Descriptor
  import opened Encoding
  import opened Decoding
  import opened Folding

  /** The bytes of one value of a scalar field and no more. */
  predicate OneValue(f: Field, bs: seq<byte>) {
    var r := DecodeValue(f, Int(0), bs);
    r.Ok? && r.rest == []
  }

  /** A stretch of a repeated field on the wire. */
  datatype Piece = Chunk(values: seq<seq<byte>>) | Single(value: seq<byte>)

  function Values(p: Piece): seq<seq<byte>> {
    match p
    case Chunk(values) => values
    case Single(value) => [value]
  }

  function AllValues(ps: seq<Piece>): seq<seq<byte>> {
    if ps == [] then [] else Values(ps[0]) + AllValues(ps[1..])
  }

  function Join(values: seq<seq<byte>>): seq<byte> {
    if values == [] then [] else values[0] + Join(values[1..])
  }

  function WirePiece(f: Field, p: Piece): seq<byte> {
    match p
    case Chunk(values) => EncodeTag(WtString, f.tag) + Delimited(Join(values))
    case Single(value) => FieldTag(f) + value
  }

  function WirePieces(f: Field, ps: seq<Piece>): seq<byte> {
    if ps == [] then [] else WirePiece(f, ps[0]) + WirePieces(f, ps[1..])
  }

  /** Every value stands alone, and every chunk has a length that can be announced. */
  predicate Sound(f: Field, p: Piece) {
    && (forall v :: v in Values(p) ==> OneValue(f, v))
    && (p.Chunk? ==> |Join(p.values)| < TWO_32)
  }

  lemma {:induction false} JoinConcat(a: seq<seq<byte>>, b: seq<seq<byte>>)
    ensures Join(a + b) == Join(a) + Join(b)
  {
    if a == [] {
      assert a + b == b;
    } else {
      assert (a + b)[1..] == a[1..] + b;
      JoinConcat(a[1..], b);
    }
  }

  lemma {:induction false} ValueAnywhere(f: Field, prior: Value, v: seq<byte>, more: seq<byte>)
    requires f.Packable() && OneValue(f, v)
    ensures v != []
    ensures DecodeValue(f, prior, v).Ok? && DecodeValue(f, prior, v).rest == []
    ensures DecodeValue(f, prior, v + more) == Ok(DecodeValue(f, prior, v).value, more)
  {
    assert DecodeValue(f, prior, v) == DecodeValue(f, Int(0), v) by {
      hide DecodeVarint, Checked, Take, FromLittleEndian, ClampSigned, ClampUnsigned;
    }
    hide DecodeValue;
    DecodeValueExtends(f, prior, v, more);
    assert [] + more == more;
  }

  /** Whole values fit into the array exactly when there is room for all of them. */
  lemma {:induction false} RoomForAll(f: Field, items: seq<Value>, count: nat, values: seq<seq<byte>>)
    requires f.Packable() && |items| == f.arraySize && forall v :: v in values ==> OneValue(f, v)
    ensures DecodePacked(f, items, count, Join(values)).Ok? <==> values == [] || count + |values| <= f.arraySize
    decreases |values|
  {
    hide DecodeValue, OneValue;
    if values != [] {
      ValueAnywhere(f, Int(0), values[0], Join(values[1..]));
      if count < f.arraySize {
        ValueAnywhere(f, items[count], values[0], Join(values[1..]));
        var w := DecodeValue(f, items[count], values[0]).value;
        RoomForAll(f, items[count := w], count + 1, values[1..]);
      }
    }
  }

  // ----- What the values of one field do to the loop's state

  function CountOf(f: Field, slot: nat, st: State): nat
    requires slot < |st.members|
  {
    if f.HasSize() then st.members[slot].size else st.fixedCount
  }

  function Absorb(fields: seq<Field>, i: nat, st: State, data: seq<byte>): Outcome
    requires i < |fields| && SlotOf(fields, i) < |st.members| && fields[i].htype.Repeated?
  {
    var f, slot := fields[i], SlotOf(fields, i);
    var noted := NoteField(fields, i, st);
    if noted.None? then Bad
    else
      var p := DecodePacked(f, Items(f, noted.value.members[slot]), CountOf(f, slot, noted.value), data);
      if p.Fail? then Bad else Done(Store(noted.value, f, slot, p.value.0, p.value.1), [], false)
  }

  /** The loop takes a field's tag and value, then goes on. */
  lemma RunOneTag(fields: seq<Field>, i: nat, st: State, wt: WireType, payload: seq<byte>)
    requires WellFormed(fields) && i < |fields| && !fields[i].ltype.Extension? && !wt.WtInvalid?
    requires |st.members| == SlotCount(fields)
    ensures var noted := NoteField(fields, i, st);
            Run(fields, st, EncodeTag(wt, fields[i].tag) + payload) ==
            if noted.None? || DecodeField(fields, i, wt, noted.value, payload).Fail? then Bad
            else
              var r := DecodeField(fields, i, wt, noted.value, payload);
              Run(fields, r.value, r.rest)
  {
    hide DecodeField, EncodeTag, DecodeTag, NoteField, FindTag;
    assert WellFormedField(fields[i]);
    DecodeTagInvertsEncode(wt, fields[i].tag, payload);
    FindTagUnique(fields, i);
  }

  lemma PieceAbsorbed(fields: seq<Field>, i: nat, st: State, p: Piece, more: seq<byte>)
    requires WellFormed(fields) && i < |fields| && |st.members| == SlotCount(fields)
    requires fields[i].htype.Repeated? && fields[i].Packable() && Sound(fields[i], p)
    requires SlotOf(fields, i) < |st.members|
    ensures var a := Absorb(fields, i, st, Join(Values(p)));
            Run(fields, st, WirePiece(fields[i], p) + more) == if a.Bad? then Bad else Run(fields, a.st, more)
  {
    hide DecodePacked, DecodeValue, EncodeTag, Delimited, TakeDelimited, Run, Items, SlotOf, OneValue, WellFormed;
    var f := fields[i];
    match p {
      case Chunk(values) =>
        TakeDelimitedInverse(Join(values), more);
        RunOneTag(fields, i, st, WtString, Delimited(Join(values)) + more);
        assert WirePiece(f, p) + more == EncodeTag(WtString, f.tag) + (Delimited(Join(values)) + more);
      case Single(v) =>
        assert v in Values(p);
        SingleAbsorbed(fields, i, st, v, more);
        RunOneTag(fields, i, st, WireTypeFor(f.ltype), v + more);
        assert WirePiece(f, p) + more == FieldTag(f) + (v + more);
        assert [v][1..] == [] && Join([v]) == v + Join([]) == v;
    }
  }

  lemma SingleAbsorbed(fields: seq<Field>, i: nat, st: State, v: seq<byte>, more: seq<byte>)
    requires WellFormed(fields) && i < |fields| && |st.members| == SlotCount(fields)
    requires fields[i].htype.Repeated? && fields[i].Packable() && OneValue(fields[i], v)
    requires SlotOf(fields, i) < |st.members|
    ensures var noted, a := NoteField(fields, i, st), Absorb(fields, i, st, v);
            if noted.None? then a.Bad?
            else
              var r := DecodeField(fields, i, WireTypeFor(fields[i].ltype), noted.value, v + more);
              if a.Bad? then r.Fail? else r == Ok(a.st, more)
  {
    hide DecodeValue, OneValue, FixedArrayIncomplete, RequiredIndex;
    var f, slot := fields[i], SlotOf(fields, i);
    var noted := NoteField(fields, i, st);
    if noted.Some? {
      var items, count := Items(f, noted.value.members[slot]), CountOf(f, slot, noted.value);
      ValueAnywhere(f, Int(0), v, more);
      if count < f.arraySize {
        ValueAnywhere(f, items[count], v, more);
        var w := DecodeValue(f, items[count], v).value;
        assert DecodePacked(f, items[count := w], count + 1, []) == Ok((items[count := w], count + 1), []);
        assert DecodePacked(f, items, count, v) == Ok((items[count := w], count + 1), []);
      } else {
        assert DecodePacked(f, items, count, v) == Fail;
      }
    }
  }

  /** Absorbing values in two goes is absorbing them at once. */
  lemma AbsorbConcat(fields: seq<Field>, i: nat, st: State, a: seq<seq<byte>>, b: seq<seq<byte>>)
    requires i < |fields| && SlotOf(fields, i) < |st.members| && fields[i].htype.Repeated? && fields[i].Packable()
    requires forall v :: v in a + b ==> OneValue(fields[i], v)
    ensures var first := Absorb(fields, i, st, Join(a));
            Absorb(fields, i, st, Join(a + b)) ==
            if first.Bad? then Bad else Absorb(fields, i, first.st, Join(b))
  {
    hide OneValue, SlotOf, Items, FixedArrayIncomplete, Join;
    var f, slot := fields[i], SlotOf(fields, i);
    JoinConcat(a, b);
    var noted := NoteField(fields, i, st);
    if noted.Some? {
      var items, count := Items(f, noted.value.members[slot]), CountOf(f, slot, noted.value);
      AbsorbedItems(f, items, count, a, b);
      hide DecodePacked;
      var p := DecodePacked(f, items, count, Join(a));
      if p.Ok? {
        var st' := Store(noted.value, f, slot, p.value.0, p.value.1);
        StoredItems(noted.value, f, slot, p.value.0, p.value.1);
        assert NoteField(fields, i, st') == Some(st');
        var q := DecodePacked(f, p.value.0, p.value.1, Join(b));
        if q.Ok? {
          StoreAgain(noted.value, f, slot, p.value.0, p.value.1, q.value.0, q.value.1);
        }
      }
    }
  }

  lemma AbsorbedItems(f: Field, items: seq<Value>, count: nat, a: seq<seq<byte>>, b: seq<seq<byte>>)
    requires f.Packable() && |items| == f.arraySize && forall v :: v in a + b ==> OneValue(f, v)
    ensures var p := DecodePacked(f, items, count, Join(a));
            DecodePacked(f, items, count, Join(a) + Join(b)) ==
            if p.Fail? then Fail else DecodePacked(f, p.value.0, p.value.1, Join(b))
  {
    hide DecodePacked, OneValue, Join;
    assert forall v :: v in a ==> v in a + b;
    RoomForAll(f, items, count, a);
    RoomForAll(f, items, count, a + b);
    JoinConcat(a, b);
    if DecodePacked(f, items, count, Join(a)).Ok? {
      DecodePackedConcat(f, items, count, Join(a), Join(b));
    }
  }

  lemma StoredItems(st: State, f: Field, slot: nat, items: seq<Value>, count: nat)
    requires slot < |st.members| && f.htype.Repeated? && |items| == f.arraySize
    ensures var st' := Store(st, f, slot, items, count);
            Items(f, st'.members[slot]) == items && CountOf(f, slot, st') == count
  {
  }

  lemma StoreAgain(st: State, f: Field, slot: nat, items: seq<Value>, count: nat, items': seq<Value>, count': nat)
    requires slot < |st.members|
    ensures Store(Store(st, f, slot, items, count), f, slot, items', count') == Store(st, f, slot, items', count')
  {
  }

  lemma {:induction false} PiecesAbsorbed(fields: seq<Field>, i: nat, st: State, ps: seq<Piece>)
    requires WellFormed(fields) && i < |fields| && |st.members| == SlotCount(fields)
    requires fields[i].htype.Repeated? && fields[i].Packable() && SlotOf(fields, i) < |st.members|
    requires ps != [] && forall p :: p in ps ==> Sound(fields[i], p)
    ensures Run(fields, st, WirePieces(fields[i], ps)) == Absorb(fields, i, st, Join(AllValues(ps)))
    decreases |ps|
  {
    hide Absorb, WirePiece, Join, Values, OneValue, WellFormed, SlotOf, SlotCount;
    var f, a, b := fields[i], Values(ps[0]), AllValues(ps[1..]);
    PieceAbsorbed(fields, i, st, ps[0], WirePieces(f, ps[1..]));
    SoundValues(f, ps);
    AbsorbConcat(fields, i, st, a, b);
    AbsorbShape(fields, i, st, Join(a));
    var first := Absorb(fields, i, st, Join(a));
    if |ps| > 1 {
      if first.Done? {
        PiecesAbsorbed(fields, i, first.st, ps[1..]);
      }
    } else {
      assert a + b == a;
      assert first.Done? ==> Run(fields, first.st, []) == Done(first.st, [], false);
    }
  }

  lemma AbsorbShape(fields: seq<Field>, i: nat, st: State, data: seq<byte>)
    requires i < |fields| && SlotOf(fields, i) < |st.members| && fields[i].htype.Repeated?
    ensures var a := Absorb(fields, i, st, data);
            a.Done? ==> |a.st.members| == |st.members| && a == Done(a.st, [], false)
  {
  }

  lemma {:induction false} SoundValues(f: Field, ps: seq<Piece>)
    requires forall p :: p in ps ==> Sound(f, p)
    ensures forall v :: v in AllValues(ps) ==> OneValue(f, v)
    decreases |ps|
  {
    hide OneValue;
    if ps != [] {
      assert Sound(f, ps[0]);
      SoundValues(f, ps[1..]);
    }
  }

  /** However a repeated scalar's values are cut into pieces, the decoder does the same with them. */
  lemma {:induction false} PackingIrrelevant(fields: seq<Field>, i: nat, st: State, ps: seq<Piece>, qs: seq<Piece>)
    requires WellFormed(fields) && i < |fields| && |st.members| == SlotCount(fields)
    requires fields[i].htype.Repeated? && fields[i].Packable()
    requires ps != [] && qs != [] && AllValues(ps) == AllValues(qs)
    requires forall p :: p in ps + qs ==> Sound(fields[i], p)
    ensures Run(fields, st, WirePieces(fields[i], ps)) == Run(fields, st, WirePieces(fields[i], qs))
  {
    hide Run, Absorb, Sound, WellFormed;
    SlotInRange(fields, i);
    assert forall p :: p in ps ==> p in ps + qs;
    PiecesAbsorbed(fields, i, st, ps);
    PiecesAbsorbed(fields, i, st, qs);
  }
}
