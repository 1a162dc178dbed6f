/**
  Message descriptors and message structs.  A descriptor is the field table a
  generated file holds, without its terminator; a struct is a sequence of members,
  one per storage location, so that all fields of one union share a member.
  Descriptors nest inductively and are therefore acyclic.
 */
module Descriptor {
  import opened Wrappers
  import opened Bits

  datatype LType =
    | Varint | UVarint | SVarint | Fixed32 | Fixed64
    | Bytes | String
    | Submessage(fields: seq<Field>)
    | Extension
    | FixedLengthBytes

  datatype HType = Required | Optional | Repeated | Oneof

  /**
    A row of the table, statically allocated.  `sizeOffset` is where the has-flag,
    count or union selector lies relative to the data; zero means there is none.
    `init` is the default value, when the table points at one.
   */
  datatype Field = Field(tag: nat, ltype: LType, htype: HType, dataOffset: nat, sizeOffset: int,
                         dataSize: nat, arraySize: nat, init: Option<Value>) {
    predicate HasSize() { sizeOffset != 0 }

    predicate Packable() {
      ltype.Varint? || ltype.UVarint? || ltype.SVarint? || ltype.Fixed32? || ltype.Fixed64?
    }

    /** A repeated field whose struct holds no count: every entry is always used. */
    predicate FixedCount() { htype.Repeated? && !HasSize() }

    /** Optional without a has-flag: a proto3 field, left out when zero. */
    predicate Singular() { htype.Optional? && !HasSize() }
  }

  /**
    What a storage location holds: a number, raw bytes, or a nested struct.  The raw
    bytes of a string are its whole buffer; those of a bytes field the bytes in use.
   */
  datatype Value = Int(n: int) | Blob(bytes: seq<byte>) | Msg(members: seq<Member>)

  /** A has-flag, count or selector, and the entries of the field's storage. */
  datatype Member = Member(size: nat, items: seq<Value>)

  // Widths of the 32-bit field build: pb_size_t and the header of a bytes array.
  const PB_SIZE_MAX: int := TWO_32 - 1
  const BYTES_HEADER: nat := 4
  const COUNT_BYTES: nat := 4
  const PB_MAX_REQUIRED_FIELDS: nat := 64

  /** The storage sizes an integer field may have. */
  predicate IntegerSize(n: nat) { n == 1 || n == 2 || n == 4 || n == 8 }

  // ----- Which field lives where

  /** The second of two union members: it lies where the first does. */
  predicate JoinsUnion(prev: Field, next: Field) {
    prev.htype.Oneof? && next.htype.Oneof? && next.dataOffset == PB_SIZE_MAX
  }

  /** The member that holds field `i`. */
  function SlotOf(fields: seq<Field>, i: nat): (slot: nat)
    requires i < |fields|
    ensures slot <= i
  {
    if i == 0 then 0
    else if JoinsUnion(fields[i - 1], fields[i]) then SlotOf(fields, i - 1)
    else SlotOf(fields, i - 1) + 1
  }

  function SlotCount(fields: seq<Field>): nat {
    if fields == [] then 0 else SlotOf(fields, |fields| - 1) + 1
  }

  lemma {:induction false} SlotsIncrease(fields: seq<Field>, i: nat, j: nat)
    requires i <= j < |fields|
    ensures SlotOf(fields, i) <= SlotOf(fields, j)
    decreases j - i
  {
    if i < j {
      SlotsIncrease(fields, i, j - 1);
    }
  }

  lemma SlotInRange(fields: seq<Field>, i: nat)
    requires i < |fields|
    ensures SlotOf(fields, i) < SlotCount(fields)
  {
    SlotsIncrease(fields, i, |fields| - 1);
  }

  /** Two different fields share a member only inside a union. */
  lemma {:induction false} SharedSlotIsUnion(fields: seq<Field>, i: nat, j: nat)
    requires i < j < |fields| && SlotOf(fields, i) == SlotOf(fields, j)
    ensures fields[i].htype.Oneof? && fields[j].htype.Oneof?
    decreases j - i
  {
    SlotsIncrease(fields, i, j - 1);
    if i < j - 1 {
      SharedSlotIsUnion(fields, i, j - 1);
    }
  }

  // ----- Descriptors as the generator emits them

  predicate DistinctTags(fields: seq<Field>) {
    forall i, j :: 0 <= i < j < |fields| ==> fields[i].tag != fields[j].tag
  }

  /**
    Nonzero, distinct field numbers that fit a 32-bit tag, at every level, and no
    fixed-count array below a proto3 submessage, whose default check would take the
    array's own first bytes for its count.
   */
  predicate WellFormed(fields: seq<Field>) {
    && DistinctTags(fields)
    && forall i :: 0 <= i < |fields| ==> WellFormedField(fields[i])
  }

  predicate WellFormedField(f: Field) {
    && 0 < f.tag < 0x2000_0000
    && f.dataSize <= PB_SIZE_MAX && f.arraySize <= PB_SIZE_MAX
    && (f.htype.Oneof? ==> f.HasSize())
    && (f.htype.Required? ==> !f.HasSize())
    && (f.ltype.Extension? ==> f.htype.Optional?)
    && (f.ltype.Submessage? ==>
          && WellFormed(f.ltype.fields)
          && (f.Singular() ==> NoFixedCountBelow(f.ltype.fields)))
  }

  /** No fixed-count array among the fields a proto3 default check visits. */
  predicate NoFixedCountBelow(fields: seq<Field>) {
    forall i :: 0 <= i < |fields| ==> NoFixedCountAt(fields[i])
  }

  predicate NoFixedCountAt(f: Field) {
    && !f.FixedCount()
    && (f.Singular() && f.ltype.Submessage? ==> NoFixedCountBelow(f.ltype.fields))
  }

  // ----- Reading storage

  /** The entries of a field's storage; storage of another shape reads as zeros. */
  function Items(f: Field, m: Member): (items: seq<Value>)
    ensures |items| == if f.htype.Repeated? then f.arraySize else 1
  {
    var n := if f.htype.Repeated? then f.arraySize else 1;
    if |m.items| == n then m.items else seq(n, _ => Int(0))
  }

  function Members(fields: seq<Field>, v: Value): (members: seq<Member>)
    ensures |members| == SlotCount(fields)
  {
    if v.Msg? && |v.members| == SlotCount(fields) then v.members
    else seq(SlotCount(fields), _ => Member(0, []))
  }

  function Number(v: Value): int { if v.Int? then v.n else 0 }

  /** The buffer of a string or fixed-length field. */
  function Buffer(f: Field, v: Value): (buffer: seq<byte>)
    ensures |buffer| == f.dataSize
  {
    if v.Blob? && |v.bytes| == f.dataSize then v.bytes else seq(f.dataSize, _ => 0)
  }

  /** The bytes in use of a bytes field. */
  function BytesInUse(v: Value): seq<byte> { if v.Blob? then v.bytes else [] }

  /** The length of the string in a buffer: up to its first zero, or all of it. */
  function StringLength(buffer: seq<byte>): (n: nat)
    ensures n <= |buffer|
    ensures forall i :: 0 <= i < n ==> buffer[i] != 0
    ensures n < |buffer| ==> buffer[n] == 0
  {
    if buffer == [] || buffer[0] == 0 then 0 else 1 + StringLength(buffer[1..])
  }

  // ----- Required fields

  /** How many fields before position `i` are required. */
  function RequiredIndex(fields: seq<Field>, i: nat): (n: nat)
    requires i <= |fields|
    ensures n <= i
  {
    if i == 0 then 0
    else RequiredIndex(fields, i - 1) + if fields[i - 1].htype.Required? then 1 else 0
  }

  lemma {:induction false} RequiredIndexGrows(fields: seq<Field>, i: nat, n: nat)
    requires i < n <= |fields| && fields[i].htype.Required?
    ensures RequiredIndex(fields, i) < RequiredIndex(fields, n)
    decreases n
  {
    if i + 1 < n {
      RequiredIndexGrows(fields, i, n - 1);
    }
  }

  lemma {:induction false} RequiredFieldAt(fields: seq<Field>, n: nat, k: nat) returns (i: nat)
    requires n <= |fields| && k < RequiredIndex(fields, n)
    ensures i < n && fields[i].htype.Required? && RequiredIndex(fields, i) == k
  {
    if k < RequiredIndex(fields, n - 1) {
      i := RequiredFieldAt(fields, n - 1, k);
    } else {
      i := n - 1;
    }
  }

  /** The field with a tag; extension placeholders never match. */
  function FindTag(fields: seq<Field>, tag: nat): (r: Option<nat>)
    ensures r.Some? ==> r.value < |fields| && fields[r.value].tag == tag && !fields[r.value].ltype.Extension?
    ensures r.None? ==> forall i :: 0 <= i < |fields| ==> fields[i].tag != tag || fields[i].ltype.Extension?
  {
    if fields == [] then None
    else
      var last := |fields| - 1;
      var before := FindTag(fields[..last], tag);
      if before.Some? then before
      else if fields[last].tag == tag && !fields[last].ltype.Extension? then Some(last)
      else None
  }

  lemma FindTagUnique(fields: seq<Field>, i: nat)
    requires DistinctTags(fields) && i < |fields| && !fields[i].ltype.Extension?
    ensures FindTag(fields, fields[i].tag) == Some(i)
  {
  }
}
