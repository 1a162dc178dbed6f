/**
  The circular field iterator of pb_common.c: positions, data pointers and required
  field indices advance together, and a search from any position finds a field
  exactly when it is there.
 */
module FieldIterator {
  import opened Wrappers
  import opened Descriptor

  /** Bytes a field occupies in the struct. */
  function Extent(f: Field): nat {
    if f.htype.Repeated? then f.dataSize * f.arraySize else f.dataSize
  }

  /** Where field `i` lies, as a function of its position alone. */
  function DataAddress(fields: seq<Field>, base: int, i: nat): int
    requires i < |fields|
  {
    if i == 0 then base + fields[0].dataOffset
    else if JoinsUnion(fields[i - 1], fields[i]) then DataAddress(fields, base, i - 1)
    else DataAddress(fields, base, i - 1) + Extent(fields[i - 1]) + fields[i].dataOffset
  }

  function SizeAddress(fields: seq<Field>, base: int, i: nat): int
    requires i < |fields|
  {
    if i > 0 && JoinsUnion(fields[i - 1], fields[i]) then SizeAddress(fields, base, i - 1)
    else DataAddress(fields, base, i) + fields[i].sizeOffset
  }

  /** Every field occupies at least one byte. */
  predicate Occupied(fields: seq<Field>) {
    forall i :: 0 <= i < |fields| ==> Extent(fields[i]) > 0
  }

  lemma {:induction false} AddressesFollowSlots(fields: seq<Field>, base: int, i: nat, j: nat)
    requires Occupied(fields) && i <= j < |fields|
    ensures if SlotOf(fields, i) == SlotOf(fields, j)
            then DataAddress(fields, base, i) == DataAddress(fields, base, j)
            else DataAddress(fields, base, i) < DataAddress(fields, base, j)
    decreases j - i
  {
    if i < j {
      AddressesFollowSlots(fields, base, i, j - 1);
      SlotsIncrease(fields, i, j - 1);
    }
  }

  /** The iterator's data pointer tells exactly which member of the struct it is at. */
  lemma SameAddressIffSameSlot(fields: seq<Field>, base: int, i: nat, j: nat)
    requires Occupied(fields) && i < |fields| && j < |fields|
    ensures DataAddress(fields, base, i) == DataAddress(fields, base, j) <==> SlotOf(fields, i) == SlotOf(fields, j)
  {
    if i <= j {
      AddressesFollowSlots(fields, base, i, j);
    } else {
      AddressesFollowSlots(fields, base, j, i);
    }
  }

  predicate Matches(f: Field, tag: nat) { f.tag == tag && !f.ltype.Extension? }

  /** The first of `steps` positions from `from` on, going round, that has the tag. */
  function NextMatch(fields: seq<Field>, tag: nat, from: nat, steps: nat): (r: Option<nat>)
    requires from < |fields|
    ensures r.Some? ==> r.value < |fields| && Matches(fields[r.value], tag)
    decreases steps
  {
    if steps == 0 then None
    else if Matches(fields[from], tag) then Some(from)
    else NextMatch(fields, tag, if from + 1 == |fields| then 0 else from + 1, steps - 1)
  }

  /** How many steps lead from one position to another, going round. */
  function Distance(from: nat, to: nat, n: nat): nat
    requires from < n && to < n
  {
    if from <= to then to - from else to - from + n
  }

  lemma {:induction false} NoMatchWithin(fields: seq<Field>, tag: nat, from: nat, steps: nat, i: nat)
    requires from < |fields| && i < |fields| && Distance(from, i, |fields|) < steps
    requires NextMatch(fields, tag, from, steps).None?
    ensures !Matches(fields[i], tag)
    decreases steps
  {
    if i != from {
      NoMatchWithin(fields, tag, if from + 1 == |fields| then 0 else from + 1, steps - 1, i);
    }
  }

  /** With distinct tags it does not matter where the search starts. */
  lemma NextMatchIsFindTag(fields: seq<Field>, tag: nat, from: nat)
    requires DistinctTags(fields) && from < |fields|
    ensures NextMatch(fields, tag, from, |fields|) == FindTag(fields, tag)
  {
    var r := NextMatch(fields, tag, from, |fields|);
    var found := FindTag(fields, tag);
    if found.Some? && r.None? {
      NoMatchWithin(fields, tag, from, |fields|, found.value);
    }
  }

  class FieldIter {
    const start: seq<Field>
    const base: int
    var pos: nat
    var requiredFieldIndex: nat
    var pData: int
    var pSize: int

    /** Everything the iterator holds is a function of its position. */
    ghost predicate Valid()
      reads this
    {
      if start == [] then pos == 0 && requiredFieldIndex == 0
      else
        && pos < |start|
        && requiredFieldIndex == RequiredIndex(start, pos)
        && pData == DataAddress(start, base, pos)
        && pSize == SizeAddress(start, base, pos)
    }

    constructor (fields: seq<Field>, base: int)
      ensures Valid() && start == fields && this.base == base && pos == 0
    {
      start, this.base := fields, base;
      pos, requiredFieldIndex := 0, 0;
      pData := base + if fields == [] then 0 else fields[0].dataOffset;
      pSize := base + if fields == [] then 0 else fields[0].dataOffset + fields[0].sizeOffset;
    }

    method Begin() returns (more: bool)
      modifies this
      ensures Valid() && pos == 0
      ensures more <==> start != []
    {
      pos, requiredFieldIndex := 0, 0;
      pData := base + if start == [] then 0 else start[0].dataOffset;
      pSize := pData + if start == [] then 0 else start[0].sizeOffset;
      more := start != [];
    }

    /** One step forward; false after the last field, with the iterator back at the first. */
    method Next() returns (more: bool)
      requires Valid()
      modifies this
      ensures Valid()
      ensures more <==> old(pos) + 1 < |start|
      ensures pos == if more then old(pos) + 1 else 0
    {
      if start == [] {
        return false;
      }
      var prev := start[pos];
      pos := pos + 1;
      if pos == |start| {
        var _ := Begin();
        return false;
      }
      if JoinsUnion(prev, start[pos]) {
        return true;
      }
      var prevSize := prev.dataSize;
      if prev.htype.Repeated? {
        prevSize := prevSize * prev.arraySize;
      }
      if prev.htype.Required? {
        requiredFieldIndex := requiredFieldIndex + 1;
      }
      pData := pData + prevSize + start[pos].dataOffset;
      pSize := pData + start[pos].sizeOffset;
      return true;
    }

    /**
      Search for a tag, going round at most once.  On an empty table the iterator
      stands on the terminator, whose tag is zero, and a search for zero finds it.
     */
    method Find(tag: nat) returns (found: bool)
      requires Valid() && forall i :: 0 <= i < |start| ==> start[i].tag != 0
      modifies this
      ensures Valid()
      ensures start == [] ==> pos == old(pos) && (found <==> tag == 0)
      ensures start != [] ==>
                var r := NextMatch(start, tag, old(pos), |start|);
                && (found <==> r.Some?)
                && pos == if r.Some? then r.value else old(pos)
    {
      if start == [] {
        return tag == 0;
      }
      var first := pos;
      ghost var left := |start|;
      while true
        invariant Valid() && 0 < left <= |start|
        invariant NextMatch(start, tag, first, |start|) == NextMatch(start, tag, pos, left)
        invariant pos == if first + (|start| - left) < |start| then first + (|start| - left) else first - left
        decreases left
      {
        if start[pos].tag == tag && !start[pos].ltype.Extension? {
          return true;
        }
        var _ := Next();
        left := left - 1;
        if pos == first {
          return false;
        }
      }
    }
  }
}
