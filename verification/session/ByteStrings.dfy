/**
  The builder and the cursor that sessions are written and read with.  The builder leaves
  one byte for the length of an open element, and makes room for more when it is closed.
 */
module ByteStrings {
  import opened Wrappers
  import opened Bits
  import opened Parsing
  import opened Der

  function Zeros(n: nat): (bs: seq<byte>)
    ensures |bs| == n
  {
    seq(n, _ => 0)
  }

  class Builder {
    var buf: seq<byte>

    constructor ()
      ensures buf == []
    {
      buf := [];
    }

    /** CBB_add_asn1: a tag, and one byte for a length that is not known yet. */
    method Open(tag: byte) returns (offset: nat)
      modifies this
      ensures offset == |old(buf)| + 1 && buf == old(buf) + [tag, 0]
    {
      buf := buf + [tag, 0];
      offset := |buf| - 1;
    }

    method AddBytes(data: seq<byte>)
      modifies this
      ensures buf == old(buf) + data
    {
      buf := buf + data;
    }

    /** A number over the bytes at a place, from its last byte to its first; returns whether it fits. */
    method Overwrite(at: nat, width: nat, value: nat) returns (fits: bool)
      requires at + width <= |buf|
      modifies this
      ensures fits <==> value < Limit(width)
      ensures fits ==> buf == old(buf)[..at] + BigEndian(value, width) + old(buf)[at + width..]
    {
      ghost var front, back := buf[..at], buf[at + width..];
      var left: nat := value;
      var i: nat := width;
      ghost var written: seq<byte> := [];
      assert buf == front + buf[at..at + i] + written + back;
      while i > 0
        invariant 0 <= i <= width && at + i <= |buf|
        invariant left < Limit(i) <==> value < Limit(width)
        invariant BigEndian(left, i) + written == BigEndian(value, width)
        invariant buf == front + buf[at..at + i] + written + back
      {
        i := i - 1;
        var b: byte := left % 256;
        Patched(buf, front, i, b, written, back);
        buf := buf[at + i := b];
        assert BigEndian(left, i + 1) + written == BigEndian(left / 256, i) + ([b] + written);
        LimitStep(left, i);
        written := [b] + written;
        left := left / 256;
      }
      return left == 0;
    }

    lemma LimitStep(v: nat, i: nat)
      ensures v < Limit(i + 1) <==> v / 256 < Limit(i)
    {
    }

    lemma Patched(bs: seq<byte>, front: seq<byte>, i: nat, b: byte, written: seq<byte>, back: seq<byte>)
      requires |front| + i < |bs| && bs == front + bs[|front|..|front| + i + 1] + written + back
      ensures bs[|front| + i := b]
              == front + bs[|front| + i := b][|front|..|front| + i] + ([b] + written) + back
    {
    }

    /** CBB_flush: the length of what has been added since, in place, the contents moved along if it takes more. */
    method Close(offset: nat) returns (ok: bool)
      requires offset < |buf|
      modifies this
      ensures ok <==> |old(buf)| - offset - 1 <= LIMIT
      ensures ok ==> buf == old(buf)[..offset] + DerLength(|old(buf)| - offset - 1) + old(buf)[offset + 1..]
    {
      var size: nat := |buf| - offset - 1;
      var width: nat := 0;
      if size > LIMIT {
        return false;
      } else if size > 0xff_ffff {
        width := 4;
      } else if size > 0xffff {
        width := 3;
      } else if size > 0xff {
        width := 2;
      } else if size > 0x7f {
        width := 1;
      }
      var initial: byte := if width == 0 then size else 0x80 + width;
      var rest: nat := if width == 0 then 0 else size;
      Limits();
      hide Limit, BigEndian;
      Lengthened(buf[..offset], initial, BigEndian(rest, width), Zeros(width), buf[offset + 1..]);
      assert DerLength(size) == [initial] + BigEndian(rest, width);
      hide DerLength;
      buf := buf[..offset] + [initial] + Zeros(width) + buf[offset + 1..];
      ok := Overwrite(offset + 1, width, rest);
    }

    /** Room made behind the first byte of a length, and filled. */
    lemma Lengthened(front: seq<byte>, initial: byte, length: seq<byte>, room: seq<byte>, contents: seq<byte>)
      requires |room| == |length|
      ensures var bs, at := front + [initial] + room + contents, |front| + 1;
              && |bs| >= at + |room|
              && bs[..at] + length + bs[at + |room|..] == front + ([initial] + length) + contents
    {
    }

    method AddElement(tag: byte, contents: seq<byte>) returns (ok: bool)
      modifies this
      ensures ok <==> |contents| <= LIMIT
      ensures ok ==> buf == old(buf) + Element(tag, contents)
    {
      var offset := Open(tag);
      AddBytes(contents);
      ok := Close(offset);
      Opened(old(buf), tag, contents);
    }

    /** An element opened, filled and closed. */
    lemma Opened(before: seq<byte>, tag: byte, contents: seq<byte>)
      ensures var bs, offset := before + [tag, 0] + contents, |before| + 1;
              && bs[offset + 1..] == contents && |bs| - offset - 1 == |contents|
              && bs[..offset] + DerLength(|contents|) + contents == before + Element(tag, contents)
    {
      assert (before + [tag, 0] + contents)[..|before| + 1] == before + [tag];
    }

    /** The eight bytes of a value but for the leading zeros, and one zero before a high bit. */
    method AddInteger(v: nat)
      requires v < TWO_64
      modifies this
      ensures buf == old(buf) + IntegerBytes(v)
    {
      Limit8();
      hide Limit;
      var bytes := BigEndian(v, 8);
      ghost var before := buf;
      var started := false;
      for i := 0 to 8
        invariant started == (Stripped(bytes[..i]) != [])
        invariant buf == before + if started then Padded(Stripped(bytes[..i])) else []
      {
        var b := bytes[i];
        StrippedMore(bytes[..i], b);
        assert bytes[..i] + [b] == bytes[..i + 1];
        if !started {
          if b == 0 {
            continue;
          }
          if b >= 0x80 {
            AddBytes([0]);
          }
          started := true;
        }
        AddBytes([b]);
      }
      if !started {
        AddBytes([0]);
      }
      assert bytes[..8] == bytes;
      StrippedBigEndian(v, 8);
    }

    /** CBB_add_asn1_uint64 */
    method AddUint64(v: nat)
      requires v < TWO_64
      modifies this
      ensures buf == old(buf) + PutUint64(v)
    {
      hide IntegerBytes;
      var offset := Open(INTEGER);
      AddInteger(v);
      IntegerShort(v);
      Opened(old(buf), INTEGER, IntegerBytes(v));
      var ok := Close(offset);
    }

    method AddOctets(octets: seq<byte>) returns (ok: bool)
      modifies this
      ensures ok <==> |octets| <= LIMIT
      ensures ok ==> buf == old(buf) + Element(OCTETS, octets)
    {
      ok := AddElement(OCTETS, octets);
    }

    // ----- Fields with a number

    method AddField(n: nat, contents: seq<byte>) returns (ok: bool)
      requires n < 31
      modifies this
      ensures ok <==> |contents| <= LIMIT
      ensures ok ==> buf == old(buf) + PutOptional(n, Some(contents))
    {
      ok := AddElement(Context(n), contents);
    }

    method AddOctetsField(n: nat, octets: seq<byte>) returns (ok: bool)
      requires n < 31
      modifies this
      ensures ok ==> buf == old(buf) + PutOctets(n, Some(octets))
      ensures !ok ==> |PutOctets(n, Some(octets))| > LIMIT
    {
      hide DerLength;
      ghost var before := buf;
      var offset := Open(Context(n));
      ElementLength(OCTETS, octets);
      ok := AddOctets(octets);
      if !ok {
        return false;
      }
      Opened(before, Context(n), Element(OCTETS, octets));
      ok := Close(offset);
    }

    method AddUint64Field(n: nat, v: nat)
      requires n < 31 && v < TWO_64
      modifies this
      ensures buf == old(buf) + PutOptionalUint64(n, Some(v))
    {
      ghost var before := buf;
      var offset := Open(Context(n));
      AddUint64(v);
      Uint64Short(v);
      Opened(before, Context(n), PutUint64(v));
      var ok := Close(offset);
    }

    method AddBoolField(n: nat, b: bool)
      requires n < 31
      modifies this
      ensures buf == old(buf) + PutOptionalBool(n, Some(b))
    {
      ghost var before := buf;
      var offset := Open(Context(n));
      var contents := [if b then 0xff else 0];
      var ok := AddElement(BOOLEAN, contents);
      ElementLength(BOOLEAN, contents);
      Opened(before, Context(n), Element(BOOLEAN, contents));
      ok := Close(offset);
    }
  }

  /** Bytes from the first that is not zero. */
  function Stripped(bs: seq<byte>): seq<byte> {
    if bs == [] then [] else if bs[0] == 0 then Stripped(bs[1..]) else bs
  }

  lemma {:induction false} StrippedMore(bs: seq<byte>, b: byte)
    ensures Stripped(bs + [b]) ==
            if Stripped(bs) != [] then Stripped(bs) + [b] else if b == 0 then [] else [b]
    ensures Stripped(bs) != [] ==> Padded(Stripped(bs) + [b]) == Padded(Stripped(bs)) + [b]
  {
    if bs == [] {
      assert [] + [b] == [b] && [b][1..] == [];
    } else {
      assert (bs + [b])[1..] == bs[1..] + [b] && (bs + [b])[0] == bs[0];
      StrippedMore(bs[1..], b);
    }
  }

  lemma {:induction false} StrippedBigEndian(v: nat, width: nat)
    requires v < Limit(width)
    ensures Stripped(BigEndian(v, width)) == Significant(v)
  {
    if width > 0 {
      StrippedBigEndian(v / 256, width - 1);
      StrippedMore(BigEndian(v / 256, width - 1), v % 256);
    }
  }

  // ----- Reading

  class Cursor {
    var data: seq<byte>

    constructor (data: seq<byte>)
      ensures this.data == data
    {
      this.data := data;
    }

    /** Each get takes what it returns off the front; where there is no such thing it returns nothing. */
    method GetElement(tag: nat) returns (r: Option<seq<byte>>)
      modifies this
      ensures Got(GetAsn1(old(data), tag), r, data)
    {
      var got := GetAsn1(data, tag);
      if got.Fail? {
        return None;
      }
      data := got.rest;
      return Some(got.value);
    }

    method GetInteger() returns (r: Option<nat>)
      modifies this
      ensures Got(GetUint64(old(data)), r, data)
    {
      var contents := GetElement(TagOf(INTEGER));
      if contents.None? {
        return None;
      }
      r := IntegerValue(contents.value);
    }

    method GetField(n: nat) returns (r: Option<Option<seq<byte>>>)
      requires n < 31
      modifies this
      ensures Got(GetOptional(old(data), n), r, data)
    {
      if !Peek(data, TagOf(Context(n))) {
        return Some(None);
      }
      var contents := GetElement(TagOf(Context(n)));
      if contents.None? {
        return None;
      }
      return Some(contents);
    }

    method GetOctetsField(n: nat) returns (r: Option<Option<seq<byte>>>)
      requires n < 31
      modifies this
      ensures Got(GetOctets(old(data), n), r, data)
    {
      var field := GetField(n);
      if field.None? || field.value.None? {
        return field;
      }
      var child := new Cursor(field.value.value);
      var octets := child.GetElement(TagOf(OCTETS));
      if octets.None? || child.data != [] {
        return None;
      }
      return Some(octets);
    }

    method GetUint64Field(n: nat, default: nat) returns (r: Option<nat>)
      requires n < 31
      modifies this
      ensures Got(GetOptionalUint64(old(data), n, default), r, data)
    {
      var field := GetField(n);
      if field.None? {
        return None;
      }
      if field.value.None? {
        return Some(default);
      }
      var child := new Cursor(field.value.value);
      r := child.GetInteger();
      if r.Some? && child.data != [] {
        return None;
      }
    }

    method GetBoolField(n: nat, default: bool) returns (r: Option<bool>)
      requires n < 31
      modifies this
      ensures Got(GetOptionalBool(old(data), n, default), r, data)
    {
      var field := GetField(n);
      if field.None? {
        return None;
      }
      if field.value.None? {
        return Some(default);
      }
      var child := new Cursor(field.value.value);
      var b := child.GetElement(TagOf(BOOLEAN));
      if b.None? || |b.value| != 1 || child.data != [] {
        return None;
      }
      if b.value[0] == 0 {
        return Some(false);
      } else if b.value[0] == 0xff {
        return Some(true);
      }
      return None;
    }
  }

  /** A get returned what the parse says, and left the rest. */
  predicate Got<T(==)>(parsed: Parsed<T>, r: Option<T>, rest: seq<byte>) {
    if parsed.Ok? then r == Some(parsed.value) && rest == parsed.rest else r == None
  }
}
