/**
  DER as the byte-string library reads and writes it: tags, lengths (section 8.1.3 of
  ITU-T X.690), integers, and elements that may be absent.  What is read back is what was
  written, and lengths and integers have one form only.
 */
module Der {
  import opened Wrappers
  import opened Bits
  import opened Parsing

  const LIMIT: nat := 0xffff_fffe

  // ----- Lengths

  /** How many bytes a length takes behind the first one; none below 128. */
  function LengthWidth(n: nat): nat {
    if n > 0xff_ffff then 4 else if n > 0xffff then 3 else if n > 0xff then 2 else if n > 0x7f then 1 else 0
  }

  function DerLength(n: nat): (bs: seq<byte>)
    ensures |bs| == 1 + LengthWidth(n)
  {
    if n <= 0x7f then [n] else [0x80 + LengthWidth(n)] + BigEndian(n, LengthWidth(n))
  }

  function GetLength(bs: seq<byte>): (r: Parsed<nat>)
    ensures r.Ok? ==> |r.rest| < |bs| && r.rest == bs[|bs| - |r.rest|..]
  {
    if bs == [] then Fail
    else if bs[0] < 0x80 then Ok(bs[0], bs[1..])
    else
      var width := bs[0] - 0x80;
      if width == 0 || width > 4 then Fail
      else
        var (n, rest) :- GetUint(bs[1..], width);
        // The form must be the shortest.
        if n < 128 || n / Limit(width - 1) == 0 then Fail else Ok(n, rest)
  }

  lemma LengthWritten(n: nat, rest: seq<byte>)
    requires n < TWO_32
    ensures GetLength(DerLength(n) + rest) == Ok(n, rest)
  {
    Limits();
    hide Limit, BigEndian, FromBigEndian, GetUint;
    if n > 0x7f {
      var width := LengthWidth(n);
      GetUintInverse(n, width, rest);
      assert (DerLength(n) + rest)[1..] == BigEndian(n, width) + rest;
    }
  }

  /** Only one width is neither too short nor too long. */
  lemma WidthOf(n: nat, width: nat)
    requires 1 <= width <= 4 && 128 <= n < Limit(width) && n / Limit(width - 1) != 0
    ensures width == LengthWidth(n)
  {
    Limits();
    hide Limit;
    match width {
      case 1 =>
      case 2 =>
      case 3 =>
      case _ =>
    }
  }

  /** And nothing else is read as a length. */
  lemma LengthCanonical(bs: seq<byte>)
    requires GetLength(bs).Ok?
    ensures bs == DerLength(GetLength(bs).value) + GetLength(bs).rest && GetLength(bs).value < TWO_32
  {
    Limits();
    hide Limit, FromBigEndian, BigEndian;
    if bs[0] >= 0x80 {
      var width, n := bs[0] - 0x80, GetLength(bs).value;
      FromBigEndianInverse(bs[1..][..width]);
      WidthOf(n, width);
      assert bs == [bs[0]] + bs[1..][..width] + bs[1..][width..];
    }
  }

  // ----- Tags

  /** The value of a tag of one byte: class and form above, number below. */
  function TagOf(b: byte): nat { b / 32 * 0x2000_0000 + b % 32 }

  /** A tag number in base 128, big end first and as short as can be. */
  function GetBase128(bs: seq<byte>, v: nat): (r: Parsed<nat>)
    ensures r.Ok? ==> |r.rest| < |bs| && r.rest == bs[|bs| - |r.rest|..]
    decreases |bs|
  {
    if bs == [] || v >= 0x0200_0000_0000_0000 || (v == 0 && bs[0] == 0x80) then Fail
    else
      var v' := v * 128 + bs[0] % 128;
      if bs[0] < 0x80 then Ok(v', bs[1..]) else GetBase128(bs[1..], v')
  }

  function GetTag(bs: seq<byte>): (r: Parsed<nat>)
    ensures r.Ok? ==> |r.rest| < |bs| && r.rest == bs[|bs| - |r.rest|..]
  {
    if bs == [] then Fail
    else if bs[0] % 32 != 31 then Ok(TagOf(bs[0]), bs[1..])
    else
      var (v, rest) :- GetBase128(bs[1..], 0);
      if v > 0x1fff_ffff || v < 31 then Fail else Ok(bs[0] / 32 * 0x2000_0000 + v, rest)
  }

  // ----- Elements

  function Element(tag: byte, contents: seq<byte>): (bs: seq<byte>)
    ensures bs != [] && bs[0] == tag && |bs| > |contents|
  {
    [tag] + DerLength(|contents|) + contents
  }

  /** A tag and the contents behind it. */
  function GetAny(bs: seq<byte>): (r: Parsed<(nat, seq<byte>)>)
    ensures r.Ok? ==> |r.rest| < |bs| && r.rest == bs[|bs| - |r.rest|..]
  {
    var (tag, bs') :- GetTag(bs);
    var (len, bs'') :- GetLength(bs');
    var (contents, rest) :- Take(bs'', len);
    Ok((tag, contents), rest)
  }

  function GetAsn1(bs: seq<byte>, tag: nat): (r: Parsed<seq<byte>>)
    ensures r.Ok? ==> |r.rest| < |bs|
  {
    var (found, rest) :- GetAny(bs);
    if found.0 != tag then Fail else Ok(found.1, rest)
  }

  /** A whole element, header and all. */
  function GetAnyElement(bs: seq<byte>): (r: Parsed<seq<byte>>)
    ensures r.Ok? ==> r.value != [] && |r.rest| < |bs| && bs == r.value + r.rest
  {
    var (_, rest) :- GetAny(bs);
    Take(bs, |bs| - |rest|)
  }

  predicate Peek(bs: seq<byte>, tag: nat) {
    bs != [] && GetTag(bs).Ok? && GetTag(bs).value == tag
  }

  lemma ElementRead(tag: byte, contents: seq<byte>, rest: seq<byte>)
    requires tag % 32 != 31 && |contents| < TWO_32
    ensures GetAny(Element(tag, contents) + rest) == Ok((TagOf(tag), contents), rest)
    ensures GetAsn1(Element(tag, contents) + rest, TagOf(tag)) == Ok(contents, rest)
    ensures Peek(Element(tag, contents) + rest, TagOf(tag))
  {
    hide DerLength, GetLength;
    var bs := Element(tag, contents) + rest;
    assert bs[1..] == DerLength(|contents|) + (contents + rest);
    LengthWritten(|contents|, contents + rest);
    TakeInverse(contents, rest);
  }

  /** More behind an element does not change what is read. */
  lemma {:induction false} AnyThenMore(bs: seq<byte>, more: seq<byte>)
    requires GetAny(bs).Ok?
    ensures GetAny(bs + more) == Ok(GetAny(bs).value, GetAny(bs).rest + more)
  {
    hide GetTag, GetLength;
    TagThenMore(bs, more);
    var bs' := GetTag(bs).rest;
    LengthThenMore(bs', more);
    var len, bs'' := GetLength(bs').value, GetLength(bs').rest;
    assert (bs'' + more)[..len] == bs''[..len] && (bs'' + more)[len..] == bs''[len..] + more;
  }

  lemma {:induction false} Base128ThenMore(bs: seq<byte>, v: nat, more: seq<byte>)
    requires GetBase128(bs, v).Ok?
    ensures GetBase128(bs + more, v) == Ok(GetBase128(bs, v).value, GetBase128(bs, v).rest + more)
    decreases |bs|
  {
    assert (bs + more)[1..] == bs[1..] + more && (bs + more)[0] == bs[0];
    if bs[0] >= 0x80 {
      Base128ThenMore(bs[1..], v * 128 + bs[0] % 128, more);
    }
  }

  lemma TagThenMore(bs: seq<byte>, more: seq<byte>)
    requires GetTag(bs).Ok?
    ensures GetTag(bs + more) == Ok(GetTag(bs).value, GetTag(bs).rest + more)
  {
    hide GetBase128;
    assert (bs + more)[1..] == bs[1..] + more && (bs + more)[0] == bs[0];
    if bs[0] % 32 == 31 {
      Base128ThenMore(bs[1..], 0, more);
    }
  }

  lemma LengthThenMore(bs: seq<byte>, more: seq<byte>)
    requires GetLength(bs).Ok?
    ensures GetLength(bs + more) == Ok(GetLength(bs).value, GetLength(bs).rest + more)
  {
    hide Limit, FromBigEndian;
    assert (bs + more)[1..] == bs[1..] + more && (bs + more)[0] == bs[0];
    if bs[0] >= 0x80 {
      var width := bs[0] - 0x80;
      assert (bs[1..] + more)[..width] == bs[1..][..width];
      assert (bs[1..] + more)[width..] == bs[1..][width..] + more;
    }
  }

  // ----- Integers

  const INTEGER: byte := 2
  const BOOLEAN: byte := 1
  const OCTETS: byte := 4
  const SEQUENCE: byte := 0x30

  /** The bytes of a value from its first that is not zero. */
  function Significant(v: nat): (bs: seq<byte>)
    ensures v > 0 ==> bs != [] && bs[0] > 0
  {
    if v == 0 then [] else Significant(v / 256) + [v % 256]
  }

  /** A leading zero keeps a value from reading as a negative one; zero itself is one byte. */
  function Padded(bs: seq<byte>): seq<byte> { if bs == [] || bs[0] >= 0x80 then [0] + bs else bs }

  function IntegerBytes(v: nat): seq<byte> { Padded(Significant(v)) }

  /** Shifting in byte after byte, until a bit would be lost. */
  function Accumulate(v: nat, bs: seq<byte>): Option<nat>
    decreases |bs|
  {
    if bs == [] then Some(v)
    else if v >= 0x0100_0000_0000_0000 then None
    else Accumulate(v * 256 + bs[0], bs[1..])
  }

  function IntegerValue(bs: seq<byte>): Option<nat> {
    if bs == [] || bs[0] >= 0x80 || (bs[0] == 0 && |bs| > 1 && bs[1] < 0x80) then None
    else Accumulate(0, bs)
  }

  lemma {:induction false} AccumulateLast(v: nat, bs: seq<byte>, b: byte)
    ensures Accumulate(v, bs + [b]) ==
            match Accumulate(v, bs)
            case None => None
            case Some(x) => if x >= 0x0100_0000_0000_0000 then None else Some(x * 256 + b)
    decreases |bs|
  {
    if bs == [] {
      assert Accumulate(v * 256 + b, [b][1..]) == Some(v * 256 + b);
    } else {
      assert (bs + [b])[1..] == bs[1..] + [b] && (bs + [b])[0] == bs[0];
      if v < 0x0100_0000_0000_0000 {
        AccumulateLast(v * 256 + bs[0], bs[1..], b);
      }
    }
  }

  lemma {:induction false} SignificantRead(v: nat)
    requires v < TWO_64
    ensures Accumulate(0, Significant(v)) == Some(v)
  {
    if v > 0 {
      SignificantRead(v / 256);
      AccumulateLast(0, Significant(v / 256), v % 256);
    }
  }

  lemma IntegerWritten(v: nat)
    requires v < TWO_64
    ensures IntegerValue(IntegerBytes(v)) == Some(v)
  {
    SignificantRead(v);
    var bs := Significant(v);
    if bs == [] || bs[0] >= 0x80 {
      assert ([0] + bs)[1..] == bs;
      assert Accumulate(0, [0] + bs) == Accumulate(0, bs);
    }
  }

  lemma {:induction false} AccumulateCanonical(v: nat, bs: seq<byte>)
    requires v > 0 && Accumulate(v, bs).Some?
    ensures Significant(Accumulate(v, bs).value) == Significant(v) + bs
    decreases |bs|
  {
    if bs == [] {
      assert Significant(v) + [] == Significant(v);
    } else {
      var v' := v * 256 + bs[0];
      AccumulateCanonical(v', bs[1..]);
      assert v' / 256 == v && v' % 256 == bs[0];
      assert Significant(v) + [bs[0]] + bs[1..] == Significant(v) + bs;
    }
  }

  /** An integer has one form: what reads as a value is what the value is written as. */
  lemma {:induction false} IntegerCanonical(bs: seq<byte>)
    requires IntegerValue(bs).Some?
    ensures bs == IntegerBytes(IntegerValue(bs).value)
  {
    if bs[0] > 0 {
      AccumulateCanonical(bs[0], bs[1..]);
      SmallSignificant(bs[0]);
    } else if |bs| > 1 {
      assert Accumulate(0, bs) == Accumulate(0, bs[1..]) == Accumulate(bs[1], bs[1..][1..]);
      AccumulateCanonical(bs[1], bs[1..][1..]);
      SmallSignificant(bs[1]);
      assert bs == [0] + ([bs[1]] + bs[1..][1..]);
    } else {
      assert bs[1..] == [] && Accumulate(0, bs) == Accumulate(0, bs[1..]) == Some(0);
      assert bs == [0] + [];
    }
  }

  lemma SmallSignificant(b: byte)
    requires b > 0
    ensures Significant(b) == [b]
  {
    assert Significant(b / 256) == [];
  }

  // ----- Typed elements

  function PutUint64(v: nat): seq<byte> { Element(INTEGER, IntegerBytes(v)) }

  function GetUint64(bs: seq<byte>): (r: Parsed<nat>) {
    var (contents, rest) :- GetAsn1(bs, TagOf(INTEGER));
    var v := IntegerValue(contents);
    if v.None? then Fail else Ok(v.value, rest)
  }

  lemma {:induction false} SignificantShort(v: nat, width: nat)
    requires v < Limit(width)
    ensures |Significant(v)| <= width
  {
    if v > 0 {
      SignificantShort(v / 256, width - 1);
    }
  }

  lemma Limit8()
    ensures Limit(8) == TWO_64
  {
    Limits();
    assert Limit(5) == 256 * Limit(4) && Limit(6) == 256 * Limit(5) && Limit(7) == 256 * Limit(6);
  }

  lemma IntegerShort(v: nat)
    requires v < TWO_64
    ensures |IntegerBytes(v)| <= 9
  {
    Limit8();
    SignificantShort(v, 8);
  }

  lemma Uint64Read(v: nat, rest: seq<byte>)
    requires v < TWO_64
    ensures GetUint64(PutUint64(v) + rest) == Ok(v, rest)
  {
    hide IntegerBytes, IntegerValue, Element, GetAsn1;
    IntegerWritten(v);
    IntegerShort(v);
    ElementRead(INTEGER, IntegerBytes(v), rest);
  }

  // ----- Elements that may be absent

  /** The tag byte of a context-specific, constructed element. */
  function Context(n: nat): byte
    requires n < 31
  {
    0xa0 + n
  }

  /** Nothing, or the element with this number first. */
  predicate Leads(bs: seq<byte>, n: nat)
    requires n < 31
  {
    bs == [] || bs[0] == Context(n)
  }

  function PutOptional(n: nat, contents: Option<seq<byte>>): (bs: seq<byte>)
    requires n < 31
    ensures Leads(bs, n)
    ensures contents.Some? ==> |bs| > |contents.value|
  {
    if contents.None? then [] else Element(Context(n), contents.value)
  }

  function GetOptional(bs: seq<byte>, n: nat): (r: Parsed<Option<seq<byte>>>)
    requires n < 31
  {
    if Peek(bs, TagOf(Context(n))) then
      var (contents, rest) :- GetAsn1(bs, TagOf(Context(n)));
      Ok(Some(contents), rest)
    else Ok(None, bs)
  }

  /** Nothing follows, or an element with a higher number. */
  predicate Above(bs: seq<byte>, n: nat) { bs == [] || 0xa0 + n < bs[0] < 0xa0 + 31 }

  predicate Fits(contents: Option<seq<byte>>) { contents.Some? ==> |contents.value| < TWO_32 }

  lemma OptionalRead(n: nat, contents: Option<seq<byte>>, more: seq<byte>)
    requires n < 31 && Above(more, n) && Fits(contents)
    ensures GetOptional(PutOptional(n, contents) + more, n) == Ok(contents, more)
  {
    hide Element, GetAsn1, Peek;
    if contents.Some? {
      ElementRead(Context(n), contents.value, more);
    } else {
      assert [] + more == more;
      HigherTag(n, more);
    }
  }

  lemma HigherTag(n: nat, more: seq<byte>)
    requires n < 31 && Above(more, n)
    ensures !Peek(more, TagOf(Context(n)))
  {
    hide GetBase128;
  }

  /** An element, if it is there, with one number stands above the lower ones. */
  lemma AboveBefore(n: nat, m: nat, bs: seq<byte>, more: seq<byte>)
    requires n < m < 31 && Above(more, m) && Leads(bs, m)
    ensures Above(bs + more, n)
  {
    assert bs == [] ==> bs + more == more;
  }

  /** An octet string, and nothing else, in a context-specific element. */
  function GetOctets(bs: seq<byte>, n: nat): (r: Parsed<Option<seq<byte>>>)
    requires n < 31
  {
    var (child, rest) :- GetOptional(bs, n);
    if child.None? then Ok(None, rest)
    else
      var (octets, end) :- GetAsn1(child.value, TagOf(OCTETS));
      if end != [] then Fail else Ok(Some(octets), rest)
  }

  function PutOctets(n: nat, octets: Option<seq<byte>>): (bs: seq<byte>)
    requires n < 31
    ensures Leads(bs, n)
  {
    PutOptional(n, if octets.None? then None else Some(Element(OCTETS, octets.value)))
  }

  function GetOptionalUint64(bs: seq<byte>, n: nat, default: nat): (r: Parsed<nat>)
    requires n < 31
  {
    var (child, rest) :- GetOptional(bs, n);
    if child.None? then Ok(default, rest)
    else
      var (v, end) :- GetUint64(child.value);
      if end != [] then Fail else Ok(v, rest)
  }

  function PutOptionalUint64(n: nat, v: Option<nat>): (bs: seq<byte>)
    requires n < 31
    ensures Leads(bs, n)
  {
    PutOptional(n, if v.None? then None else Some(PutUint64(v.value)))
  }

  function GetOptionalBool(bs: seq<byte>, n: nat, default: bool): (r: Parsed<bool>)
    requires n < 31
  {
    var (child, rest) :- GetOptional(bs, n);
    if child.None? then Ok(default, rest)
    else
      var (b, end) :- GetAsn1(child.value, TagOf(BOOLEAN));
      if |b| != 1 || end != [] then Fail
      else if b[0] == 0 then Ok(false, rest)
      else if b[0] == 0xff then Ok(true, rest)
      else Fail
  }

  function PutOptionalBool(n: nat, b: Option<bool>): (bs: seq<byte>)
    requires n < 31
    ensures Leads(bs, n)
  {
    PutOptional(n, if b.None? then None else Some(Element(BOOLEAN, [if b.value then 0xff else 0])))
  }

  lemma OctetsRead(n: nat, octets: Option<seq<byte>>, more: seq<byte>)
    requires n < 31 && Above(more, n) && |PutOctets(n, octets)| <= LIMIT
    ensures GetOctets(PutOctets(n, octets) + more, n) == Ok(octets, more)
  {
    hide Element, GetAsn1, PutOptional, GetOptional;
    var contents := if octets.None? then None else Some(Element(OCTETS, octets.value));
    if octets.Some? {
      ElementLength(OCTETS, octets.value);
      assert contents.value + [] == contents.value;
      ElementRead(OCTETS, octets.value, []);
    }
    OptionalRead(n, contents, more);
  }

  lemma ElementLength(tag: byte, contents: seq<byte>)
    ensures |Element(tag, contents)| == |contents| + 2 + LengthWidth(|contents|)
  {
  }

  lemma OptionalUint64Read(n: nat, v: Option<nat>, default: nat, more: seq<byte>)
    requires n < 31 && Above(more, n) && (v.Some? ==> v.value < TWO_64)
    ensures GetOptionalUint64(PutOptionalUint64(n, v) + more, n, default)
            == Ok(if v.Some? then v.value else default, more)
  {
    hide PutUint64, GetUint64, PutOptional, GetOptional;
    var contents := if v.None? then None else Some(PutUint64(v.value));
    if v.Some? {
      Uint64Short(v.value);
      assert contents.value + [] == contents.value;
      Uint64Read(v.value, []);
    }
    OptionalRead(n, contents, more);
  }

  lemma Uint64Short(v: nat)
    requires v < TWO_64
    ensures |PutUint64(v)| <= 15
  {
    hide IntegerBytes;
    IntegerShort(v);
    ElementLength(INTEGER, IntegerBytes(v));
  }

  lemma OptionalBoolRead(n: nat, b: Option<bool>, default: bool, more: seq<byte>)
    requires n < 31 && Above(more, n)
    ensures GetOptionalBool(PutOptionalBool(n, b) + more, n, default) == Ok(if b.Some? then b.value else default, more)
  {
    hide Element, GetAsn1, PutOptional, GetOptional;
    var contents := if b.None? then None else Some(Element(BOOLEAN, [if b.value then 0xff else 0]));
    if b.Some? {
      ElementLength(BOOLEAN, [if b.value then 0xff else 0]);
      assert contents.value + [] == contents.value;
      ElementRead(BOOLEAN, [if b.value then 0xff else 0], []);
    }
    OptionalRead(n, contents, more);
  }
}
