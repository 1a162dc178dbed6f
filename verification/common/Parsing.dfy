/**
  Reading values off the front of a byte sequence, and the big-endian words and
  length-prefixed strings that records, handshake messages and DER are made of.
 */
module Parsing {
  import opened Bits

  /** What reading a value off the front of a byte sequence yields. */
  datatype Parsed<+T> = Ok(value: T, rest: seq<byte>) | Fail {
    predicate IsFailure() { Fail? }

    function PropagateFailure<U>(): Parsed<U>
      requires Fail?
    {
      Fail
    }

    function Extract(): (T, seq<byte>)
      requires Ok?
    {
      (value, rest)
    }
  }

  function Take(bs: seq<byte>, n: nat): (r: Parsed<seq<byte>>)
    ensures r.Ok? ==> |r.rest| == |bs| - n && r.value + r.rest == bs
  {
    if |bs| < n then Fail else Ok(bs[..n], bs[n..])
  }

  // ----- Big-endian words

  /** 256 to the power of `width`. */
  function Limit(width: nat): (limit: nat)
    ensures limit > 0
  {
    if width == 0 then 1 else 256 * Limit(width - 1)
  }

  lemma Limits()
    ensures Limit(0) == 1 && Limit(1) == 0x100 && Limit(2) == TWO_16 && Limit(3) == TWO_24
    ensures Limit(4) == TWO_32 && Limit(8) == TWO_64
  {
    assert Limit(4) == TWO_32;
  }

  function BigEndian(v: nat, width: nat): (bs: seq<byte>)
    ensures |bs| == width
  {
    if width == 0 then [] else BigEndian(v / 256, width - 1) + [v % 256]
  }

  function FromBigEndian(bs: seq<byte>): (v: nat)
    ensures v < Limit(|bs|)
  {
    if bs == [] then 0 else 256 * FromBigEndian(bs[..|bs| - 1]) + bs[|bs| - 1]
  }

  lemma {:induction false} BigEndianInverse(v: nat, width: nat)
    requires v < Limit(width)
    ensures FromBigEndian(BigEndian(v, width)) == v
  {
    if width > 0 {
      BigEndianInverse(v / 256, width - 1);
      var bs := BigEndian(v, width);
      assert bs[..width - 1] == BigEndian(v / 256, width - 1);
    }
  }

  lemma {:induction false} FromBigEndianInverse(bs: seq<byte>)
    ensures BigEndian(FromBigEndian(bs), |bs|) == bs
  {
    if bs != [] {
      FromBigEndianInverse(bs[..|bs| - 1]);
    }
  }

  /** An unsigned integer of a fixed width. */
  function GetUint(bs: seq<byte>, width: nat): (r: Parsed<nat>)
    ensures r.Ok? ==> |r.rest| == |bs| - width && r.rest == bs[width..] && r.value < Limit(width)
  {
    if |bs| < width then Fail else Ok(FromBigEndian(bs[..width]), bs[width..])
  }

  lemma GetUintInverse(v: nat, width: nat, rest: seq<byte>)
    requires v < Limit(width)
    ensures GetUint(BigEndian(v, width) + rest, width) == Ok(v, rest)
  {
    BigEndianInverse(v, width);
    assert (BigEndian(v, width) + rest)[..width] == BigEndian(v, width);
  }

  lemma TakeInverse(data: seq<byte>, rest: seq<byte>)
    ensures Take(data + rest, |data|) == Ok(data, rest)
  {
    assert (data + rest)[..|data|] == data;
  }

  /** Bytes after a length of a fixed width. */
  function GetPrefixed(bs: seq<byte>, width: nat): (r: Parsed<seq<byte>>)
    ensures r.Ok? ==> |r.rest| == |bs| - width - |r.value| && |r.value| < Limit(width)
  {
    var (len, rest) :- GetUint(bs, width);
    Take(rest, len)
  }

  function Prefixed(data: seq<byte>, width: nat): seq<byte> { BigEndian(|data|, width) + data }

  lemma GetPrefixedInverse(data: seq<byte>, width: nat, rest: seq<byte>)
    requires |data| < Limit(width)
    ensures GetPrefixed(Prefixed(data, width) + rest, width) == Ok(data, rest)
  {
    assert Prefixed(data, width) + rest == BigEndian(|data|, width) + (data + rest);
    GetUintInverse(|data|, width, data + rest);
    TakeInverse(data, rest);
  }
}
