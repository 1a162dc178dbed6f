/**
  Handshake fragments: a 12-byte header that says of which message they are which
  slice, and the slice (section 4.2.2 of RFC 6347).
 */
module Fragments {
  import opened Bits
  import opened Parsing
  import opened Records

  const HM_HEADER := 12

  datatype HmHeader = HmHeader(typ: byte, msgLen: nat, seqNum: nat, fragOff: nat, fragLen: nat) {
    predicate Fits() { msgLen < TWO_24 && seqNum < TWO_16 && fragOff < TWO_24 && fragLen < TWO_24 }
  }

  /** A header and the body it announces. */
  datatype Fragment = Fragment(header: HmHeader, body: seq<byte>)

  function ParseFragment(bs: seq<byte>): (r: Parsed<Fragment>)
    ensures r.Ok? ==> |r.rest| < |bs| && |r.value.body| == r.value.header.fragLen && r.value.header.Fits()
  {
    Limits();
    var (typ, bs1) :- Take(bs, 1);
    var (msgLen, bs2) :- GetUint(bs1, 3);
    var (seqNum, bs3) :- GetUint(bs2, 2);
    var (fragOff, bs4) :- GetUint(bs3, 3);
    var (fragLen, bs5) :- GetUint(bs4, 3);
    var (body, rest) :- Take(bs5, fragLen);
    Ok(Fragment(HmHeader(typ[0], msgLen, seqNum, fragOff, fragLen), body), rest)
  }

  function HeaderBytes(h: HmHeader): (bs: seq<byte>)
    ensures |bs| == HM_HEADER
  {
    [h.typ] + BigEndian(h.msgLen, 3) + BigEndian(h.seqNum, 2) + BigEndian(h.fragOff, 3) + BigEndian(h.fragLen, 3)
  }

  function FragmentBytes(f: Fragment): seq<byte> { HeaderBytes(f.header) + f.body }

  lemma ParseFragmentInverse(f: Fragment, rest: seq<byte>)
    requires f.header.Fits() && |f.body| == f.header.fragLen
    ensures ParseFragment(FragmentBytes(f) + rest) == Ok(f, rest)
  {
    hide BigEndian, FromBigEndian, GetUint, Take, Limit;
    var h := f.header;
    var bs5 := f.body + rest;
    var bs4 := BigEndian(h.fragLen, 3) + bs5;
    var bs3 := BigEndian(h.fragOff, 3) + bs4;
    var bs2 := BigEndian(h.seqNum, 2) + bs3;
    var bs1 := BigEndian(h.msgLen, 3) + bs2;
    assert FragmentBytes(f) + rest == [h.typ] + bs1;
    Limits();
    TakeInverse([h.typ], bs1);
    GetUintInverse(h.msgLen, 3, bs2);
    GetUintInverse(h.seqNum, 2, bs3);
    GetUintInverse(h.fragOff, 3, bs4);
    GetUintInverse(h.fragLen, 3, bs5);
    TakeInverse(f.body, rest);
  }
}
