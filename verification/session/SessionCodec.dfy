/**
  Writing a session into a builder and reading one from a cursor, field by field, as
  SSL_SESSION_to_bytes_full and SSL_SESSION_parse do it.
 */
module SessionCodec {
  import opened Wrappers
  import opened Bits
  import opened Parsing
  import opened Der
  import opened ByteStrings
  import opened Session

  // ----- Writing

  /** The numbers of a session are what its fields can hold. */
  predicate Typed(s: SslSession) {
    && s.head.version < TWO_64 && s.head.time < TWO_64 && s.head.timeout < TWO_64
    && s.identity.verifyResult < TWO_64 && s.identity.hint < TWO_64 && s.proofs.group < TWO_64
    && s.tail.signatureAlgorithm < TWO_64 && s.tail.maxEarlyData < TWO_64 && s.tail.authTimeout < TWO_64
  }

  /** One more field has been written, or left out. */
  lemma Wrote(s: SslSession, forTicket: bool, n: nat, before: seq<byte>, after: seq<byte>)
    requires n <= LAST_FIELD
    requires after == before + Field(s, forTicket, n) || (after == before && Field(s, forTicket, n) == [])
    ensures after + Fields(s, forTicket, n + 1) == before + Fields(s, forTicket, n)
  {
    hide Field;
    var field, fields := Field(s, forTicket, n), Fields(s, forTicket, n + 1);
    assert before + (field + fields) == (before + field) + fields;
    assert [] + fields == fields;
  }

  method AddHead(b: Builder, h: Head, forTicket: bool) returns (ok: bool)
    requires h.version < TWO_64 && h.time < TWO_64 && h.timeout < TWO_64
    modifies b
    ensures ok ==> b.buf == old(b.buf) + PutHead(h, forTicket)
    ensures !ok ==> |PutHead(h, forTicket)| > LIMIT
  {
    hide PutHead, Element, PutUint64, BigEndian;
    HeadInPieces(b.buf, h, forTicket);
    b.AddUint64(VERSION);
    b.AddUint64(h.version);
    ok := b.AddElement(OCTETS, BigEndian(h.cipher, 2));
    // The session ID is of no use in a ticket.
    ok := b.AddOctets(if forTicket then [] else h.sessionId);
    if !ok {
      return;
    }
    ok := b.AddOctets(h.masterKey);
    if !ok {
      return;
    }
    Uint64Short(h.time);
    Uint64Short(h.timeout);
    ok := b.AddElement(Context(1), PutUint64(h.time));
    ok := b.AddElement(Context(2), PutUint64(h.timeout));
  }

  lemma Regroup(before: seq<byte>, field: seq<byte>, fields: seq<byte>)
    ensures before + (field + fields) == (before + field) + fields
    ensures |field| <= |field + fields| && |fields| <= |field + fields|
  {
  }

  lemma HeadInPieces(before: seq<byte>, h: Head, forTicket: bool)
    ensures before + PutHead(h, forTicket)
            == before + PutUint64(VERSION) + PutUint64(h.version) + Element(OCTETS, BigEndian(h.cipher, 2))
               + Element(OCTETS, if forTicket then [] else h.sessionId) + Element(OCTETS, h.masterKey)
               + Element(Context(1), PutUint64(h.time)) + Element(Context(2), PutUint64(h.timeout))
    ensures |PutHead(h, forTicket)| > |if forTicket then [] else h.sessionId|
    ensures |PutHead(h, forTicket)| > |h.masterKey|
  {
    hide PutUint64, BigEndian, Element;
    var f1, f2, f3 := PutUint64(VERSION), PutUint64(h.version), Element(OCTETS, BigEndian(h.cipher, 2));
    var f4, f5 := Element(OCTETS, if forTicket then [] else h.sessionId), Element(OCTETS, h.masterKey);
    var f6, f7 := Element(Context(1), PutUint64(h.time)), Element(Context(2), PutUint64(h.timeout));
    Regroup(before, f1, f2 + (f3 + (f4 + (f5 + (f6 + f7)))));
    Regroup(before + f1, f2, f3 + (f4 + (f5 + (f6 + f7))));
    Regroup(before + f1 + f2, f3, f4 + (f5 + (f6 + f7)));
    Regroup(before + f1 + f2 + f3, f4, f5 + (f6 + f7));
    Regroup(before + f1 + f2 + f3 + f4, f5, f6 + f7);
    Regroup(before + f1 + f2 + f3 + f4 + f5, f6, f7);
  }

  // A field with a number: added where there is something to add.

  method WriteField(b: Builder, s: SslSession, forTicket: bool, n: nat, contents: Option<seq<byte>>) returns (ok: bool)
    requires 3 <= n <= LAST_FIELD && Field(s, forTicket, n) == PutOptional(n, contents)
    modifies b
    ensures ok ==> b.buf + Fields(s, forTicket, n + 1) == old(b.buf) + Fields(s, forTicket, n)
    ensures !ok ==> |Fields(s, forTicket, 3)| > LIMIT
  {
    hide Fields, Field, Element;
    ok := true;
    if contents.Some? {
      ok := b.AddField(n, contents.value);
    }
    if ok {
      Wrote(s, forTicket, n, old(b.buf), b.buf);
    } else {
      FieldWithin(s, forTicket, 3, n);
    }
  }

  method WriteOctets(b: Builder, s: SslSession, forTicket: bool, n: nat, octets: Option<seq<byte>>) returns (ok: bool)
    requires 3 <= n <= LAST_FIELD && Field(s, forTicket, n) == PutOctets(n, octets)
    modifies b
    ensures ok ==> b.buf + Fields(s, forTicket, n + 1) == old(b.buf) + Fields(s, forTicket, n)
    ensures !ok ==> |Fields(s, forTicket, 3)| > LIMIT
  {
    hide Fields, Field, Element;
    ok := true;
    if octets.Some? {
      ok := b.AddOctetsField(n, octets.value);
    }
    if ok {
      Wrote(s, forTicket, n, old(b.buf), b.buf);
    } else {
      FieldWithin(s, forTicket, 3, n);
    }
  }

  method WriteUint64(b: Builder, s: SslSession, forTicket: bool, n: nat, v: nat, default: nat)
    requires 3 <= n <= LAST_FIELD && v < TWO_64
    requires Field(s, forTicket, n) == PutOptionalUint64(n, SomeIf(v != default, v))
    modifies b
    ensures b.buf + Fields(s, forTicket, n + 1) == old(b.buf) + Fields(s, forTicket, n)
  {
    hide Fields, Field, Element;
    if v != default {
      b.AddUint64Field(n, v);
    }
    Wrote(s, forTicket, n, old(b.buf), b.buf);
  }

  method WriteBool(b: Builder, s: SslSession, forTicket: bool, n: nat, v: bool, default: bool)
    requires 3 <= n <= LAST_FIELD && Field(s, forTicket, n) == PutOptionalBool(n, SomeIf(v != default, v))
    modifies b
    ensures b.buf + Fields(s, forTicket, n + 1) == old(b.buf) + Fields(s, forTicket, n)
  {
    hide Fields, Field, Element;
    if v != default {
      b.AddBoolField(n, v);
    }
    Wrote(s, forTicket, n, old(b.buf), b.buf);
  }

  /** Numbers no field has. */
  lemma NoField(s: SslSession, forTicket: bool, n: nat)
    requires n == 6 || n == 7 || n == 11 || n == 12 || n == 20
    ensures Fields(s, forTicket, n) == Fields(s, forTicket, n + 1)
  {
    assert Field(s, forTicket, n) == [];
    Unfolded(s, forTicket, n);
    hide Field, Fields;
    assert [] + Fields(s, forTicket, n + 1) == Fields(s, forTicket, n + 1);
  }

  lemma Unfolded(s: SslSession, forTicket: bool, n: nat)
    ensures Fields(s, forTicket, n) ==
            if n > LAST_FIELD then [] else Field(s, forTicket, n) + Fields(s, forTicket, n + 1)
  {
    hide Field;
  }

  method AddIdentity(b: Builder, s: SslSession, forTicket: bool) returns (ok: bool)
    requires Typed(s)
    modifies b
    ensures ok ==> b.buf + Fields(s, forTicket, 13) == old(b.buf) + Fields(s, forTicket, 3)
    ensures !ok ==> |Fields(s, forTicket, 3)| > LIMIT
  {
    hide Fields, PutOptional, PutOctets, PutOptionalUint64;
    // The certificate is only written where its digest is not.
    ok := WriteField(b, s, forTicket, 3, if |s.certs| > 0 && s.proofs.sha256.None? then Some(s.certs[0]) else None);
    if !ok {
      return;
    }
    ok := WriteOctets(b, s, forTicket, 4, Some(s.identity.context));
    if !ok {
      return;
    }
    WriteUint64(b, s, forTicket, 5, s.identity.verifyResult, 0);
    NoField(s, forTicket, 6);
    NoField(s, forTicket, 7);
    ok := WriteOctets(b, s, forTicket, 8, s.identity.psk);
    if !ok {
      return;
    }
    WriteUint64(b, s, forTicket, 9, s.identity.hint, 0);
    ok := WriteOctets(b, s, forTicket, 10, if forTicket then None else s.identity.ticket);
    NoField(s, forTicket, 11);
    NoField(s, forTicket, 12);
  }

  method AddProofs(b: Builder, s: SslSession, forTicket: bool) returns (ok: bool)
    requires Typed(s)
    modifies b
    ensures ok ==> b.buf + Fields(s, forTicket, 19) == old(b.buf) + Fields(s, forTicket, 13)
    ensures !ok ==> |Fields(s, forTicket, 3)| > LIMIT
  {
    hide Fields, PutOctets, PutOptionalUint64, PutOptionalBool;
    ok := WriteOctets(b, s, forTicket, 13, s.proofs.sha256);
    if !ok {
      return;
    }
    ok := WriteOctets(b, s, forTicket, 14, SomeIf(|s.proofs.hash| > 0, s.proofs.hash));
    if !ok {
      return;
    }
    ok := WriteOctets(b, s, forTicket, 15, s.proofs.timestamps);
    if !ok {
      return;
    }
    ok := WriteOctets(b, s, forTicket, 16, s.proofs.ocsp);
    if !ok {
      return;
    }
    WriteBool(b, s, forTicket, 17, s.proofs.extendedMasterSecret, false);
    WriteUint64(b, s, forTicket, 18, s.proofs.group, 0);
  }

  /** The certificates behind the first one, joined one by one. */
  method JoinCerts(certs: seq<seq<byte>>) returns (chain: seq<byte>)
    requires |certs| >= 1
    ensures chain == Joined(certs[1..])
  {
    chain := [];
    for i := 1 to |certs|
      invariant chain + Joined(certs[i..]) == Joined(certs[1..])
    {
      assert certs[i..][1..] == certs[i + 1..];
      assert chain + (certs[i] + Joined(certs[i + 1..])) == (chain + certs[i]) + Joined(certs[i + 1..]);
      chain := chain + certs[i];
    }
    assert chain + [] == chain;
  }

  method AddChain(b: Builder, s: SslSession, forTicket: bool) returns (ok: bool)
    modifies b
    ensures ok ==> b.buf + Fields(s, forTicket, 21) == old(b.buf) + Fields(s, forTicket, 19)
    ensures !ok ==> |Fields(s, forTicket, 3)| > LIMIT
  {
    hide Fields, PutOptional;
    var chain := None;
    if s.proofs.sha256.None? && |s.certs| >= 2 {
      var certs := JoinCerts(s.certs);
      chain := Some(certs);
    }
    ok := WriteField(b, s, forTicket, 19, chain);
    NoField(s, forTicket, 20);
  }

  method AddTail(b: Builder, s: SslSession, forTicket: bool) returns (ok: bool)
    requires Typed(s)
    modifies b
    ensures ok ==> b.buf == old(b.buf) + Fields(s, forTicket, 21)
    ensures !ok ==> |Fields(s, forTicket, 3)| > LIMIT
  {
    hide Fields, Field, PutOctets, PutOptionalUint64, PutOptionalBool, BigEndian;
    TailFields(s, forTicket);
    ok := WriteOctets(b, s, forTicket, 21, if s.tail.ageAdd.Some? then Some(BigEndian(s.tail.ageAdd.value, 4)) else None);
    if !ok {
      return;
    }
    WriteBool(b, s, forTicket, 22, s.tail.isServer, true);
    WriteUint64(b, s, forTicket, 23, s.tail.signatureAlgorithm, 0);
    WriteUint64(b, s, forTicket, 24, s.tail.maxEarlyData, 0);
    WriteUint64(b, s, forTicket, 25, s.tail.authTimeout, s.head.timeout);
    ok := WriteOctets(b, s, forTicket, 26, s.tail.alpn);
    Unfolded(s, forTicket, 27);
    assert b.buf + [] == b.buf;
  }

  /** SSL_SESSION_to_bytes_full: adds the serialized session, and fails only where there is none. */
  method ToBytesFull(b: Builder, s: SslSession, forTicket: bool) returns (ok: bool)
    requires Typed(s)
    modifies b
    ensures ok <==> Serialize(s, forTicket).Some?
    ensures ok ==> b.buf == old(b.buf) + Serialize(s, forTicket).value
  {
    hide PutHead, Fields, Element, DerLength;
    ghost var before := b.buf;
    var outer := b.Open(SEQUENCE);
    ghost var start := b.buf;
    assert |PutBody(s, forTicket)| == |PutHead(s.head, forTicket)| + |Fields(s, forTicket, 3)|;
    ok := AddHead(b, s.head, forTicket);
    if !ok {
      return;
    }
    ok := AddIdentity(b, s, forTicket);
    if !ok {
      return;
    }
    ok := AddProofs(b, s, forTicket);
    if !ok {
      return;
    }
    ok := AddChain(b, s, forTicket);
    if !ok {
      return;
    }
    ok := AddTail(b, s, forTicket);
    if !ok {
      return;
    }
    Regroup(start, PutHead(s.head, forTicket), Fields(s, forTicket, 3));
    assert b.buf == start + PutBody(s, forTicket);
    b.Opened(before, SEQUENCE, PutBody(s, forTicket));
    ok := b.Close(outer);
  }

  // ----- Reading

  method ReadHead(env: Env, c: Cursor) returns (r: Option<Head>)
    modifies c
    ensures Got(GetHead(env, old(c.data)), r, c.data)
  {
    hide GetAsn1, GetUint64, GetUint, TagOf;
    var format := c.GetInteger();
    if format.None? || format.value != VERSION {
      return None;
    }
    var version := c.GetInteger();
    if version.None? || version.value !in WIRE_VERSIONS {
      return None;
    }
    var cipherBytes := c.GetElement(TagOf(OCTETS));
    if cipherBytes.None? {
      return None;
    }
    var cipher := GetUint(cipherBytes.value, 2);
    if cipher.Fail? || cipher.rest != [] || cipher.value !in env.ciphers {
      return None;
    }
    var sessionId := c.GetElement(TagOf(OCTETS));
    if sessionId.None? || |sessionId.value| > MAX_SESSION_ID {
      return None;
    }
    var masterKey := c.GetElement(TagOf(OCTETS));
    if masterKey.None? || |masterKey.value| > MAX_MASTER_KEY {
      return None;
    }
    var timeChild := c.GetElement(TagOf(Context(1)));
    if timeChild.None? {
      return None;
    }
    var time := GetUint64(timeChild.value);
    if time.Fail? {
      return None;
    }
    var timeoutChild := c.GetElement(TagOf(Context(2)));
    if timeoutChild.None? {
      return None;
    }
    var timeout := GetUint64(timeoutChild.value);
    if timeout.Fail? || timeout.value >= TWO_32 {
      return None;
    }
    return Some(Head(version.value, cipher.value, sessionId.value, masterKey.value, time.value, timeout.value));
  }

  method ReadIdentity(c: Cursor) returns (r: Option<(Option<seq<byte>>, Identity)>)
    modifies c
    ensures Got(GetIdentity(old(c.data)), r, c.data)
  {
    hide GetOptional, GetOctets, GetOptionalUint64;
    var peer := c.GetField(3);
    if peer.None? || peer.value == Some([]) {
      return None;
    }
    var context := c.GetOctetsField(4);
    if context.None? || |OrEmpty(context.value)| > MAX_CONTEXT {
      return None;
    }
    var verifyResult := c.GetUint64Field(5, 0);
    if verifyResult.None? || verifyResult.value >= TWO_63 {
      return None;
    }
    var hostname := c.GetField(6);
    if hostname.None? {
      return None;
    }
    var psk := c.GetOctetsField(8);
    if psk.None? || 0 in OrEmpty(psk.value) {
      return None;
    }
    var hint := c.GetUint64Field(9, 0);
    if hint.None? || hint.value >= TWO_32 {
      return None;
    }
    var ticket := c.GetOctetsField(10);
    if ticket.None? {
      return None;
    }
    return Some((peer.value, Identity(OrEmpty(context.value), verifyResult.value, psk.value, hint.value,
                                      Stowed(ticket.value))));
  }

  method ReadProofs(c: Cursor) returns (r: Option<Proofs>)
    modifies c
    ensures Got(GetProofs(old(c.data)), r, c.data)
  {
    hide GetOctets, GetOptionalUint64, GetOptionalBool;
    var sha256 := c.GetOctetsField(13);
    if sha256.None? || (sha256.value.Some? && |sha256.value.value| != SHA256_SIZE) {
      return None;
    }
    var hash := c.GetOctetsField(14);
    if hash.None? || |OrEmpty(hash.value)| > MAX_HASH {
      return None;
    }
    var timestamps := c.GetOctetsField(15);
    if timestamps.None? {
      return None;
    }
    var ocsp := c.GetOctetsField(16);
    if ocsp.None? {
      return None;
    }
    var extendedMasterSecret := c.GetBoolField(17, false);
    if extendedMasterSecret.None? {
      return None;
    }
    var group := c.GetUint64Field(18, 0);
    if group.None? || group.value > 0xffff {
      return None;
    }
    return Some(Proofs(sha256.value, OrEmpty(hash.value), timestamps.value, ocsp.value, extendedMasterSecret.value,
                       group.value));
  }

  /** The elements of a chain, until nothing of it is left. */
  method ReadElements(bs: seq<byte>) returns (r: Option<seq<seq<byte>>>)
    ensures r == GetElements(bs)
  {
    hide GetAnyElement;
    var certs, rest := [], bs;
    assert forall more: seq<seq<byte>> :: [] + more == more;
    while rest != []
      invariant match GetElements(rest)
                case Some(more) => GetElements(bs) == Some(certs + more)
                case None => GetElements(bs) == None
      decreases |rest|
    {
      var cert := GetAnyElement(rest);
      if cert.Fail? {
        return None;
      }
      assert forall more: seq<seq<byte>> :: certs + ([cert.value] + more) == (certs + [cert.value]) + more;
      certs := certs + [cert.value];
      rest := cert.rest;
    }
    assert certs + [] == certs;
    return Some(certs);
  }

  method ReadChain(peer: Option<seq<byte>>, c: Cursor) returns (r: Option<seq<seq<byte>>>)
    modifies c
    ensures Got(GetChain(peer, old(c.data)), r, c.data)
  {
    hide GetOptional, GetElements;
    var chain := c.GetField(19);
    if chain.None? || chain.value == Some([]) || (chain.value.Some? && peer.None?) {
      return None;
    }
    var certs := ReadElements(OrEmpty(chain.value));
    if certs.None? {
      return None;
    }
    return Some((if peer.Some? then [peer.value] else []) + certs.value);
  }

  method ReadTail(timeout: nat, c: Cursor) returns (r: Option<Tail>)
    modifies c
    ensures Got(GetTail(old(c.data), timeout), r, c.data)
  {
    hide GetOctets, GetOptionalUint64, GetOptionalBool, GetUint;
    var ageAddBytes := c.GetOctetsField(21);
    if ageAddBytes.None? {
      return None;
    }
    var ageAdd := Ok(0, []);
    if ageAddBytes.value.Some? {
      ageAdd := GetUint(ageAddBytes.value.value, 4);
    }
    if ageAdd.Fail? || ageAdd.rest != [] {
      return None;
    }
    var isServer := c.GetBoolField(22, true);
    if isServer.None? {
      return None;
    }
    var signatureAlgorithm := c.GetUint64Field(23, 0);
    if signatureAlgorithm.None? || signatureAlgorithm.value > 0xffff {
      return None;
    }
    var maxEarlyData := c.GetUint64Field(24, 0);
    if maxEarlyData.None? || maxEarlyData.value >= TWO_32 {
      return None;
    }
    var authTimeout := c.GetUint64Field(25, timeout);
    if authTimeout.None? || authTimeout.value >= TWO_32 {
      return None;
    }
    var alpn := c.GetOctetsField(26);
    if alpn.None? {
      return None;
    }
    return Some(Tail(if ageAddBytes.value.Some? then Some(ageAdd.value) else None, isServer.value,
                     signatureAlgorithm.value, maxEarlyData.value, authTimeout.value, Stowed(alpn.value)));
  }

  method ReadBody(env: Env, c: Cursor) returns (r: Option<SslSession>)
    modifies c
    ensures r == GetBody(env, old(c.data))
  {
    hide GetHead, GetIdentity, GetProofs, GetChain, GetTail;
    var head := ReadHead(env, c);
    if head.None? {
      return None;
    }
    var early := ReadIdentity(c);
    if early.None? {
      return None;
    }
    var proofs := ReadProofs(c);
    if proofs.None? {
      return None;
    }
    var certs := ReadChain(early.value.0, c);
    if certs.None? || !env.certsOk(certs.value) {
      return None;
    }
    var tail := ReadTail(head.value.timeout, c);
    if tail.None? || c.data != [] {
      return None;
    }
    return Some(SslSession(head.value, early.value.1, proofs.value, certs.value, tail.value));
  }

  /** SSL_SESSION_parse: the session at the front of the cursor, or nothing. */
  method ParseSession(env: Env, c: Cursor) returns (r: Option<SslSession>)
    modifies c
    ensures Got(Parse(env, old(c.data)), r, c.data)
  {
    hide GetAsn1, GetBody;
    var body := c.GetElement(TagOf(SEQUENCE));
    if body.None? {
      return None;
    }
    var session := new Cursor(body.value);
    r := ReadBody(env, session);
  }
}
