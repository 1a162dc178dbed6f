/**
  The serialized form of an SSL session (ssl_asn1.cc): a sequence of mandatory fields and
  of optional ones in the order of their numbers.  What is parsed from a serialization is
  the session, but for what the serializer is meant to leave out.
 */
module Session {
  import opened Wrappers
  import opened Bits
  import opened Parsing
  import opened Der

  const VERSION: nat := 1
  const WIRE_VERSIONS: set<nat> := {0x0300, 0x0301, 0x0302, 0x0303, 0x7f17, 0xfeff, 0xfefd}
  const MAX_SESSION_ID: nat := 32
  const MAX_MASTER_KEY: nat := 48
  const MAX_CONTEXT: nat := 32
  const MAX_HASH: nat := 64
  const SHA256_SIZE: nat := 32

  // ----- Sessions

  datatype Head = Head(version: nat, cipher: nat, sessionId: seq<byte>, masterKey: seq<byte>, time: nat, timeout: nat)

  datatype Identity = Identity(context: seq<byte>, verifyResult: nat, psk: Option<seq<byte>>, hint: nat,
                               ticket: Option<seq<byte>>)

  datatype Proofs = Proofs(sha256: Option<seq<byte>>, hash: seq<byte>, timestamps: Option<seq<byte>>,
                           ocsp: Option<seq<byte>>, extendedMasterSecret: bool, group: nat)

  datatype Tail = Tail(ageAdd: Option<nat>, isServer: bool, signatureAlgorithm: nat, maxEarlyData: nat,
                       authTimeout: nat, alpn: Option<seq<byte>>)

  datatype SslSession = SslSession(head: Head, identity: Identity, proofs: Proofs, certs: seq<seq<byte>>, tail: Tail)

  /** The ciphers there are, and which certificates X.509 code can make objects of. */
  datatype Env = Env(ciphers: set<nat>, certsOk: seq<seq<byte>> -> bool)

  // ----- The mandatory fields

  function PutHead(h: Head, forTicket: bool): seq<byte> {
    PutUint64(VERSION) + (PutUint64(h.version)
    + (Element(OCTETS, BigEndian(h.cipher, 2))
    + (Element(OCTETS, if forTicket then [] else h.sessionId)
    + (Element(OCTETS, h.masterKey)
    + (Element(Context(1), PutUint64(h.time)) + Element(Context(2), PutUint64(h.timeout)))))))
  }

  function GetHead(env: Env, bs: seq<byte>): Parsed<Head> {
    var (format, bs) :- GetUint64(bs);
    if format != VERSION then Fail
    else
      var (version, bs) :- GetUint64(bs);
      if version !in WIRE_VERSIONS then Fail
      else
        var (cipherBytes, bs) :- GetAsn1(bs, TagOf(OCTETS));
        var (cipher, end) :- GetUint(cipherBytes, 2);
        if end != [] || cipher !in env.ciphers then Fail
        else
          var (sessionId, bs) :- GetAsn1(bs, TagOf(OCTETS));
          if |sessionId| > MAX_SESSION_ID then Fail
          else
            var (masterKey, bs) :- GetAsn1(bs, TagOf(OCTETS));
            if |masterKey| > MAX_MASTER_KEY then Fail
            else
              // What follows the integer in these two is not looked at.
              var (timeChild, bs) :- GetAsn1(bs, TagOf(Context(1)));
              var (time, _) :- GetUint64(timeChild);
              var (timeoutChild, bs) :- GetAsn1(bs, TagOf(Context(2)));
              var (timeout, _) :- GetUint64(timeoutChild);
              if timeout >= TWO_32 then Fail
              else Ok(Head(version, cipher, sessionId, masterKey, time, timeout), bs)
  }

  // ----- The optional fields

  function SomeIf<T>(b: bool, x: T): Option<T> { if b then Some(x) else None }

  /** An empty string that is stored away becomes none. */
  function Stowed(octets: Option<seq<byte>>): Option<seq<byte>> { if octets == Some([]) then None else octets }

  function OrEmpty(octets: Option<seq<byte>>): seq<byte> { if octets.Some? then octets.value else [] }

  function GetIdentity(bs: seq<byte>): Parsed<(Option<seq<byte>>, Identity)> {
    var (peer, bs) :- GetOptional(bs, 3);
    if peer == Some([]) then Fail
    else
      var (context, bs) :- GetOctets(bs, 4);
      if |OrEmpty(context)| > MAX_CONTEXT then Fail
      else
        var (verifyResult, bs) :- GetOptionalUint64(bs, 5, 0);
        if verifyResult >= TWO_63 then Fail
        else
          // The host name of old is skipped.
          var (_, bs) :- GetOptional(bs, 6);
          var (psk, bs) :- GetOctets(bs, 8);
          if 0 in OrEmpty(psk) then Fail
          else
            var (hint, bs) :- GetOptionalUint64(bs, 9, 0);
            if hint >= TWO_32 then Fail
            else
              var (ticket, bs) :- GetOctets(bs, 10);
              Ok((peer, Identity(OrEmpty(context), verifyResult, psk, hint, Stowed(ticket))), bs)
  }

  function GetProofs(bs: seq<byte>): Parsed<Proofs> {
    var (sha256, bs) :- GetOctets(bs, 13);
    if sha256.Some? && |sha256.value| != SHA256_SIZE then Fail
    else
      var (hash, bs) :- GetOctets(bs, 14);
      if |OrEmpty(hash)| > MAX_HASH then Fail
      else
        var (timestamps, bs) :- GetOctets(bs, 15);
        var (ocsp, bs) :- GetOctets(bs, 16);
        var (extendedMasterSecret, bs) :- GetOptionalBool(bs, 17, false);
        var (group, bs) :- GetOptionalUint64(bs, 18, 0);
        if group > 0xffff then Fail
        else Ok(Proofs(sha256, OrEmpty(hash), timestamps, ocsp, extendedMasterSecret, group), bs)
  }

  // ----- Certificates

  function Joined(certs: seq<seq<byte>>): seq<byte> { if certs == [] then [] else certs[0] + Joined(certs[1..]) }

  /** A row of elements of any kind. */
  function GetElements(bs: seq<byte>): Option<seq<seq<byte>>>
    decreases |bs|
  {
    if bs == [] then Some([])
    else
      var cert := GetAnyElement(bs);
      if cert.Fail? then None
      else
        var certs := GetElements(cert.rest);
        if certs.None? then None else Some([cert.value] + certs.value)
  }

  /** The rest of the chain needs the leaf before it. */
  function GetChain(peer: Option<seq<byte>>, bs: seq<byte>): Parsed<seq<seq<byte>>> {
    var (chain, bs) :- GetOptional(bs, 19);
    if chain == Some([]) || (chain.Some? && peer.None?) then Fail
    else
      var certs := GetElements(OrEmpty(chain));
      if certs.None? then Fail
      else Ok((if peer.Some? then [peer.value] else []) + certs.value, bs)
  }

  // ----- The last fields

  function GetTail(bs: seq<byte>, timeout: nat): Parsed<Tail> {
    var (ageAddBytes, bs) :- GetOctets(bs, 21);
    var ageAdd := if ageAddBytes.Some? then GetUint(ageAddBytes.value, 4) else Ok(0, []);
    if ageAdd.Fail? || ageAdd.rest != [] then Fail
    else
      var (isServer, bs) :- GetOptionalBool(bs, 22, true);
      var (signatureAlgorithm, bs) :- GetOptionalUint64(bs, 23, 0);
      if signatureAlgorithm > 0xffff then Fail
      else
        var (maxEarlyData, bs) :- GetOptionalUint64(bs, 24, 0);
        if maxEarlyData >= TWO_32 then Fail
        else
          var (authTimeout, bs) :- GetOptionalUint64(bs, 25, timeout);
          if authTimeout >= TWO_32 then Fail
          else
            var (alpn, bs) :- GetOctets(bs, 26);
            Ok(Tail(if ageAddBytes.Some? then Some(ageAdd.value) else None, isServer, signatureAlgorithm,
                    maxEarlyData, authTimeout, Stowed(alpn)),
               bs)
  }

  // ----- Whole sessions

  /** The certificates are left out where the digest of the first one stands for them. */
  function SentCerts(s: SslSession): seq<seq<byte>> { if s.proofs.sha256.Some? then [] else s.certs }

  /** The optional field with a number, if it is written at all. */
  function Field(s: SslSession, forTicket: bool, n: nat): seq<byte> {
    var certs := SentCerts(s);
    match n
    case 3 => PutOptional(3, if certs != [] then Some(certs[0]) else None)
    case 4 => PutOctets(4, Some(s.identity.context))
    case 5 => PutOptionalUint64(5, SomeIf(s.identity.verifyResult != 0, s.identity.verifyResult))
    case 8 => PutOctets(8, s.identity.psk)
    case 9 => PutOptionalUint64(9, SomeIf(s.identity.hint > 0, s.identity.hint))
    case 10 => PutOctets(10, if forTicket then None else s.identity.ticket)
    case 13 => PutOctets(13, s.proofs.sha256)
    case 14 => PutOctets(14, SomeIf(s.proofs.hash != [], s.proofs.hash))
    case 15 => PutOctets(15, s.proofs.timestamps)
    case 16 => PutOctets(16, s.proofs.ocsp)
    case 17 => PutOptionalBool(17, SomeIf(s.proofs.extendedMasterSecret, true))
    case 18 => PutOptionalUint64(18, SomeIf(s.proofs.group > 0, s.proofs.group))
    case 19 => PutOptional(19, if |certs| >= 2 then Some(Joined(certs[1..])) else None)
    case 21 => PutOctets(21, if s.tail.ageAdd.Some? then Some(BigEndian(s.tail.ageAdd.value, 4)) else None)
    case 22 => PutOptionalBool(22, SomeIf(!s.tail.isServer, false))
    case 23 => PutOptionalUint64(23, SomeIf(s.tail.signatureAlgorithm != 0, s.tail.signatureAlgorithm))
    case 24 => PutOptionalUint64(24, SomeIf(s.tail.maxEarlyData != 0, s.tail.maxEarlyData))
    case 25 => PutOptionalUint64(25, SomeIf(s.tail.authTimeout != s.head.timeout, s.tail.authTimeout))
    case 26 => PutOctets(26, s.tail.alpn)
    case _ => []
  }

  const LAST_FIELD: nat := 26

  /** The optional fields from a number on, in order. */
  function Fields(s: SslSession, forTicket: bool, n: nat): seq<byte>
    decreases LAST_FIELD + 1 - n
  {
    if n > LAST_FIELD then [] else Field(s, forTicket, n) + Fields(s, forTicket, n + 1)
  }

  function PutBody(s: SslSession, forTicket: bool): seq<byte> { PutHead(s.head, forTicket) + Fields(s, forTicket, 3) }

  /** SSL_SESSION_to_bytes_full: fails only on a session too large for a length. */
  function Serialize(s: SslSession, forTicket: bool): Option<seq<byte>> {
    var body := PutBody(s, forTicket);
    if |body| > LIMIT then None else Some(Element(SEQUENCE, body))
  }

  function GetBody(env: Env, bs: seq<byte>): Option<SslSession> {
    match GetHead(env, bs)
    case Fail => None
    case Ok(head, bs) =>
      match GetIdentity(bs)
      case Fail => None
      case Ok((peer, identity), bs) =>
        match GetProofs(bs)
        case Fail => None
        case Ok(proofs, bs) =>
          match GetChain(peer, bs)
          case Fail => None
          case Ok(certs, bs) =>
            if !env.certsOk(certs) then None
            else
              match GetTail(bs, head.timeout)
              case Fail => None
              case Ok(tail, bs) => if bs != [] then None else Some(SslSession(head, identity, proofs, certs, tail))
  }

  /** SSL_SESSION_parse: one session off the front of the input. */
  function Parse(env: Env, bs: seq<byte>): Parsed<SslSession> {
    var (body, rest) :- GetAsn1(bs, TagOf(SEQUENCE));
    var session := GetBody(env, body);
    if session.None? then Fail else Ok(session.value, rest)
  }

  // ----- Well-formed sessions

  predicate HeadOk(env: Env, h: Head) {
    && h.version in WIRE_VERSIONS && h.cipher in env.ciphers && h.cipher < 0x1_0000
    && |h.sessionId| <= MAX_SESSION_ID && |h.masterKey| <= MAX_MASTER_KEY && h.time < TWO_64 && h.timeout < TWO_32
  }

  predicate IdentityOk(i: Identity) {
    |i.context| <= MAX_CONTEXT && i.verifyResult < TWO_63 && 0 !in OrEmpty(i.psk) && i.hint < TWO_32
  }

  predicate ProofsOk(p: Proofs) {
    (p.sha256.Some? ==> |p.sha256.value| == SHA256_SIZE) && |p.hash| <= MAX_HASH && p.group <= 0xffff
  }

  predicate IsElement(cert: seq<byte>) { GetAnyElement(cert) == Ok(cert, []) }

  predicate CertsOk(certs: seq<seq<byte>>) {
    && (certs != [] ==> certs[0] != [])
    && forall i :: 1 <= i < |certs| ==> IsElement(certs[i])
  }

  predicate TailOk(t: Tail) {
    && (t.ageAdd.Some? ==> t.ageAdd.value < TWO_32)
    && t.signatureAlgorithm <= 0xffff && t.maxEarlyData < TWO_32 && t.authTimeout < TWO_32
  }

  predicate WellFormed(env: Env, s: SslSession) {
    HeadOk(env, s.head) && IdentityOk(s.identity) && ProofsOk(s.proofs) && CertsOk(s.certs) && TailOk(s.tail)
  }

  /** What of a session its serialization keeps. */
  function Kept(s: SslSession, forTicket: bool): SslSession {
    SslSession(if forTicket then s.head.(sessionId := []) else s.head,
               s.identity.(ticket := if forTicket then None else Stowed(s.identity.ticket)),
               s.proofs,
               SentCerts(s),
               s.tail.(alpn := Stowed(s.tail.alpn)))
  }

  // ----- Reading back what was written

  /** A field, the fields behind it, and what follows them all. */
  lemma Split(field: seq<byte>, fields: seq<byte>, more: seq<byte>)
    ensures (field + fields) + more == field + (fields + more)
    ensures |field| <= |field + fields| && |fields| <= |field + fields|
  {
  }

  lemma HeadRead(env: Env, h: Head, forTicket: bool, more: seq<byte>)
    requires HeadOk(env, h)
    ensures GetHead(env, PutHead(h, forTicket) + more) == Ok(if forTicket then h.(sessionId := []) else h, more)
  {
    hide Element, GetAsn1, PutUint64, GetUint64, BigEndian, GetUint;
    hide GetHead;
    var cipher, sessionId := BigEndian(h.cipher, 2), if forTicket then [] else h.sessionId;
    var time, timeout := Element(Context(1), PutUint64(h.time)), Element(Context(2), PutUint64(h.timeout));
    var t6 := time + timeout;
    var t5 := Element(OCTETS, h.masterKey) + t6;
    var t4 := Element(OCTETS, sessionId) + t5;
    var t3 := Element(OCTETS, cipher) + t4;
    var t2 := PutUint64(h.version) + t3;
    assert PutHead(h, forTicket) == PutUint64(VERSION) + t2;
    hide PutHead;
    Split(PutUint64(VERSION), t2, more);
    Split(PutUint64(h.version), t3, more);
    Split(Element(OCTETS, cipher), t4, more);
    Split(Element(OCTETS, sessionId), t5, more);
    Split(Element(OCTETS, h.masterKey), t6, more);
    Split(time, timeout, more);
    Uint64Read(VERSION, t2 + more);
    Uint64Read(h.version, t3 + more);
    ElementRead(OCTETS, cipher, t4 + more);
    ElementRead(OCTETS, sessionId, t5 + more);
    ElementRead(OCTETS, h.masterKey, t6 + more);
    TimeRead(Context(1), h.time, timeout + more);
    TimeRead(Context(2), h.timeout, more);
    HeadInOrder(env, h, sessionId, PutUint64(VERSION) + (t2 + more), t2 + more, t3 + more, t4 + more, t5 + more,
                t6 + more, timeout + more, more);
  }

  /** Read one after the other, the fields are the head. */
  lemma HeadInOrder(env: Env, h: Head, sessionId: seq<byte>, m1: seq<byte>, m2: seq<byte>, m3: seq<byte>,
                    m4: seq<byte>, m5: seq<byte>, m6: seq<byte>, m7: seq<byte>, more: seq<byte>)
    requires HeadOk(env, h) && |sessionId| <= MAX_SESSION_ID
    requires GetUint64(m1) == Ok(VERSION, m2) && GetUint64(m2) == Ok(h.version, m3)
    requires GetAsn1(m3, TagOf(OCTETS)) == Ok(BigEndian(h.cipher, 2), m4)
    requires GetAsn1(m4, TagOf(OCTETS)) == Ok(sessionId, m5) && GetAsn1(m5, TagOf(OCTETS)) == Ok(h.masterKey, m6)
    requires GetAsn1(m6, TagOf(Context(1))) == Ok(PutUint64(h.time), m7)
    requires GetAsn1(m7, TagOf(Context(2))) == Ok(PutUint64(h.timeout), more)
    requires GetUint64(PutUint64(h.time)) == Ok(h.time, []) && GetUint64(PutUint64(h.timeout)) == Ok(h.timeout, [])
    ensures GetHead(env, m1) == Ok(h.(sessionId := sessionId), more)
  {
    hide GetAsn1, GetUint64, PutUint64, BigEndian, GetUint, TagOf;
    CipherRead(h.cipher);
  }

  lemma CipherRead(cipher: nat)
    requires cipher < 0x1_0000
    ensures GetUint(BigEndian(cipher, 2), 2) == Ok(cipher, [])
  {
    Limits();
    GetUintInverse(cipher, 2, []);
    assert BigEndian(cipher, 2) + [] == BigEndian(cipher, 2);
  }

  lemma TimeRead(tag: byte, v: nat, more: seq<byte>)
    requires v < TWO_64 && tag % 32 != 31
    ensures GetAsn1(Element(tag, PutUint64(v)) + more, TagOf(tag)) == Ok(PutUint64(v), more)
    ensures GetUint64(PutUint64(v)) == Ok(v, [])
  {
    hide Element, GetAsn1, PutUint64, GetUint64;
    Uint64Short(v);
    ElementRead(tag, PutUint64(v), more);
    Uint64Read(v, []);
    assert PutUint64(v) + [] == PutUint64(v);
  }

  // ----- The optional fields one by one

  lemma FieldLeads(s: SslSession, forTicket: bool, n: nat)
    requires n <= LAST_FIELD
    ensures Leads(Field(s, forTicket, n), n)
  {
    hide PutOptional, PutOctets, PutOptionalUint64, PutOptionalBool, Leads, BigEndian, Joined;
    assert Leads([], n) by { NothingLeads(n); }
  }

  lemma NothingLeads(n: nat)
    requires n < 31
    ensures Leads([], n)
  {
  }

  /** What follows a field stands above it. */
  lemma {:induction false} FieldsAbove(s: SslSession, forTicket: bool, n: nat)
    ensures Above(Fields(s, forTicket, n + 1), n)
    decreases LAST_FIELD + 1 - n
  {
    hide Field;
    if n < LAST_FIELD {
      FieldsAbove(s, forTicket, n + 1);
      FieldLeads(s, forTicket, n + 1);
      AboveBefore(n, n + 1, Field(s, forTicket, n + 1), Fields(s, forTicket, n + 2));
    }
  }

  lemma {:induction false} FieldWithin(s: SslSession, forTicket: bool, m: nat, n: nat)
    requires m <= n <= LAST_FIELD
    ensures |Field(s, forTicket, n)| <= |Fields(s, forTicket, m)|
    decreases n - m
  {
    hide Field;
    if m < n {
      FieldWithin(s, forTicket, m + 1, n);
    }
  }

  /** The fields all have lengths that DER can express. */
  predicate Small(s: SslSession, forTicket: bool) { |Fields(s, forTicket, 3)| <= LIMIT }

  lemma FieldNext(s: SslSession, forTicket: bool, n: nat)
    requires 3 <= n <= LAST_FIELD && Small(s, forTicket)
    ensures Fields(s, forTicket, n) == Field(s, forTicket, n) + Fields(s, forTicket, n + 1)
    ensures Above(Fields(s, forTicket, n + 1), n) && |Field(s, forTicket, n)| <= LIMIT
  {
    hide Field, Above;
    FieldsAbove(s, forTicket, n);
    FieldWithin(s, forTicket, 3, n);
  }

  lemma AbsentField(s: SslSession, forTicket: bool, n: nat)
    requires 3 <= n <= LAST_FIELD && Small(s, forTicket) && Field(s, forTicket, n) == []
    ensures GetOptional(Fields(s, forTicket, n), n) == Ok(None, Fields(s, forTicket, n + 1))
    ensures Fields(s, forTicket, n) == Fields(s, forTicket, n + 1)
  {
    hide Field, Fields, Small, Above;
    FieldNext(s, forTicket, n);
    OptionalRead(n, None, Fields(s, forTicket, n + 1));
  }

  lemma OptionalField(s: SslSession, forTicket: bool, n: nat, contents: Option<seq<byte>>)
    requires 3 <= n <= LAST_FIELD && Small(s, forTicket) && Field(s, forTicket, n) == PutOptional(n, contents)
    ensures GetOptional(Fields(s, forTicket, n), n) == Ok(contents, Fields(s, forTicket, n + 1))
  {
    hide Field, Fields, Small, Above, PutOptional;
    FieldNext(s, forTicket, n);
    OptionalRead(n, contents, Fields(s, forTicket, n + 1));
  }

  lemma OctetsField(s: SslSession, forTicket: bool, n: nat, octets: Option<seq<byte>>)
    requires 3 <= n <= LAST_FIELD && Small(s, forTicket) && Field(s, forTicket, n) == PutOctets(n, octets)
    ensures GetOctets(Fields(s, forTicket, n), n) == Ok(octets, Fields(s, forTicket, n + 1))
  {
    hide Field, Fields, Small, Above, PutOctets;
    FieldNext(s, forTicket, n);
    OctetsRead(n, octets, Fields(s, forTicket, n + 1));
  }

  lemma Uint64Field(s: SslSession, forTicket: bool, n: nat, v: nat, default: nat)
    requires 3 <= n <= LAST_FIELD && Small(s, forTicket) && v < TWO_64
    requires Field(s, forTicket, n) == PutOptionalUint64(n, SomeIf(v != default, v))
    ensures GetOptionalUint64(Fields(s, forTicket, n), n, default) == Ok(v, Fields(s, forTicket, n + 1))
  {
    hide Field, Fields, Small, Above, PutOptionalUint64;
    FieldNext(s, forTicket, n);
    OptionalUint64Read(n, SomeIf(v != default, v), default, Fields(s, forTicket, n + 1));
  }

  lemma BoolField(s: SslSession, forTicket: bool, n: nat, b: bool, default: bool)
    requires 3 <= n <= LAST_FIELD && Small(s, forTicket)
    requires Field(s, forTicket, n) == PutOptionalBool(n, SomeIf(b != default, b))
    ensures GetOptionalBool(Fields(s, forTicket, n), n, default) == Ok(b, Fields(s, forTicket, n + 1))
  {
    hide Field, Fields, Small, Above, PutOptionalBool;
    FieldNext(s, forTicket, n);
    OptionalBoolRead(n, SomeIf(b != default, b), default, Fields(s, forTicket, n + 1));
  }

  // ----- Group by group

  function Leaf(certs: seq<seq<byte>>): Option<seq<byte>> { if certs != [] then Some(certs[0]) else None }

  lemma IdentityRead(s: SslSession, forTicket: bool)
    requires IdentityOk(s.identity) && Leaf(SentCerts(s)) != Some([]) && Small(s, forTicket)
    ensures GetIdentity(Fields(s, forTicket, 3))
            == Ok((Leaf(SentCerts(s)), Kept(s, forTicket).identity), Fields(s, forTicket, 13))
  {
    hide Fields, Small, PutOptional, GetOptional, PutOctets, GetOctets, PutOptionalUint64, GetOptionalUint64;
    var i := s.identity;
    OptionalField(s, forTicket, 3, Leaf(SentCerts(s)));
    OctetsField(s, forTicket, 4, Some(i.context));
    Uint64Field(s, forTicket, 5, i.verifyResult, 0);
    AbsentField(s, forTicket, 6);
    AbsentField(s, forTicket, 7);
    OctetsField(s, forTicket, 8, i.psk);
    Uint64Field(s, forTicket, 9, i.hint, 0);
    OctetsField(s, forTicket, 10, if forTicket then None else i.ticket);
    AbsentField(s, forTicket, 11);
    AbsentField(s, forTicket, 12);
  }

  lemma ProofsRead(s: SslSession, forTicket: bool)
    requires ProofsOk(s.proofs) && Small(s, forTicket)
    ensures GetProofs(Fields(s, forTicket, 13)) == Ok(s.proofs, Fields(s, forTicket, 19))
  {
    hide Fields, Small, PutOctets, GetOctets, PutOptionalUint64, GetOptionalUint64, PutOptionalBool, GetOptionalBool;
    var p := s.proofs;
    OctetsField(s, forTicket, 13, p.sha256);
    OctetsField(s, forTicket, 14, SomeIf(p.hash != [], p.hash));
    OctetsField(s, forTicket, 15, p.timestamps);
    OctetsField(s, forTicket, 16, p.ocsp);
    BoolField(s, forTicket, 17, p.extendedMasterSecret, false);
    Uint64Field(s, forTicket, 18, p.group, 0);
  }

  lemma ElementThenMore(cert: seq<byte>, more: seq<byte>)
    requires IsElement(cert)
    ensures GetAnyElement(cert + more) == Ok(cert, more)
  {
    hide GetAny;
    AnyThenMore(cert, more);
    assert GetAny(cert).rest + more == more;
    assert (cert + more)[..|cert|] == cert;
  }

  lemma {:induction false} ElementsRead(certs: seq<seq<byte>>)
    requires forall i :: 0 <= i < |certs| ==> IsElement(certs[i])
    ensures GetElements(Joined(certs)) == Some(certs)
  {
    hide GetAnyElement;
    if certs != [] {
      ElementsRead(certs[1..]);
      ElementThenMore(certs[0], Joined(certs[1..]));
      assert [certs[0]] + certs[1..] == certs;
    }
  }

  lemma ChainRead(s: SslSession, forTicket: bool)
    requires CertsOk(s.certs) && Small(s, forTicket)
    ensures GetChain(Leaf(SentCerts(s)), Fields(s, forTicket, 19)) == Ok(SentCerts(s), Fields(s, forTicket, 21))
  {
    hide Fields, Small, PutOptional, GetOptional, Joined, IsElement, GetElements;
    var certs := SentCerts(s);
    OptionalField(s, forTicket, 19, if |certs| >= 2 then Some(Joined(certs[1..])) else None);
    AbsentField(s, forTicket, 20);
    JoinedNone();
    if |certs| >= 2 {
      ElementsRead(certs[1..]);
      JoinedSome(certs[1..]);
      assert [certs[0]] + certs[1..] == certs;
    } else {
      ElementsRead([]);
      var leaf := if certs != [] then [certs[0]] else [];
      assert leaf + [] == certs;
    }
  }

  lemma JoinedNone()
    ensures Joined([]) == []
  {
  }

  lemma JoinedSome(certs: seq<seq<byte>>)
    requires certs != [] && IsElement(certs[0])
    ensures Joined(certs) != []
  {
  }

  lemma TailFields(s: SslSession, forTicket: bool)
    ensures var t := s.tail;
            && Field(s, forTicket, 21) ==
               PutOctets(21, if t.ageAdd.Some? then Some(BigEndian(t.ageAdd.value, 4)) else None)
            && Field(s, forTicket, 22) == PutOptionalBool(22, SomeIf(t.isServer != true, t.isServer))
            && Field(s, forTicket, 23) == PutOptionalUint64(23, SomeIf(t.signatureAlgorithm != 0, t.signatureAlgorithm))
            && Field(s, forTicket, 24) == PutOptionalUint64(24, SomeIf(t.maxEarlyData != 0, t.maxEarlyData))
            && Field(s, forTicket, 25) == PutOptionalUint64(25, SomeIf(t.authTimeout != s.head.timeout, t.authTimeout))
            && Field(s, forTicket, 26) == PutOctets(26, t.alpn)
  {
    hide PutOctets, PutOptionalUint64, PutOptionalBool, BigEndian;
  }

  lemma TailRead(s: SslSession, forTicket: bool)
    requires TailOk(s.tail) && Small(s, forTicket)
    ensures GetTail(Fields(s, forTicket, 21), s.head.timeout) == Ok(Kept(s, forTicket).tail, [])
  {
    hide Small, PutOctets, GetOctets, PutOptionalUint64, GetOptionalUint64, PutOptionalBool, GetOptionalBool, BigEndian,
      GetUint, GetTail, Field;
    TailFields(s, forTicket);
    assert Fields(s, forTicket, 27) == [];
    hide Fields;
    var t := s.tail;
    OctetsField(s, forTicket, 21, if t.ageAdd.Some? then Some(BigEndian(t.ageAdd.value, 4)) else None);
    AgeAddRead(t.ageAdd);
    BoolField(s, forTicket, 22, t.isServer, true);
    Uint64Field(s, forTicket, 23, t.signatureAlgorithm, 0);
    Uint64Field(s, forTicket, 24, t.maxEarlyData, 0);
    Uint64Field(s, forTicket, 25, t.authTimeout, s.head.timeout);
    OctetsField(s, forTicket, 26, t.alpn);
    TailInOrder(t, s.head.timeout, Fields(s, forTicket, 21), Fields(s, forTicket, 22), Fields(s, forTicket, 23),
                Fields(s, forTicket, 24), Fields(s, forTicket, 25), Fields(s, forTicket, 26));
  }

  /** Read one after the other, the fields are the tail. */
  lemma TailInOrder(t: Tail, timeout: nat, m21: seq<byte>, m22: seq<byte>, m23: seq<byte>, m24: seq<byte>,
                    m25: seq<byte>, m26: seq<byte>)
    requires TailOk(t)
    requires GetOctets(m21, 21) == Ok(if t.ageAdd.Some? then Some(BigEndian(t.ageAdd.value, 4)) else None, m22)
    requires t.ageAdd.Some? ==> GetUint(BigEndian(t.ageAdd.value, 4), 4) == Ok(t.ageAdd.value, [])
    requires GetOptionalBool(m22, 22, true) == Ok(t.isServer, m23)
    requires GetOptionalUint64(m23, 23, 0) == Ok(t.signatureAlgorithm, m24)
    requires GetOptionalUint64(m24, 24, 0) == Ok(t.maxEarlyData, m25)
    requires GetOptionalUint64(m25, 25, timeout) == Ok(t.authTimeout, m26)
    requires GetOctets(m26, 26) == Ok(t.alpn, [])
    ensures GetTail(m21, timeout) == Ok(t.(alpn := Stowed(t.alpn)), [])
  {
    hide GetOptionalBool, GetOctets, GetOptionalUint64, BigEndian, GetUint;
  }

  lemma AgeAddRead(ageAdd: Option<nat>)
    requires ageAdd.Some? ==> ageAdd.value < TWO_32
    ensures ageAdd.Some? ==> GetUint(BigEndian(ageAdd.value, 4), 4) == Ok(ageAdd.value, [])
  {
    Limits();
    if ageAdd.Some? {
      GetUintInverse(ageAdd.value, 4, []);
      assert BigEndian(ageAdd.value, 4) + [] == BigEndian(ageAdd.value, 4);
    }
  }

  /** What is parsed from a serialized session is the session, but for what is meant to be left out. */
  lemma ParseInvertsSerialize(env: Env, s: SslSession, forTicket: bool, rest: seq<byte>)
    requires WellFormed(env, s) && env.certsOk(SentCerts(s)) && Serialize(s, forTicket).Some?
    ensures Parse(env, Serialize(s, forTicket).value + rest) == Ok(Kept(s, forTicket), rest)
  {
    hide PutHead, GetHead, GetIdentity, GetProofs, GetChain, GetTail, Fields, Field;
    hide Element, GetAsn1, HeadOk, IdentityOk, ProofsOk, TailOk, IsElement;
    TailRead(s, forTicket);
    ChainRead(s, forTicket);
    ProofsRead(s, forTicket);
    IdentityRead(s, forTicket);
    HeadRead(env, s.head, forTicket, Fields(s, forTicket, 3));
    ElementRead(SEQUENCE, PutBody(s, forTicket), rest);
  }

  /** Nothing is lost exactly where there is nothing to leave out and no string that is empty. */
  lemma LosesNothing(s: SslSession, forTicket: bool)
    ensures Kept(s, forTicket) == s <==>
            && (forTicket ==> s.head.sessionId == [] && s.identity.ticket.None?)
            && (s.proofs.sha256.Some? ==> s.certs == [])
            && s.identity.ticket != Some([]) && s.tail.alpn != Some([])
  {
  }
}
