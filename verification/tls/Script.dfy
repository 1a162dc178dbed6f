/**
  What a TLS 1.0 to 1.2 handshake consists of (RFC 5246 section 7.3): the slots of a full
  and of a resumed handshake in order, which of them the agreed terms fill, and the
  messages and ChangeCipherSpec records that fill them.
 */
module Script {
  import opened Wrappers
  import opened Bits

  datatype MsgType =
    | MtClientHello | MtServerHello | MtCertificate | MtCertificateStatus | MtServerKeyExchange
    | MtCertificateRequest | MtServerHelloDone | MtClientKeyExchange | MtCertificateVerify
    | MtNextProto | MtNewSessionTicket | MtFinished | MtOther(code: nat)

  datatype Msg = Msg(typ: MsgType, body: seq<byte>)

  /** What a side receives, in order: handshake messages and ChangeCipherSpec records. */
  datatype Item = Hs(msg: Msg) | Ccs

  /** The handshake messages among some items. */
  function Msgs(items: seq<Item>): seq<Msg> {
    if items == [] then [] else (if items[0].Hs? then [items[0].msg] else []) + Msgs(items[1..])
  }

  // ----- Terms

  /** What the ServerHello tells the client. */
  datatype HelloTerms = HelloTerms(resumed: bool, certAuth: bool, needsSke: bool, statusExpected: bool,
                                   ticket: bool, nextProto: bool)

  /** What the server has decided; some of it the client only finds out message by message. */
  datatype Terms = Terms(hello: HelloTerms, sendsSke: bool, statusSent: bool, certRequest: bool) {
    predicate WellFormed() {
      && (hello.needsSke ==> sendsSke)
      && (statusSent ==> hello.statusExpected && hello.certAuth)
      && (certRequest ==> hello.certAuth)
    }
  }

  /**
    The parts of the handshake the model leaves open: the Finished computation over a
    transcript, the contents of messages, and what they are understood to say.
   */
  datatype Env = Env(
    mac: (seq<Msg>, bool) -> seq<byte>,
    helloTerms: seq<byte> -> HelloTerms,
    hasCerts: seq<byte> -> bool,
    clientBody: Slot -> seq<byte>,
    serverBody: Slot -> seq<byte>,
    falseStart: bool)

  // ----- Slots

  datatype Slot =
    | ClientHello | ServerHello | ServerCert | CertStatus | ServerKx | CertRequest | ServerDone
    | ClientCert | ClientKx | CertVerify | ClientCcs | NextProto | ClientFinished
    | NewTicket | ServerCcs | ServerFinished

  predicate FromServer(s: Slot) {
    s.ServerHello? || s.ServerCert? || s.CertStatus? || s.ServerKx? || s.CertRequest? || s.ServerDone?
    || s.NewTicket? || s.ServerCcs? || s.ServerFinished?
  }

  predicate IsCcs(s: Slot) { s.ClientCcs? || s.ServerCcs? }

  function TypeOf(s: Slot): MsgType
    requires !IsCcs(s)
  {
    match s
    case ClientHello => MtClientHello
    case ServerHello => MtServerHello
    case ServerCert => MtCertificate
    case CertStatus => MtCertificateStatus
    case ServerKx => MtServerKeyExchange
    case CertRequest => MtCertificateRequest
    case ServerDone => MtServerHelloDone
    case ClientCert => MtCertificate
    case ClientKx => MtClientKeyExchange
    case CertVerify => MtCertificateVerify
    case NextProto => MtNextProto
    case ClientFinished => MtFinished
    case NewTicket => MtNewSessionTicket
    case ServerFinished => MtFinished
  }

  /** The terms a whole run is under: the server's, and whether the client has a certificate. */
  datatype Deal = Deal(terms: Terms, clientCert: bool)

  /** Whether a slot is filled. */
  predicate Present(d: Deal, s: Slot) {
    match s
    case ServerCert => d.terms.hello.certAuth
    case CertStatus => d.terms.statusSent
    case ServerKx => d.terms.sendsSke
    case CertRequest => d.terms.certRequest
    case ClientCert => d.terms.certRequest
    case CertVerify => d.terms.certRequest && d.clientCert
    case NextProto => d.terms.hello.nextProto
    case NewTicket => d.terms.hello.ticket
    case _ => true
  }

  /** The slots of a handshake in order; a resumed one is shorter, and the server finishes first. */
  function SlotAt(resumed: bool, i: nat): Slot {
    if resumed then
      match i
      case 0 => ClientHello
      case 1 => ServerHello
      case 2 => NewTicket
      case 3 => ServerCcs
      case 4 => ServerFinished
      case 5 => ClientCcs
      case 6 => NextProto
      case _ => ClientFinished
    else
      match i
      case 0 => ClientHello
      case 1 => ServerHello
      case 2 => ServerCert
      case 3 => CertStatus
      case 4 => ServerKx
      case 5 => CertRequest
      case 6 => ServerDone
      case 7 => ClientCert
      case 8 => ClientKx
      case 9 => CertVerify
      case 10 => ClientCcs
      case 11 => NextProto
      case 12 => ClientFinished
      case 13 => NewTicket
      case 14 => ServerCcs
      case _ => ServerFinished
  }

  function Length(resumed: bool): nat { if resumed then 8 else 16 }

  /** The filled slots from the i-th on. */
  function Rest(d: Deal, i: nat): seq<Slot>
    decreases Length(d.terms.hello.resumed) - i
  {
    var resumed := d.terms.hello.resumed;
    if i >= Length(resumed) then []
    else (if Present(d, SlotAt(resumed, i)) then [SlotAt(resumed, i)] else []) + Rest(d, i + 1)
  }

  /** The i-th slot is next if it is filled, and does not matter otherwise. */
  predicate NextIs(d: Deal, i: nat, filled: bool, slot: Slot) {
    if filled then
      Rest(d, i) == [slot] + Rest(d, i + 1) && Rest(d, i) != [] && Rest(d, i)[0] == slot
      && Rest(d, i)[1..] == Rest(d, i + 1)
    else Rest(d, i) == Rest(d, i + 1)
  }

  lemma RestFrom(d: Deal, i: nat)
    requires i < Length(d.terms.hello.resumed)
    ensures var slot := SlotAt(d.terms.hello.resumed, i);
            NextIs(d, i, Present(d, slot), slot)
  {
  }

  lemma RestEnd(d: Deal, i: nat)
    requires i >= Length(d.terms.hello.resumed)
    ensures Rest(d, i) == []
  {
  }

  // ----- The slots by name

  lemma HelloSlots(d: Deal)
    ensures NextIs(d, 0, true, ClientHello) && NextIs(d, 1, true, ServerHello)
  {
    hide Rest, NextIs;
    RestFrom(d, 0);
    RestFrom(d, 1);
  }

  lemma ServerFlightSlots(d: Deal)
    requires !d.terms.hello.resumed
    ensures NextIs(d, 2, d.terms.hello.certAuth, ServerCert) && NextIs(d, 3, d.terms.statusSent, CertStatus)
    ensures NextIs(d, 4, d.terms.sendsSke, ServerKx) && NextIs(d, 5, d.terms.certRequest, CertRequest)
    ensures NextIs(d, 6, true, ServerDone)
  {
    hide Rest, NextIs;
    RestFrom(d, 2);
    RestFrom(d, 3);
    RestFrom(d, 4);
    RestFrom(d, 5);
    RestFrom(d, 6);
  }

  /** Which message comes first from each place behind the server's certificate. */
  lemma ServerFlightHeads(d: Deal)
    requires !d.terms.hello.resumed
    ensures Rest(d, 6) != [] && Rest(d, 6)[0] == ServerDone
    ensures Rest(d, 5) != [] && Rest(d, 5)[0] == if d.terms.certRequest then CertRequest else ServerDone
    ensures Rest(d, 4) != [] && Rest(d, 4)[0] == if d.terms.sendsSke then ServerKx else Rest(d, 5)[0]
  {
    hide Rest;
    ServerFlightSlots(d);
  }

  lemma ClientFlightSlots(d: Deal)
    requires !d.terms.hello.resumed
    ensures NextIs(d, 7, d.terms.certRequest, ClientCert) && NextIs(d, 8, true, ClientKx)
    ensures NextIs(d, 9, d.terms.certRequest && d.clientCert, CertVerify)
  {
    hide Rest, NextIs;
    RestFrom(d, 7);
    RestFrom(d, 8);
    RestFrom(d, 9);
  }

  /** The client's last three slots, from wherever they are. */
  lemma ClientFinishSlots(d: Deal)
    ensures var i := if d.terms.hello.resumed then 5 else 10;
            && NextIs(d, i, true, ClientCcs) && NextIs(d, i + 1, d.terms.hello.nextProto, NextProto)
            && NextIs(d, i + 2, true, ClientFinished)
  {
    hide Rest, NextIs;
    var i := if d.terms.hello.resumed then 5 else 10;
    RestFrom(d, i);
    RestFrom(d, i + 1);
    RestFrom(d, i + 2);
  }

  lemma ServerFinishSlots(d: Deal)
    ensures var i := if d.terms.hello.resumed then 2 else 13;
            && NextIs(d, i, d.terms.hello.ticket, NewTicket) && NextIs(d, i + 1, true, ServerCcs)
            && NextIs(d, i + 2, true, ServerFinished)
  {
    hide Rest, NextIs;
    var i := if d.terms.hello.resumed then 2 else 13;
    RestFrom(d, i);
    RestFrom(d, i + 1);
    RestFrom(d, i + 2);
  }

  // ----- Items in slots

  predicate Fits(item: Item, s: Slot) {
    if IsCcs(s) then item.Ccs? else item.Hs? && item.msg.typ == TypeOf(s)
  }

  predicate AllFit(items: seq<Item>, slots: seq<Slot>) {
    |items| == |slots| && forall i :: 0 <= i < |items| ==> Fits(items[i], slots[i])
  }

  lemma AllFitConcat(a: seq<Item>, s: seq<Slot>, b: seq<Item>, t: seq<Slot>)
    requires AllFit(a, s) && AllFit(b, t)
    ensures AllFit(a + b, s + t)
  {
  }

  lemma {:induction false} MsgsConcat(a: seq<Item>, b: seq<Item>)
    ensures Msgs(a + b) == Msgs(a) + Msgs(b)
  {
    if a == [] {
      assert a + b == b;
    } else {
      assert (a + b)[1..] == a[1..] + b && (a + b)[0] == a[0];
      MsgsConcat(a[1..], b);
    }
  }

  lemma MsgsOne(item: Item)
    ensures Msgs([item]) == if item.Hs? then [item.msg] else []
  {
    assert [item][1..] == [];
  }

  lemma {:induction false} MsgsItems(msgs: seq<Msg>)
    ensures Msgs(Items(msgs)) == msgs
  {
    if msgs != [] {
      assert Items(msgs)[1..] == Items(msgs[1..]);
      MsgsItems(msgs[1..]);
    }
  }

  /** What a side notes down on its way. */
  datatype Mark = ReadCipherOn | WriteCipherOn | FinishedVerified | FinishedSent

  /** Why the machine returned to its caller, or that it may go on. */
  datatype Wait = WaitOk | WaitMessage | WaitServerHello | WaitCcs | WaitFlush | WaitEarlyReturn | WaitError

  predicate Reading(w: Wait) { w.WaitMessage? || w.WaitServerHello? || w.WaitCcs? }

  const WROTE: seq<Mark> := [WriteCipherOn, FinishedSent]
  const READ: seq<Mark> := [ReadCipherOn, FinishedVerified]

  lemma ReadInTwo(log: seq<Mark>)
    ensures log + [ReadCipherOn] + [FinishedVerified] == log + READ
    ensures [] + log == log && [] + READ == READ
  {
  }

  function Items(msgs: seq<Msg>): seq<Item> { seq(|msgs|, i requires 0 <= i < |msgs| => Hs(msgs[i])) }

  /** The handshake message at the front of the input. */
  function Peek(input: seq<Item>): Option<Msg> {
    if input != [] && input[0].Hs? then Some(input[0].msg) else None
  }

  // ----- Honest contents

  /**
    Items that one side sent and the other, with transcript `base`, has not read yet: a
    Finished is the one over the transcript at its place, which is what the sender noted.
   */
  predicate FinishedHonest(env: Env, server: bool, base: seq<Msg>, over: Option<seq<Msg>>, items: seq<Item>) {
    forall j :: 0 <= j < |items| && items[j].Hs? && items[j].msg.typ == MtFinished ==>
      && items[j].msg.body == env.mac(base + Msgs(items[..j]), server)
      && over == Some(base + Msgs(items[..j]))
  }

  predicate HasFinished(items: seq<Item>) {
    exists j :: 0 <= j < |items| && items[j].Hs? && items[j].msg.typ == MtFinished
  }

  /** A Finished behind items without one, over all of them. */
  lemma HonestLast(env: Env, server: bool, base: seq<Msg>, lead: seq<Item>, finished: Msg)
    requires !HasFinished(lead) && finished == Msg(MtFinished, env.mac(base + Msgs(lead), server))
    ensures FinishedHonest(env, server, base, Some(base + Msgs(lead)), lead + [Hs(finished)])
  {
    hide Msgs;
    var items := lead + [Hs(finished)];
    assert forall j :: 0 <= j < |lead| ==> items[j] == lead[j];
    assert items[..|lead|] == lead;
  }

  /** What a last flight is in the transcript: an optional message, the cipher change, and Finished. */
  lemma MsgsOfLast(before: seq<Item>, msgs: seq<Msg>, after: seq<Item>, finished: Msg)
    requires Msgs(before) == [] && Msgs(after) == []
    ensures Msgs(before + Items(msgs) + after) == msgs
    ensures Msgs(before + Items(msgs) + after + [Hs(finished)]) == msgs + [finished]
  {
    hide Msgs, Items;
    MsgsItems(msgs);
    MsgsOne(Hs(finished));
    MsgsConcat(before, Items(msgs));
    MsgsConcat(before + Items(msgs), after);
    MsgsConcat(before + Items(msgs) + after, [Hs(finished)]);
    assert [] + msgs + [] == msgs;
  }

  /** Reading the first item moves it into the transcript. */
  lemma HonestAfterRead(env: Env, server: bool, base: seq<Msg>, over: Option<seq<Msg>>, items: seq<Item>)
    requires items != [] && FinishedHonest(env, server, base, over, items)
    ensures FinishedHonest(env, server, base + Msgs([items[0]]), over, items[1..])
  {
    hide Msgs;
    var base' := base + Msgs([items[0]]);
    forall j | 0 <= j < |items[1..]| && items[1..][j].Hs? && items[1..][j].msg.typ == MtFinished
      ensures items[1..][j].msg.body == env.mac(base' + Msgs(items[1..][..j]), server)
      ensures over == Some(base' + Msgs(items[1..][..j]))
    {
      assert items[..j + 1] == [items[0]] + items[1..][..j];
      MsgsConcat([items[0]], items[1..][..j]);
      assert base' + Msgs(items[1..][..j]) == base + Msgs(items[..j + 1]);
      assert items[j + 1] == items[1..][j];
    }
  }

  /** What is sent on top is honest over everything before it. */
  lemma {:induction false} HonestAfterSend(env: Env, server: bool, base: seq<Msg>, over: Option<seq<Msg>>, items: seq<Item>,
                        over': Option<seq<Msg>>, out: seq<Item>)
    requires FinishedHonest(env, server, base, over, items)
    requires FinishedHonest(env, server, base + Msgs(items), over', out)
    requires over' == over || !HasFinished(items)
    ensures FinishedHonest(env, server, base, over', items + out)
  {
    hide Msgs;
    var all := items + out;
    forall j | 0 <= j < |all| && all[j].Hs? && all[j].msg.typ == MtFinished
      ensures all[j].msg.body == env.mac(base + Msgs(all[..j]), server)
      ensures over' == Some(base + Msgs(all[..j]))
    {
      if j < |items| {
        assert all[..j] == items[..j] && all[j] == items[j];
      } else {
        var i := j - |items|;
        assert all[..j] == items + out[..i] && all[j] == out[i];
        MsgsConcat(items, out[..i]);
        assert base + (Msgs(items) + Msgs(out[..i])) == (base + Msgs(items)) + Msgs(out[..i]);
      }
    }
  }
}
