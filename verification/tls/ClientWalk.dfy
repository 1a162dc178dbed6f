/**
  The client walks the script: from any state, under the agreed terms and fed with what the
  script has next, a step reads or sends exactly the next filled slots.
 */
module ClientWalk {
  import opened Wrappers
  import opened Script
  import opened ClientMachine

  /** Where in the script's order a state stands. */
  function Index(s: State, resumed: bool): nat {
    match s
    case StartConnect => 0
    case EnterEarlyData => 1
    case ReadServerHello => 1
    case ReadServerCertificate => 2
    case ReadCertificateStatus => 3
    case VerifyServerCertificate => 4
    case ReadServerKeyExchange => 4
    case ReadCertificateRequest => 5
    case ReadServerHelloDone => 6
    case SendClientCertificate => 7
    case SendClientKeyExchange => 8
    case SendClientCertificateVerify => 9
    case SendClientFinished => if resumed then 5 else 10
    case FinishFlight => if resumed then 8 else 13
    case ReadSessionTicket => if resumed then 2 else 13
    case ProcessChangeCipherSpec => if resumed then 3 else 14
    case ReadServerFinished => if resumed then 4 else 15
    case FinishClientHandshake => if resumed then 8 else 16
    case Done => if resumed then 8 else 16
  }

  predicate Unlearned(s: State) { s.StartConnect? || s.EnterEarlyData? || s.ReadServerHello? }

  /** The client only waits for a message where it has to read one. */
  predicate WaitsRightly(c: Client) {
    && (c.wait == WaitServerHello ==> c.state == ReadServerHello)
    && (c.wait == WaitMessage ==>
          || c.state.ReadServerKeyExchange? || c.state.ReadServerHelloDone? || c.state.ReadServerFinished?
          || (c.state.ReadServerCertificate? && c.terms.certAuth)
          || (c.state.ReadCertificateStatus? && c.terms.statusExpected)
          || (c.state.ReadCertificateRequest? && c.terms.certAuth)
          || (c.state.ReadSessionTicket? && c.terms.ticket))
  }

  /** The client knows of the deal what it must by now. */
  predicate Following(c: Client, d: Deal) {
    && c.wait != WaitError && Sane(c) && WaitsRightly(c)
    && (!Unlearned(c.state) ==> c.terms == d.terms.hello)
    && (BeforeFinished(c.state) && !Unlearned(c.state) ==> !d.terms.hello.resumed)
    && c.certRequested == (d.terms.certRequest && !d.terms.hello.resumed && Rank(c.state, d.terms.hello.resumed) <= 10)
  }

  function Ahead(c: Client, d: Deal): (rest: seq<Slot>) {
    Rest(d, Index(c.state, d.terms.hello.resumed))
  }

  /** The input starts with what the script has next, if it has anything. */
  predicate Served(env: Env, c: Client, d: Deal, input: seq<Item>) {
    input != [] ==>
      var rest := Ahead(c, d);
      && rest != [] && FromServer(rest[0]) && Fits(input[0], rest[0])
      && (rest[0].ServerHello? ==> env.helloTerms(input[0].msg.body) == d.terms.hello)
      && (rest[0].ServerFinished? ==> input[0].msg.body == env.mac(c.transcript, true))
  }

  predicate FromClient(slots: seq<Slot>) { forall s :: s in slots ==> !FromServer(s) }

  /** What a step of the walk must be. */
  predicate Walks(c: Client, d: Deal, input: seq<Item>, t: Turn, sent: seq<Slot>) {
    && Following(t.c, d)
    && if t.consumed == 0 then
         && AllFit(t.out, sent) && FromClient(sent)
         && Ahead(c, d) == sent + Ahead(t.c, d)
         && t.c.transcript == c.transcript + Msgs(t.out)
       else
         && t.consumed == 1 && input != [] && t.out == [] && sent == []
         && Ahead(c, d) != [] && Ahead(c, d)[1..] == Ahead(t.c, d)
         && t.c.transcript == c.transcript + Msgs([input[0]])
  }

  // ----- The three ways to walk

  lemma Skips(c: Client, d: Deal, input: seq<Item>, t: Turn)
    requires Following(t.c, d) && t.consumed == 0 && t.out == []
    requires Ahead(t.c, d) == Ahead(c, d) && t.c.transcript == c.transcript
    ensures Walks(c, d, input, t, [])
  {
    hide Following, Ahead;
  }

  lemma Reads(c: Client, d: Deal, input: seq<Item>, t: Turn)
    requires Following(t.c, d) && t.consumed == 1 && t.out == []
    requires input != [] && input[0].Hs? && t.c.transcript == c.transcript + [input[0].msg]
    requires Ahead(c, d) != [] && Ahead(c, d)[1..] == Ahead(t.c, d)
    ensures Walks(c, d, input, t, [])
  {
    hide Following, Ahead;
    MsgsOne(input[0]);
  }

  lemma Sends(c: Client, d: Deal, input: seq<Item>, t: Turn, m: Msg, slot: Slot)
    requires Following(t.c, d) && t.consumed == 0 && t.out == [Hs(m)]
    requires Fits(Hs(m), slot) && !FromServer(slot) && t.c.transcript == c.transcript + [m]
    requires Ahead(c, d) == [slot] + Ahead(t.c, d)
    ensures Walks(c, d, input, t, [slot])
  {
    hide Following, Ahead, Fits;
    MsgsOne(Hs(m));
  }

  // ----- State by state

  /** The client has what it waits for. */
  predicate Ready(c: Client, input: seq<Item>) { Reading(c.wait) ==> Peek(input).Some? }

  lemma WalkHello(env: Env, d: Deal, c: Client, input: seq<Item>) returns (sent: seq<Slot>)
    requires d.terms.WellFormed() && Following(c, d) && Served(env, c, d, input) && Unlearned(c.state)
    requires Ready(c, input)
    ensures Walks(c, d, input, Do(env, c, input), sent)
  {
    hide Walks, DoServerFlight, DoAfter, Rest, SlotAt, Present;
    HelloSlots(d);
    var t := Do(env, c, input);
    sent := [];
    match c.state {
      case StartConnect =>
        sent := [ClientHello];
        Sends(c, d, input, t, Msg(MtClientHello, env.clientBody(ClientHello)), ClientHello);
      case EnterEarlyData => Skips(c, d, input, t);
      case ReadServerHello => WalkServerHello(env, d, c, input);
    }
  }

  lemma WalkServerHello(env: Env, d: Deal, c: Client, input: seq<Item>)
    requires Following(c, d) && Served(env, c, d, input) && Ready(c, input) && c.state == ReadServerHello
    ensures Walks(c, d, input, Do(env, c, input), [])
  {
    hide Walks, DoServerFlight, DoAfter, Rest, SlotAt, Present;
    HelloSlots(d);
    var t := Do(env, c, input);
    if input == [] {
      Skips(c, d, input, t);
    } else {
      Reads(c, d, input, t);
    }
  }

  lemma WalkCertificate(env: Env, d: Deal, c: Client, input: seq<Item>) returns (sent: seq<Slot>)
    requires d.terms.WellFormed() && Following(c, d) && Served(env, c, d, input) && Ready(c, input)
    requires c.state.ReadServerCertificate?
    ensures Walks(c, d, input, Do(env, c, input), sent)
  {
    hide Walks, Do, Rest, LogAt;
    FlightIsDo(env, c, input);
    RestFrom(d, Index(c.state, d.terms.hello.resumed));
    var t := Do(env, c, input);
    sent := [];
    if t.consumed == 1 {
      Reads(c, d, input, t);
    } else {
      Skips(c, d, input, t);
    }
  }

  lemma WalkStatus(env: Env, d: Deal, c: Client, input: seq<Item>) returns (sent: seq<Slot>)
    requires d.terms.WellFormed() && Following(c, d) && Served(env, c, d, input) && Ready(c, input)
    requires c.state.ReadCertificateStatus?
    ensures Walks(c, d, input, Do(env, c, input), sent)
  {
    hide Walks, Do, Rest, LogAt;
    FlightIsDo(env, c, input);
    ServerFlightHeads(d);
    RestFrom(d, Index(c.state, d.terms.hello.resumed));
    var t := Do(env, c, input);
    sent := [];
    if t.consumed == 1 {
      Reads(c, d, input, t);
    } else {
      Skips(c, d, input, t);
    }
  }

  lemma {:induction false} WalkVerify(env: Env, d: Deal, c: Client, input: seq<Item>) returns (sent: seq<Slot>)
    requires d.terms.WellFormed() && Following(c, d) && Ready(c, input)
    requires c.state.VerifyServerCertificate?
    ensures Walks(c, d, input, Do(env, c, input), sent)
  {
    hide Walks, Do, Rest, LogAt;
    FlightIsDo(env, c, input);
    RestFrom(d, Index(c.state, d.terms.hello.resumed));
    var t := Do(env, c, input);
    sent := [];
    Skips(c, d, input, t);
  }

  lemma WalkKeyExchange(env: Env, d: Deal, c: Client, input: seq<Item>) returns (sent: seq<Slot>)
    requires d.terms.WellFormed() && Following(c, d) && Served(env, c, d, input) && Ready(c, input)
    requires c.state.ReadServerKeyExchange?
    ensures Walks(c, d, input, Do(env, c, input), sent)
  {
    hide Walks, Do, Rest, LogAt;
    FlightIsDo(env, c, input);
    ServerFlightHeads(d);
    RestFrom(d, Index(c.state, d.terms.hello.resumed));
    var t := Do(env, c, input);
    sent := [];
    if t.consumed == 1 {
      Reads(c, d, input, t);
    } else {
      Skips(c, d, input, t);
    }
  }

  lemma WalkCertificateRequest(env: Env, d: Deal, c: Client, input: seq<Item>) returns (sent: seq<Slot>)
    requires d.terms.WellFormed() && Following(c, d) && Served(env, c, d, input) && Ready(c, input)
    requires c.state.ReadCertificateRequest?
    ensures Walks(c, d, input, Do(env, c, input), sent)
  {
    hide Walks, Do, Rest, LogAt;
    FlightIsDo(env, c, input);
    ServerFlightHeads(d);
    RestFrom(d, Index(c.state, d.terms.hello.resumed));
    var t := Do(env, c, input);
    sent := [];
    if t.consumed == 1 {
      Reads(c, d, input, t);
    } else {
      Skips(c, d, input, t);
    }
  }

  lemma WalkHelloDone(env: Env, d: Deal, c: Client, input: seq<Item>) returns (sent: seq<Slot>)
    requires d.terms.WellFormed() && Following(c, d) && Served(env, c, d, input) && Ready(c, input)
    requires c.state.ReadServerHelloDone?
    ensures Walks(c, d, input, Do(env, c, input), sent)
  {
    hide Walks, Do, Rest, LogAt;
    FlightIsDo(env, c, input);
    RestFrom(d, Index(c.state, d.terms.hello.resumed));
    var t := Do(env, c, input);
    sent := [];
    if t.consumed == 1 {
      Reads(c, d, input, t);
    } else {
      Skips(c, d, input, t);
    }
  }

  lemma {:induction false} WalkClientCertificate(env: Env, d: Deal, c: Client, input: seq<Item>) returns (sent: seq<Slot>)
    requires d.terms.WellFormed() && Following(c, d) && Ready(c, input)
    requires c.state.SendClientCertificate?
    ensures Walks(c, d, input, Do(env, c, input), sent)
  {
    hide Walks, DoAfter, DoServerFlight, Rest;
    RestFrom(d, Index(c.state, d.terms.hello.resumed));
    var t := Do(env, c, input);
    sent := if t.out == [] then [] else [ClientCert];
    if t.out == [] {
      Skips(c, d, input, t);
    } else {
      Sends(c, d, input, t, t.out[0].msg, ClientCert);
    }
  }

  lemma {:induction false} WalkClientKeyExchange(env: Env, d: Deal, c: Client, input: seq<Item>) returns (sent: seq<Slot>)
    requires d.terms.WellFormed() && Following(c, d) && Ready(c, input)
    requires c.state.SendClientKeyExchange?
    ensures Walks(c, d, input, Do(env, c, input), sent)
  {
    hide Walks, DoAfter, DoServerFlight, Rest;
    RestFrom(d, Index(c.state, d.terms.hello.resumed));
    var t := Do(env, c, input);
    sent := if t.out == [] then [] else [ClientKx];
    if t.out == [] {
      Skips(c, d, input, t);
    } else {
      Sends(c, d, input, t, t.out[0].msg, ClientKx);
    }
  }

  lemma {:induction false} WalkCertificateVerify(env: Env, d: Deal, c: Client, input: seq<Item>) returns (sent: seq<Slot>)
    requires d.terms.WellFormed() && Following(c, d) && Ready(c, input)
    requires c.state.SendClientCertificateVerify? && env.hasCerts(env.clientBody(ClientCert)) == d.clientCert
    ensures Walks(c, d, input, Do(env, c, input), sent)
  {
    hide Walks, DoAfter, DoServerFlight, Rest;
    RestFrom(d, Index(c.state, d.terms.hello.resumed));
    var t := Do(env, c, input);
    sent := if t.out == [] then [] else [CertVerify];
    if t.out == [] {
      Skips(c, d, input, t);
    } else {
      Sends(c, d, input, t, t.out[0].msg, CertVerify);
    }
  }

  lemma WalkTicket(env: Env, d: Deal, c: Client, input: seq<Item>) returns (sent: seq<Slot>)
    requires d.terms.WellFormed() && Following(c, d) && Served(env, c, d, input) && Ready(c, input)
    requires c.state.ReadSessionTicket?
    ensures Walks(c, d, input, Do(env, c, input), sent)
  {
    hide Walks, DoBefore, SendFinished, CheckFinished, Rest;
    RestFrom(d, Index(c.state, d.terms.hello.resumed));
    var t := Do(env, c, input);
    sent := [];
    if t.consumed == 1 {
      Reads(c, d, input, t);
    } else {
      Skips(c, d, input, t);
    }
  }

  lemma WalkQuietly(env: Env, d: Deal, c: Client, input: seq<Item>) returns (sent: seq<Slot>)
    requires d.terms.WellFormed() && Following(c, d) && Ready(c, input)
    requires c.state.FinishFlight? || c.state.FinishClientHandshake?
    ensures Walks(c, d, input, Do(env, c, input), sent)
  {
    hide Walks, DoBefore, SendFinished, CheckFinished, Rest, SlotAt, Present;
    sent := [];
    Skips(c, d, input, Do(env, c, input));
  }

  /** Behind the server's Finished comes what the client does next. */
  lemma FinishedWalksOn(d: Deal, c: Client)
    requires Following(c, d) && c.state.ReadServerFinished?
    ensures var c' := c.(state := if c.terms.resumed then SendClientFinished else FinishClientHandshake, wait := WaitOk);
            && Ahead(c, d) != [] && Ahead(c, d)[1..] == Ahead(c', d)
            && forall log, transcript :: Following(c'.(log := log, transcript := transcript), d)
  {
    hide Rest;
    ServerFinishSlots(d);
  }

  lemma WaitingStays(d: Deal, c: Client)
    requires Following(c, d) && c.state.ReadServerFinished?
    ensures Following(c.(wait := WaitMessage), d)
  {
  }

  lemma {:induction false} WalkServerFinished(env: Env, d: Deal, c: Client, input: seq<Item>) returns (sent: seq<Slot>)
    requires d.terms.WellFormed() && Following(c, d) && Served(env, c, d, input) && Ready(c, input)
    requires c.state.ReadServerFinished?
    ensures Walks(c, d, input, Do(env, c, input), sent)
  {
    hide Walks, Do, CheckFinished, Following, Rest, Fits;
    ReadsFinished(env, c, input);
    FinishedWalksOn(d, c);
    var t := Do(env, c, input);
    sent := [];
    if input != [] {
      FinishedChecks(env, d, c, input);
      Reads(c, d, input, t);
    } else {
      WaitingStays(d, c);
      Skips(c, d, input, t);
    }
  }

  /** The Finished the script serves is the one the client computes. */
  lemma FinishedChecks(env: Env, d: Deal, c: Client, input: seq<Item>)
    requires Following(c, d) && Served(env, c, d, input) && c.state.ReadServerFinished? && input != []
    ensures input[0].Hs? && CheckFinished(env, c, input[0].msg) ==
            Took(c.(log := c.log + [FinishedVerified]), input[0].msg,
                 if c.terms.resumed then SendClientFinished else FinishClientHandshake)
  {
    hide Rest;
    RestFrom(d, Index(c.state, d.terms.hello.resumed));
  }

  /** The slots of the client's last messages, behind its cipher change. */
  function LastSlots(nextProto: bool): seq<Slot> {
    [ClientCcs] + (if nextProto then [NextProto] else []) + [ClientFinished]
  }

  lemma LastSlotsAhead(d: Deal)
    ensures var i := if d.terms.hello.resumed then 5 else 10;
            Rest(d, i) == LastSlots(d.terms.hello.nextProto) + Rest(d, i + 3)
  {
    hide Rest, SlotAt, Present;
    ClientFinishSlots(d);
  }

  /** The message before the client's Finished, if there is one. */
  function Proto(env: Env, c: Client): seq<Msg> {
    if c.terms.nextProto then [Msg(MtNextProto, env.clientBody(NextProto))] else []
  }

  lemma LastFits(env: Env, c: Client)
    ensures AllFit(SendFinished(env, c).out, LastSlots(c.terms.nextProto))
  {
  }

  /** The client's one Finished is over all before it. */
  lemma LastHonest(env: Env, c: Client)
    ensures var t := SendFinished(env, c);
            && t.c.transcript == c.transcript + Msgs(t.out)
            && FinishedHonest(env, false, c.transcript, t.c.finishedOver, t.out)
            && CertsHonest(env, t.out)
  {
    hide Msgs, Items, FinishedHonest, HasFinished, CertsHonest;
    var t, proto := SendFinished(env, c), Proto(env, c);
    var finished := Msg(MtFinished, env.mac(c.transcript + proto, false));
    assert t.out == [Ccs] + Items(proto) + [Hs(finished)];
    NoFinishedInProto(env, c);
    MsgsOne(Ccs);
    MsgsOfLast([Ccs], proto, [], finished);
    assert [Ccs] + Items(proto) + [] == [Ccs] + Items(proto);
    HonestLast(env, false, c.transcript, [Ccs] + Items(proto), finished);
    assert c.transcript + proto + [finished] == c.transcript + (proto + [finished]);
  }

  lemma NoFinishedInProto(env: Env, c: Client)
    ensures !HasFinished([Ccs] + Items(Proto(env, c))) && CertsHonest(env, SendFinished(env, c).out) && Msgs([]) == []
  {
  }

  lemma {:induction false} WalkSendFinished(env: Env, d: Deal, c: Client, input: seq<Item>) returns (sent: seq<Slot>)
    requires d.terms.WellFormed() && Following(c, d) && c.state.SendClientFinished?
    ensures Walks(c, d, input, Do(env, c, input), sent)
  {
    hide DoBefore, SendFinished, Rest, SlotAt, Present, AllFit, Msgs, FinishedHonest, CertsHonest;
    LastSlotsAhead(d);
    LastFits(env, c);
    LastHonest(env, c);
    sent := LastSlots(c.terms.nextProto);
  }

  // ----- Every step

  lemma WalkDo(env: Env, d: Deal, c: Client, input: seq<Item>) returns (sent: seq<Slot>)
    requires d.terms.WellFormed() && Following(c, d) && Served(env, c, d, input) && Ready(c, input)
    requires env.hasCerts(env.clientBody(ClientCert)) == d.clientCert
    requires c.state != Done && c.state != ProcessChangeCipherSpec
    ensures Walks(c, d, input, Do(env, c, input), sent)
  {
    hide Walks, Do, Following, Served, Ready;
    match c.state {
      case ReadServerCertificate => sent := WalkCertificate(env, d, c, input);
      case ReadCertificateStatus => sent := WalkStatus(env, d, c, input);
      case VerifyServerCertificate => sent := WalkVerify(env, d, c, input);
      case ReadServerKeyExchange => sent := WalkKeyExchange(env, d, c, input);
      case ReadCertificateRequest => sent := WalkCertificateRequest(env, d, c, input);
      case ReadServerHelloDone => sent := WalkHelloDone(env, d, c, input);
      case SendClientCertificate => sent := WalkClientCertificate(env, d, c, input);
      case SendClientKeyExchange => sent := WalkClientKeyExchange(env, d, c, input);
      case SendClientCertificateVerify => sent := WalkCertificateVerify(env, d, c, input);
      case SendClientFinished => sent := WalkSendFinished(env, d, c, input);
      case FinishFlight => sent := WalkQuietly(env, d, c, input);
      case FinishClientHandshake => sent := WalkQuietly(env, d, c, input);
      case ReadSessionTicket => sent := WalkTicket(env, d, c, input);
      case ReadServerFinished => sent := WalkServerFinished(env, d, c, input);
      case _ => sent := WalkHello(env, d, c, input);
    }
  }

  /** Waiting for the cipher change means reading its record. */
  lemma WalkCcs(env: Env, d: Deal, c: Client, input: seq<Item>)
    requires d.terms.WellFormed() && Following(c, d) && Served(env, c, d, input)
    requires c.wait == WaitCcs && input != []
    ensures Step(env, c, input).Some? && Walks(c, d, input, Step(env, c, input).value, [])
  {
    hide DoBefore, Rest, SendFinished, CheckFinished;
    RestFrom(d, Index(c.state, d.terms.hello.resumed));
    MsgsOne(Ccs);
    assert input[0] == Ccs;
  }

  /** A step of a client that is served the script walks it, and is never an error. */
  lemma StepWalks(env: Env, d: Deal, c: Client, input: seq<Item>) returns (sent: seq<Slot>)
    requires d.terms.WellFormed() && Following(c, d) && Served(env, c, d, input)
    requires env.hasCerts(env.clientBody(ClientCert)) == d.clientCert
    requires Step(env, c, input).Some?
    ensures Walks(c, d, input, Step(env, c, input).value, sent)
  {
    if c.wait == WaitCcs {
      sent := [];
      WalkCcs(env, d, c, input);
    } else {
      StepIsDo(env, d, c, input);
      sent := WalkDo(env, d, c, input);
    }
  }

  lemma StepIsDo(env: Env, d: Deal, c: Client, input: seq<Item>)
    requires d.terms.WellFormed() && Following(c, d) && Served(env, c, d, input)
    requires Step(env, c, input).Some? && c.wait != WaitCcs
    ensures Ready(c, input) && c.state != Done && c.state != ProcessChangeCipherSpec
    ensures Step(env, c, input) == Some(Do(env, c, input))
  {
    hide Do, Rest, SlotAt, Present;
    if Reading(c.wait) {
      ReadingMeansMessage(d, c);
    }
  }

  /** A client that waits has something of the server's coming, and not a cipher change unless it waits for it. */
  lemma ReadingMeansMessage(d: Deal, c: Client)
    requires d.terms.WellFormed() && Following(c, d) && Reading(c.wait)
    ensures Ahead(c, d) != [] && FromServer(Ahead(c, d)[0])
    ensures IsCcs(Ahead(c, d)[0]) <==> c.wait == WaitCcs
  {
    hide Rest, LogAt;
    RestFrom(d, Index(c.state, d.terms.hello.resumed));
    if BeforeFinished(c.state) && c.state != ReadServerHello {
      ReadingInFlight(d, c);
    }
  }

  lemma ReadingInFlight(d: Deal, c: Client)
    requires d.terms.WellFormed() && Following(c, d) && Reading(c.wait)
    requires BeforeFinished(c.state) && c.state != ReadServerHello
    ensures Ahead(c, d) != [] && FromServer(Ahead(c, d)[0]) && !IsCcs(Ahead(c, d)[0]) && c.wait != WaitCcs
  {
    hide Rest, LogAt;
    RestFrom(d, Index(c.state, d.terms.hello.resumed));
    ServerFlightHeads(d);
  }

  // ----- What it sends is honest

  /** The client has sent its Finished. */
  predicate Past(s: State, resumed: bool) { Rank(s, resumed) < Rank(SendClientFinished, resumed) }

  predicate CertsHonest(env: Env, items: seq<Item>) {
    forall j :: 0 <= j < |items| && items[j].Hs? && items[j].msg.typ == MtCertificate ==>
      items[j].msg.body == env.clientBody(ClientCert)
  }

  /** What a step sends is honest, and a Finished is among it only when the client has not sent one before. */
  predicate SendsHonestly(env: Env, c: Client, t: Turn, resumed: bool) {
    && FinishedHonest(env, false, c.transcript, t.c.finishedOver, t.out) && CertsHonest(env, t.out)
    && (Past(c.state, resumed) ==> Past(t.c.state, resumed) && t.c.finishedOver == c.finishedOver && !HasFinished(t.out))
    && (!Past(t.c.state, resumed) ==> t.c.finishedOver == c.finishedOver && !HasFinished(t.out))
  }

  lemma SendsNothing(env: Env, c: Client, t: Turn, resumed: bool)
    requires t.out == [] && t.c.finishedOver == c.finishedOver && (Past(c.state, resumed) ==> Past(t.c.state, resumed))
    ensures SendsHonestly(env, c, t, resumed)
  {
    hide Past;
  }

  lemma SendsOne(env: Env, c: Client, t: Turn, m: Msg, resumed: bool)
    requires t.out == [Hs(m)] && m.typ != MtFinished && t.c.finishedOver == c.finishedOver
    requires m.typ == MtCertificate ==> m.body == env.clientBody(ClientCert)
    requires Past(c.state, resumed) ==> Past(t.c.state, resumed)
    ensures SendsHonestly(env, c, t, resumed)
  {
    hide Past;
  }

  lemma SendsLast(env: Env, c: Client, resumed: bool)
    requires c.state == SendClientFinished
    ensures SendsHonestly(env, c, SendFinished(env, c), resumed)
  {
    hide SendFinished, FinishedHonest, CertsHonest, HasFinished, Msgs;
    LastHonest(env, c);
    assert Past(FinishFlight, resumed) && !Past(c.state, resumed);
  }

  lemma DoSendsHonestly(env: Env, d: Deal, c: Client, input: seq<Item>)
    requires Following(c, d) && Following(Do(env, c, input).c, d)
    ensures SendsHonestly(env, c, Do(env, c, input), d.terms.hello.resumed)
  {
    hide SendsHonestly;
    if c.state == SendClientFinished {
      SendsLast(env, c, d.terms.hello.resumed);
    } else if InServerFlight(c.state) {
      FlightSendsNothing(env, d, c, input);
    } else if BeforeFinished(c.state) {
      BeforeSendsHonestly(env, d, c, input);
    } else {
      AfterSendsNothing(env, d, c, input);
    }
  }

  lemma FlightSendsNothing(env: Env, d: Deal, c: Client, input: seq<Item>)
    requires Following(c, d) && InServerFlight(c.state)
    ensures SendsHonestly(env, c, Do(env, c, input), d.terms.hello.resumed)
  {
    hide SendsHonestly, DoAfter;
    SendsNothing(env, c, Do(env, c, input), d.terms.hello.resumed);
  }

  lemma PastStates(s: State, resumed: bool)
    requires !BeforeFinished(s)
    ensures Past(s, resumed) <==>
            s.FinishFlight? || s.FinishClientHandshake? || s.Done?
            || (!resumed && (s.ReadSessionTicket? || s.ProcessChangeCipherSpec? || s.ReadServerFinished?))
  {
  }

  lemma AfterSame(env: Env, c: Client, input: seq<Item>)
    requires !BeforeFinished(c.state) && c.state != SendClientFinished
    ensures var t := Do(env, c, input);
            t.out == [] && t.c.finishedOver == c.finishedOver && !BeforeFinished(t.c.state)
  {
    hide DoBefore, SendFinished;
  }

  /** Behind its own Finished the client only reads, and never comes back before it. */
  lemma AfterStaysPast(env: Env, c: Client, input: seq<Item>, resumed: bool)
    requires !BeforeFinished(c.state) && c.state != SendClientFinished && c.terms.resumed == resumed
    ensures Past(c.state, resumed) ==> Past(Do(env, c, input).c.state, resumed)
  {
    hide DoBefore, SendFinished, CheckFinished, Past;
    AfterSame(env, c, input);
    PastStates(c.state, resumed);
    PastStates(Do(env, c, input).c.state, resumed);
  }

  lemma {:induction false} AfterSendsNothing(env: Env, d: Deal, c: Client, input: seq<Item>)
    requires Following(c, d) && !BeforeFinished(c.state) && c.state != SendClientFinished
    ensures SendsHonestly(env, c, Do(env, c, input), d.terms.hello.resumed)
  {
    hide SendsHonestly, Do, Past, LogAt;
    AfterSame(env, c, input);
    AfterStaysPast(env, c, input, d.terms.hello.resumed);
    SendsNothing(env, c, Do(env, c, input), d.terms.hello.resumed);
  }

  lemma BeforeSendsHonestly(env: Env, d: Deal, c: Client, input: seq<Item>)
    requires Following(c, d) && BeforeFinished(c.state) && !InServerFlight(c.state)
    ensures SendsHonestly(env, c, Do(env, c, input), d.terms.hello.resumed)
  {
    hide SendsHonestly, DoAfter, DoServerFlight;
    var t := Do(env, c, input);
    if t.out == [] {
      SendsNothing(env, c, t, d.terms.hello.resumed);
    } else {
      SendsOne(env, c, t, t.out[0].msg, d.terms.hello.resumed);
    }
  }

  /** Every step sends honestly; the one that reads the cipher change sends nothing. */
  lemma StepSendsHonestly(env: Env, d: Deal, c: Client, input: seq<Item>)
    requires d.terms.WellFormed() && Following(c, d) && Served(env, c, d, input)
    requires Step(env, c, input).Some? && Following(Step(env, c, input).value.c, d)
    ensures SendsHonestly(env, c, Step(env, c, input).value, d.terms.hello.resumed)
  {
    if c.wait == WaitCcs {
      CcsSendsNothing(env, c, input, d.terms.hello.resumed);
    } else {
      StepIsDo(env, d, c, input);
      DoSendsHonestly(env, d, c, input);
    }
  }

  lemma CcsSendsNothing(env: Env, c: Client, input: seq<Item>, resumed: bool)
    requires Sane(c) && c.wait == WaitCcs && Step(env, c, input).Some? && Step(env, c, input).value.c.wait != WaitError
    ensures SendsHonestly(env, c, Step(env, c, input).value, resumed)
  {
    hide SendsHonestly, SendFinished, CheckFinished;
    SendsNothing(env, c, Step(env, c, input).value, resumed);
  }
}
