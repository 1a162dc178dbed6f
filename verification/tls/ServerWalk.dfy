/**
  The server walks the script: from any state, under its terms and fed with what the script
  has next, a step reads or sends exactly the next filled slots.
 */
module ServerWalk {
  import opened Wrappers
  import opened Script
  import opened ServerMachine

  /** Where in the script's order a state stands. */
  function Index(s: State, resumed: bool): nat {
    match s
    case StartAccept => 0
    case ReadClientHello => 0
    case SelectCertificate => 0
    case SelectParameters => 0
    case SendServerHello => 1
    case SendServerCertificate => 2
    case SendServerKeyExchange => 4
    case SendServerHelloDone => 5
    case ReadClientCertificate => 7
    case VerifyClientCertificate => 8
    case ReadClientKeyExchange => 8
    case ReadClientCertificateVerify => 9
    case ReadChangeCipherSpec => if resumed then 5 else 10
    case ProcessChangeCipherSpec => if resumed then 5 else 10
    case ReadNextProto => if resumed then 6 else 11
    case ReadChannelId => if resumed then 7 else 12
    case ReadClientFinished => if resumed then 7 else 12
    case SendServerFinished => if resumed then 2 else 13
    case FinishServerHandshake => if resumed then 8 else 16
    case Done => if resumed then 8 else 16
  }

  /** The server only waits for a message where it has to read one. */
  predicate WaitsRightly(s: Server, d: Deal) {
    && s.wait != WaitServerHello
    && (s.wait == WaitMessage ==>
          || s.state.ReadClientHello? || s.state.SelectCertificate? || s.state.SelectParameters?
          || s.state.ReadClientKeyExchange? || s.state.ReadClientFinished?
          || (s.state.ReadClientCertificate? && d.terms.certRequest)
          || (s.state.ReadClientCertificateVerify? && s.peerCerts)
          || (s.state.ReadNextProto? && d.terms.hello.nextProto))
  }

  /** The server knows of the client what it must by now. */
  predicate Following(s: Server, d: Deal) {
    var resumed := d.terms.hello.resumed;
    && s.wait != WaitError && Sane(s, resumed) && WaitsRightly(s, d)
    && s.peerCerts == (d.terms.certRequest && d.clientCert && !resumed && Rank(s.state, resumed) <= 10)
  }

  function Ahead(s: Server, d: Deal): (rest: seq<Slot>) {
    Rest(d, Index(s.state, d.terms.hello.resumed))
  }

  /** The input starts with what the script has next, if it has anything. */
  predicate Served(env: Env, s: Server, d: Deal, input: seq<Item>) {
    input != [] ==>
      var rest := Ahead(s, d);
      && rest != [] && !FromServer(rest[0]) && Fits(input[0], rest[0])
      && (rest[0].ClientCert? ==> env.hasCerts(input[0].msg.body) == d.clientCert)
      && (rest[0].ClientFinished? ==> input[0].msg.body == env.mac(s.transcript, false))
  }

  predicate AllFromServer(slots: seq<Slot>) { forall s :: s in slots ==> FromServer(s) }

  /** What a step of the walk must be. */
  predicate Walks(s: Server, d: Deal, input: seq<Item>, t: Turn, sent: seq<Slot>) {
    && Following(t.s, d)
    && if t.consumed == 0 then
         && AllFit(t.out, sent) && AllFromServer(sent)
         && Ahead(s, d) == sent + Ahead(t.s, d)
         && t.s.transcript == s.transcript + Msgs(t.out)
       else
         && t.consumed == 1 && input != [] && t.out == [] && sent == []
         && Ahead(s, d) != [] && Ahead(s, d)[1..] == Ahead(t.s, d)
         && t.s.transcript == s.transcript + Msgs([input[0]])
  }

  // ----- The three ways to walk

  lemma Skips(s: Server, d: Deal, input: seq<Item>, t: Turn)
    requires Following(t.s, d) && t.consumed == 0 && t.out == []
    requires Ahead(t.s, d) == Ahead(s, d) && t.s.transcript == s.transcript
    ensures Walks(s, d, input, t, [])
  {
    hide Following, Ahead;
  }

  lemma Reads(s: Server, d: Deal, input: seq<Item>, t: Turn)
    requires Following(t.s, d) && t.consumed == 1 && t.out == []
    requires input != [] && input[0].Hs? && t.s.transcript == s.transcript + [input[0].msg]
    requires Ahead(s, d) != [] && Ahead(s, d)[1..] == Ahead(t.s, d)
    ensures Walks(s, d, input, t, [])
  {
    hide Following, Ahead;
    MsgsOne(input[0]);
  }

  lemma Sends(s: Server, d: Deal, input: seq<Item>, t: Turn, msgs: seq<Msg>, sent: seq<Slot>)
    requires Following(t.s, d) && t.consumed == 0 && t.out == Items(msgs) && t.s.transcript == s.transcript + msgs
    requires AllFit(Items(msgs), sent) && AllFromServer(sent)
    requires Ahead(s, d) == sent + Ahead(t.s, d)
    ensures Walks(s, d, input, t, sent)
  {
    hide Following, Ahead, AllFit, Items, Msgs;
    MsgsItems(msgs);
  }

  // ----- State by state

  /** The server has what it waits for. */
  predicate Ready(s: Server, input: seq<Item>) { Reading(s.wait) ==> Peek(input).Some? }

  function SlotIf(b: bool, slot: Slot): seq<Slot> { if b then [slot] else [] }

  lemma OptionalFits(b: bool, m: Msg, slot: Slot)
    requires Fits(Hs(m), slot)
    ensures AllFit(Items(Optional(b, m)), SlotIf(b, slot))
  {
  }

  lemma OptionalsFit(a: bool, m: Msg, slot: Slot, b: bool, m': Msg, slot': Slot)
    requires Fits(Hs(m), slot) && Fits(Hs(m'), slot') && FromServer(slot) && FromServer(slot')
    ensures AllFit(Items(Optional(a, m) + Optional(b, m')), SlotIf(a, slot) + SlotIf(b, slot'))
    ensures AllFromServer(SlotIf(a, slot) + SlotIf(b, slot'))
  {
    OptionalFits(a, m, slot);
    OptionalFits(b, m', slot');
    AllFitConcat(Items(Optional(a, m)), SlotIf(a, slot), Items(Optional(b, m')), SlotIf(b, slot'));
    assert Items(Optional(a, m) + Optional(b, m')) == Items(Optional(a, m)) + Items(Optional(b, m'));
  }

  lemma WalkClientHello(env: Env, d: Deal, s: Server, input: seq<Item>) returns (sent: seq<Slot>)
    requires d.terms.WellFormed() && Following(s, d) && Served(env, s, d, input) && Ready(s, input)
    requires s.state.StartAccept? || s.state.ReadClientHello? || s.state.SelectCertificate? || s.state.SelectParameters?
    ensures Walks(s, d, input, Do(env, d.terms, s, input), sent)
  {
    hide Walks, DoClientFlight, DoFinish, Items, Optional, Rest, SlotAt, Present, LogAt;
    HelloSlots(d);
    var t := Do(env, d.terms, s, input);
    sent := [];
    if t.consumed == 1 {
      Reads(s, d, input, t);
    } else {
      Skips(s, d, input, t);
    }
  }

  lemma WalkServerHello(env: Env, d: Deal, s: Server, input: seq<Item>) returns (sent: seq<Slot>)
    requires d.terms.WellFormed() && Following(s, d) && Ready(s, input)
    requires s.state.SendServerHello?
    ensures Walks(s, d, input, Do(env, d.terms, s, input), sent)
  {
    hide Walks, DoClientFlight, DoFinish, Items, Optional, Rest, SlotAt, Present, LogAt;
    HelloSlots(d);
    var t := Do(env, d.terms, s, input);
    sent := [ServerHello];
    HelloFits(env);
    Sends(s, d, input, t, [Msg(MtServerHello, env.serverBody(ServerHello))], sent);
  }

  lemma HelloFits(env: Env)
    ensures AllFit(Items([Msg(MtServerHello, env.serverBody(ServerHello))]), [ServerHello])
  {
  }

  lemma AnswersCertificate(env: Env, terms: Terms, s: Server, input: seq<Item>)
    requires s.state.SendServerCertificate?
    ensures Do(env, terms, s, input) ==
            Sent(s, Optional(terms.hello.certAuth, Msg(MtCertificate, env.serverBody(ServerCert)))
                    + Optional(terms.hello.certAuth && terms.statusSent,
                               Msg(MtCertificateStatus, env.serverBody(CertStatus))),
                 SendServerKeyExchange, WaitOk)
  {
  }

  lemma CertificateMovesOn(d: Deal, s: Server)
    requires Following(s, d) && s.state.SendServerCertificate?
    ensures !d.terms.hello.resumed && Ahead(s, d) == Rest(d, 2)
    ensures forall transcript ::
              var s' := s.(transcript := transcript, state := SendServerKeyExchange, wait := WaitOk);
              Following(s', d) && Ahead(s', d) == Rest(d, 4)
  {
    hide Rest;
  }

  lemma WalkCertificate(env: Env, d: Deal, s: Server, input: seq<Item>) returns (sent: seq<Slot>)
    requires d.terms.WellFormed() && Following(s, d) && Ready(s, input)
    requires s.state.SendServerCertificate?
    ensures Walks(s, d, input, Do(env, d.terms, s, input), sent)
  {
    hide Walks, Do, Items, Optional, Rest, SlotAt, Present, AllFit, AllFromServer, SlotIf, Following;
    CertificateMovesOn(d, s);
    ServerFlightSlots(d);
    var t := Do(env, d.terms, s, input);
    var cert, status := d.terms.hello.certAuth, d.terms.hello.certAuth && d.terms.statusSent;
    sent := SlotIf(cert, ServerCert) + SlotIf(status, CertStatus);
    var certMsg, statusMsg :=
      Msg(MtCertificate, env.serverBody(ServerCert)), Msg(MtCertificateStatus, env.serverBody(CertStatus));
    AnswersCertificate(env, d.terms, s, input);
    OptionalsFit(cert, certMsg, ServerCert, status, statusMsg, CertStatus);
    TwoSlots(d, 2, cert, ServerCert, status, CertStatus);
    Sends(s, d, input, t, Optional(cert, certMsg) + Optional(status, statusMsg), sent);
  }

  lemma TwoSlots(d: Deal, i: nat, a: bool, slot: Slot, b: bool, slot': Slot)
    requires NextIs(d, i, a, slot) && NextIs(d, i + 1, b, slot')
    ensures Rest(d, i) == SlotIf(a, slot) + SlotIf(b, slot') + Rest(d, i + 2)
  {
    hide Rest;
  }

  lemma WalkKeyExchange(env: Env, d: Deal, s: Server, input: seq<Item>) returns (sent: seq<Slot>)
    requires d.terms.WellFormed() && Following(s, d) && Ready(s, input)
    requires s.state.SendServerKeyExchange?
    ensures Walks(s, d, input, Do(env, d.terms, s, input), sent)
  {
    hide Walks, DoClientFlight, DoFinish, Items, Optional, Rest;
    RestFrom(d, Index(s.state, d.terms.hello.resumed));
    var t := Do(env, d.terms, s, input);
    var m := Msg(MtServerKeyExchange, env.serverBody(ServerKx));
    sent := SlotIf(d.terms.sendsSke, ServerKx);
    OptionalFits(d.terms.sendsSke, m, ServerKx);
    Sends(s, d, input, t, Optional(d.terms.sendsSke, m), sent);
  }

  lemma HelloDoneFits(env: Env, d: Deal)
    requires !d.terms.hello.resumed
    ensures var asked := d.terms.certRequest;
            var req := Msg(MtCertificateRequest, env.serverBody(CertRequest));
            var done := Msg(MtServerHelloDone, env.serverBody(ServerDone));
            && AllFit(Items(Optional(asked, req) + [done]), SlotIf(asked, CertRequest) + [ServerDone])
            && AllFromServer(SlotIf(asked, CertRequest) + [ServerDone])
            && Rest(d, 5) == SlotIf(asked, CertRequest) + [ServerDone] + Rest(d, 7)
  {
    hide Rest, SlotAt, Present;
    var asked := d.terms.certRequest;
    ServerFlightSlots(d);
    TwoSlots(d, 5, asked, CertRequest, true, ServerDone);
    OptionalsFit(asked, Msg(MtCertificateRequest, env.serverBody(CertRequest)), CertRequest,
                 true, Msg(MtServerHelloDone, env.serverBody(ServerDone)), ServerDone);
  }

  lemma WalkHelloDone(env: Env, d: Deal, s: Server, input: seq<Item>) returns (sent: seq<Slot>)
    requires d.terms.WellFormed() && Following(s, d) && Ready(s, input)
    requires s.state.SendServerHelloDone?
    ensures Walks(s, d, input, Do(env, d.terms, s, input), sent)
  {
    hide Walks, DoClientFlight, DoFinish, Items, Optional, Rest, SlotAt, Present, AllFit, AllFromServer;
    HelloDoneFits(env, d);
    var t := Do(env, d.terms, s, input);
    sent := SlotIf(d.terms.certRequest, CertRequest) + [ServerDone];
    Sends(s, d, input, t, Optional(d.terms.certRequest, Msg(MtCertificateRequest, env.serverBody(CertRequest)))
                          + [Msg(MtServerHelloDone, env.serverBody(ServerDone))], sent);
  }

  lemma WalkClientCertificate(env: Env, d: Deal, s: Server, input: seq<Item>) returns (sent: seq<Slot>)
    requires d.terms.WellFormed() && Following(s, d) && Served(env, s, d, input) && Ready(s, input)
    requires s.state.ReadClientCertificate?
    ensures Walks(s, d, input, Do(env, d.terms, s, input), sent)
  {
    hide Walks, DoAnswer, DoFinish, Rest;
    RestFrom(d, Index(s.state, d.terms.hello.resumed));
    var t := Do(env, d.terms, s, input);
    sent := [];
    if t.consumed == 1 {
      Reads(s, d, input, t);
    } else {
      Skips(s, d, input, t);
    }
  }

  lemma {:induction false} WalkVerify(env: Env, d: Deal, s: Server, input: seq<Item>) returns (sent: seq<Slot>)
    requires d.terms.WellFormed() && Following(s, d) && Ready(s, input)
    requires s.state.VerifyClientCertificate?
    ensures Walks(s, d, input, Do(env, d.terms, s, input), sent)
  {
    hide Walks, DoAnswer, DoFinish, Rest;
    RestFrom(d, Index(s.state, d.terms.hello.resumed));
    var t := Do(env, d.terms, s, input);
    sent := [];
    Skips(s, d, input, t);
  }

  lemma WalkClientKeyExchange(env: Env, d: Deal, s: Server, input: seq<Item>) returns (sent: seq<Slot>)
    requires d.terms.WellFormed() && Following(s, d) && Served(env, s, d, input) && Ready(s, input)
    requires s.state.ReadClientKeyExchange?
    ensures Walks(s, d, input, Do(env, d.terms, s, input), sent)
  {
    hide Walks, DoAnswer, DoFinish, Rest;
    RestFrom(d, Index(s.state, d.terms.hello.resumed));
    var t := Do(env, d.terms, s, input);
    sent := [];
    if t.consumed == 1 {
      Reads(s, d, input, t);
    } else {
      Skips(s, d, input, t);
    }
  }

  lemma {:induction false} WalkCertificateVerify(env: Env, d: Deal, s: Server, input: seq<Item>) returns (sent: seq<Slot>)
    requires d.terms.WellFormed() && Following(s, d) && Served(env, s, d, input) && Ready(s, input)
    requires s.state.ReadClientCertificateVerify?
    ensures Walks(s, d, input, Do(env, d.terms, s, input), sent)
  {
    hide Walks, DoAnswer, DoFinish, Rest;
    RestFrom(d, Index(s.state, d.terms.hello.resumed));
    var t := Do(env, d.terms, s, input);
    sent := [];
    if t.consumed == 1 {
      Reads(s, d, input, t);
    } else {
      Skips(s, d, input, t);
    }
  }

  lemma WalkQuietly(env: Env, d: Deal, s: Server, input: seq<Item>) returns (sent: seq<Slot>)
    requires d.terms.WellFormed() && Following(s, d) && Ready(s, input)
    requires s.state.ReadChangeCipherSpec? || s.state.ReadChannelId? || s.state.FinishServerHandshake?
    ensures Walks(s, d, input, Do(env, d.terms, s, input), sent)
  {
    hide Walks, DoAnswer, DoClientFlight, SendFinished, CheckFinished, Rest, LogAt;
    sent := [];
    Skips(s, d, input, Do(env, d.terms, s, input));
  }

  lemma WalkNextProto(env: Env, d: Deal, s: Server, input: seq<Item>) returns (sent: seq<Slot>)
    requires d.terms.WellFormed() && Following(s, d) && Served(env, s, d, input) && Ready(s, input)
    requires s.state.ReadNextProto?
    ensures Walks(s, d, input, Do(env, d.terms, s, input), sent)
  {
    hide Walks, DoAnswer, DoClientFlight, SendFinished, CheckFinished, Rest;
    RestFrom(d, Index(s.state, d.terms.hello.resumed));
    var t := Do(env, d.terms, s, input);
    sent := [];
    if t.consumed == 1 {
      Reads(s, d, input, t);
    } else {
      Skips(s, d, input, t);
    }
  }

  /** Behind the client's Finished comes what the server does next. */
  lemma FinishedWalksOn(d: Deal, s: Server)
    requires Following(s, d) && s.state.ReadClientFinished?
    ensures var next := if d.terms.hello.resumed then FinishServerHandshake else SendServerFinished;
            var s' := s.(state := next, wait := WaitOk);
            && Ahead(s, d) != [] && Ahead(s, d)[1..] == Ahead(s', d)
            && forall log, transcript :: Following(s'.(log := log, transcript := transcript), d)
  {
    hide Rest;
    ClientFinishSlots(d);
  }

  lemma WaitingStays(d: Deal, s: Server)
    requires Following(s, d) && s.state.ReadClientFinished?
    ensures Following(s.(wait := WaitMessage), d)
  {
  }

  lemma WalkClientFinished(env: Env, d: Deal, s: Server, input: seq<Item>) returns (sent: seq<Slot>)
    requires d.terms.WellFormed() && Following(s, d) && Served(env, s, d, input) && Ready(s, input)
    requires s.state.ReadClientFinished?
    ensures Walks(s, d, input, Do(env, d.terms, s, input), sent)
  {
    hide Walks, Do, CheckFinished, Following, Rest, Fits;
    ReadsFinished(env, d.terms, s, input);
    FinishedWalksOn(d, s);
    var t := Do(env, d.terms, s, input);
    sent := [];
    if input != [] {
      FinishedChecks(env, d, s, input);
      Reads(s, d, input, t);
    } else {
      WaitingStays(d, s);
      Skips(s, d, input, t);
    }
  }

  /** The Finished the script serves is the one the server computes. */
  lemma FinishedChecks(env: Env, d: Deal, s: Server, input: seq<Item>)
    requires Following(s, d) && Served(env, s, d, input) && s.state.ReadClientFinished? && input != []
    ensures input[0].Hs? && CheckFinished(env, d.terms, s, input[0].msg) ==
            Took(s.(log := s.log + [FinishedVerified]), input[0].msg,
                 if d.terms.hello.resumed then FinishServerHandshake else SendServerFinished)
  {
    hide Rest;
    RestFrom(d, Index(s.state, d.terms.hello.resumed));
  }

  function Ticket(env: Env, terms: Terms): seq<Msg> {
    Optional(terms.hello.ticket, Msg(MtNewSessionTicket, env.serverBody(NewTicket)))
  }

  lemma LastFits(env: Env, terms: Terms, s: Server)
    ensures AllFit(SendFinished(env, terms, s).out, SlotIf(terms.hello.ticket, NewTicket) + [ServerCcs, ServerFinished])
  {
  }

  /** The server's one Finished is over all before it. */
  lemma LastHonest(env: Env, terms: Terms, s: Server)
    ensures var t := SendFinished(env, terms, s);
            && t.s.transcript == s.transcript + Msgs(t.out)
            && FinishedHonest(env, true, s.transcript, t.s.finishedOver, t.out)
            && HellosHonest(env, t.out)
  {
    var t, ticket := SendFinished(env, terms, s), Ticket(env, terms);
    var finished := Msg(MtFinished, env.mac(s.transcript + ticket, true));
    NoFinishedInTicket(env, terms, s);
    MsgsOne(Ccs);
    MsgsOfLast([], ticket, [Ccs], finished);
    hide Msgs, Items, FinishedHonest, HasFinished;
    assert [] + Items(ticket) + [Ccs] == Items(ticket) + [Ccs];
    assert t.out == Items(ticket) + [Ccs] + [Hs(finished)];
    HonestLast(env, true, s.transcript, Items(ticket) + [Ccs], finished);
  }

  lemma NoFinishedInTicket(env: Env, terms: Terms, s: Server)
    ensures !HasFinished(Items(Ticket(env, terms)) + [Ccs]) && HellosHonest(env, SendFinished(env, terms, s).out)
    ensures Msgs([]) == []
  {
  }

  lemma LastSlotsAhead(d: Deal)
    ensures var i := if d.terms.hello.resumed then 2 else 13;
            Rest(d, i) == SlotIf(d.terms.hello.ticket, NewTicket) + [ServerCcs, ServerFinished] + Rest(d, i + 3)
  {
    hide Rest, SlotAt, Present;
    ServerFinishSlots(d);
  }

  lemma WalkSendFinished(env: Env, d: Deal, s: Server, input: seq<Item>) returns (sent: seq<Slot>)
    requires d.terms.WellFormed() && Following(s, d) && s.state.SendServerFinished?
    ensures Walks(s, d, input, Do(env, d.terms, s, input), sent)
  {
    hide DoAnswer, DoClientFlight, SendFinished, CheckFinished, Rest, SlotAt, Present, AllFit, Msgs, FinishedHonest,
      HellosHonest;
    LastSlotsAhead(d);
    LastFits(env, d.terms, s);
    LastHonest(env, d.terms, s);
    sent := SlotIf(d.terms.hello.ticket, NewTicket) + [ServerCcs, ServerFinished];
  }

  // ----- Every step

  lemma WalkDo(env: Env, d: Deal, s: Server, input: seq<Item>) returns (sent: seq<Slot>)
    requires d.terms.WellFormed() && Following(s, d) && Served(env, s, d, input) && Ready(s, input)
    requires s.state != Done && s.state != ProcessChangeCipherSpec
    ensures Walks(s, d, input, Do(env, d.terms, s, input), sent)
  {
    hide Walks, Do, Following, Served, Ready;
    match s.state {
      case SendServerHello => sent := WalkServerHello(env, d, s, input);
      case SendServerCertificate => sent := WalkCertificate(env, d, s, input);
      case SendServerKeyExchange => sent := WalkKeyExchange(env, d, s, input);
      case SendServerHelloDone => sent := WalkHelloDone(env, d, s, input);
      case ReadClientCertificate => sent := WalkClientCertificate(env, d, s, input);
      case VerifyClientCertificate => sent := WalkVerify(env, d, s, input);
      case ReadClientKeyExchange => sent := WalkClientKeyExchange(env, d, s, input);
      case ReadClientCertificateVerify => sent := WalkCertificateVerify(env, d, s, input);
      case ReadNextProto => sent := WalkNextProto(env, d, s, input);
      case ReadClientFinished => sent := WalkClientFinished(env, d, s, input);
      case SendServerFinished => sent := WalkSendFinished(env, d, s, input);
      case ReadChangeCipherSpec => sent := WalkQuietly(env, d, s, input);
      case ReadChannelId => sent := WalkQuietly(env, d, s, input);
      case FinishServerHandshake => sent := WalkQuietly(env, d, s, input);
      case _ => sent := WalkClientHello(env, d, s, input);
    }
  }

  /** Waiting for the cipher change means reading its record. */
  lemma WalkCcs(env: Env, d: Deal, s: Server, input: seq<Item>)
    requires d.terms.WellFormed() && Following(s, d) && Served(env, s, d, input)
    requires s.wait == WaitCcs && input != []
    ensures Step(env, d.terms, s, input).Some? && Walks(s, d, input, Step(env, d.terms, s, input).value, [])
  {
    hide DoAnswer, DoClientFlight, Rest, SendFinished, CheckFinished;
    RestFrom(d, Index(s.state, d.terms.hello.resumed));
    MsgsOne(Ccs);
    assert input[0] == Ccs;
  }

  /** A step of a server that is served the script walks it, and is never an error. */
  lemma StepWalks(env: Env, d: Deal, s: Server, input: seq<Item>) returns (sent: seq<Slot>)
    requires d.terms.WellFormed() && Following(s, d) && Served(env, s, d, input)
    requires Step(env, d.terms, s, input).Some?
    ensures Walks(s, d, input, Step(env, d.terms, s, input).value, sent)
  {
    if s.wait == WaitCcs {
      sent := [];
      WalkCcs(env, d, s, input);
    } else {
      StepIsDo(env, d, s, input);
      sent := WalkDo(env, d, s, input);
    }
  }

  lemma StepIsDo(env: Env, d: Deal, s: Server, input: seq<Item>)
    requires d.terms.WellFormed() && Following(s, d) && Served(env, s, d, input)
    requires Step(env, d.terms, s, input).Some? && s.wait != WaitCcs
    ensures Ready(s, input) && s.state != Done && s.state != ProcessChangeCipherSpec
    ensures Step(env, d.terms, s, input) == Some(Do(env, d.terms, s, input))
  {
    hide Do, Rest, SlotAt, Present;
    if Reading(s.wait) {
      ReadingMeansMessage(d, s);
    }
  }

  /** A server that waits has something of the client's coming, and not a cipher change unless it waits for it. */
  lemma ReadingMeansMessage(d: Deal, s: Server)
    requires d.terms.WellFormed() && Following(s, d) && Reading(s.wait)
    ensures Ahead(s, d) != [] && !FromServer(Ahead(s, d)[0])
    ensures IsCcs(Ahead(s, d)[0]) <==> s.wait == WaitCcs
  {
    hide Rest, SlotAt, Present;
    if Answering(s.state) {
      HelloSlots(d);
    } else if InClientFlight(s.state) {
      ReadingInFlight(d, s);
    } else {
      ClientFinishSlots(d);
    }
  }

  lemma ReadingInFlight(d: Deal, s: Server)
    requires d.terms.WellFormed() && Following(s, d) && s.wait == WaitMessage && InClientFlight(s.state)
    ensures Ahead(s, d) != [] && !FromServer(Ahead(s, d)[0]) && !IsCcs(Ahead(s, d)[0])
  {
    hide Rest, SlotAt, Present;
    ClientFlightSlots(d);
  }

  // ----- What it sends is honest

  /** The server has sent its Finished. */
  predicate Past(s: State, resumed: bool) { Rank(s, resumed) < Rank(SendServerFinished, resumed) }

  predicate HellosHonest(env: Env, items: seq<Item>) {
    forall j :: 0 <= j < |items| && items[j].Hs? && items[j].msg.typ == MtServerHello ==>
      items[j].msg.body == env.serverBody(ServerHello)
  }

  /** What a step sends is honest, and a Finished is among it only when the server has not sent one before. */
  predicate SendsHonestly(env: Env, s: Server, t: Turn, resumed: bool) {
    && FinishedHonest(env, true, s.transcript, t.s.finishedOver, t.out) && HellosHonest(env, t.out)
    && (Past(s.state, resumed) ==> Past(t.s.state, resumed) && t.s.finishedOver == s.finishedOver && !HasFinished(t.out))
    && (!Past(t.s.state, resumed) ==> t.s.finishedOver == s.finishedOver && !HasFinished(t.out))
  }

  lemma SendsMsgs(env: Env, s: Server, t: Turn, msgs: seq<Msg>, resumed: bool)
    requires t.out == Items(msgs) && t.s.finishedOver == s.finishedOver
    requires forall m :: m in msgs ==> m.typ != MtFinished && (m.typ == MtServerHello ==> m.body == env.serverBody(ServerHello))
    requires Past(s.state, resumed) ==> Past(t.s.state, resumed)
    ensures SendsHonestly(env, s, t, resumed)
  {
    hide Past;
    forall j | 0 <= j < |t.out|
      ensures t.out[j].Hs? && t.out[j].msg in msgs
    {
      assert t.out[j] == Hs(msgs[j]);
    }
  }

  lemma SendsLast(env: Env, terms: Terms, s: Server)
    requires s.state == SendServerFinished
    ensures SendsHonestly(env, s, SendFinished(env, terms, s), terms.hello.resumed)
  {
    hide SendFinished, FinishedHonest, HellosHonest, HasFinished, Msgs;
    LastHonest(env, terms, s);
  }

  lemma DoSendsHonestly(env: Env, d: Deal, s: Server, input: seq<Item>)
    requires Following(s, d) && Following(Do(env, d.terms, s, input).s, d)
    ensures SendsHonestly(env, s, Do(env, d.terms, s, input), d.terms.hello.resumed)
  {
    hide SendsHonestly;
    if s.state == SendServerFinished {
      SendsLast(env, d.terms, s);
    } else if Answering(s.state) {
      AnswersHonestly(env, d, s, input);
    } else if InClientFlight(s.state) {
      FlightSendsNothing(env, d, s, input);
    } else {
      FinishSendsNothing(env, d, s, input);
    }
  }

  lemma FlightSendsNothing(env: Env, d: Deal, s: Server, input: seq<Item>)
    requires Following(s, d) && InClientFlight(s.state)
    ensures SendsHonestly(env, s, Do(env, d.terms, s, input), d.terms.hello.resumed)
  {
    hide SendsHonestly, DoAnswer, DoFinish, Items;
    assert Items([]) == [] by { ItemsNone(); }
    SendsMsgs(env, s, Do(env, d.terms, s, input), [], d.terms.hello.resumed);
  }

  lemma FinishSame(env: Env, terms: Terms, s: Server, input: seq<Item>)
    requires !Answering(s.state) && !InClientFlight(s.state) && s.state != SendServerFinished
    ensures var t := Do(env, terms, s, input); t.out == [] && t.s.finishedOver == s.finishedOver
  {
    hide DoAnswer, DoClientFlight, SendFinished;
  }

  lemma FinishStaysPast(env: Env, terms: Terms, s: Server, input: seq<Item>)
    requires !Answering(s.state) && !InClientFlight(s.state) && s.state != SendServerFinished
    ensures Past(s.state, terms.hello.resumed) ==> Past(Do(env, terms, s, input).s.state, terms.hello.resumed)
  {
    hide DoAnswer, DoClientFlight, SendFinished, CheckFinished, LogAt;
  }

  lemma FinishSendsNothing(env: Env, d: Deal, s: Server, input: seq<Item>)
    requires !Answering(s.state) && !InClientFlight(s.state) && s.state != SendServerFinished
    ensures SendsHonestly(env, s, Do(env, d.terms, s, input), d.terms.hello.resumed)
  {
    hide SendsHonestly, Do, Past, Items;
    FinishSame(env, d.terms, s, input);
    FinishStaysPast(env, d.terms, s, input);
    assert Items([]) == [] by { ItemsNone(); }
    SendsMsgs(env, s, Do(env, d.terms, s, input), [], d.terms.hello.resumed);
  }

  lemma ItemsNone()
    ensures Items([]) == []
  {
  }

  /** The messages a state sends while it answers the client's hello. */
  function Answer(env: Env, terms: Terms, s: State): seq<Msg> {
    match s
    case SendServerHello => [Msg(MtServerHello, env.serverBody(ServerHello))]
    case SendServerCertificate =>
      Optional(terms.hello.certAuth, Msg(MtCertificate, env.serverBody(ServerCert)))
      + Optional(terms.hello.certAuth && terms.statusSent, Msg(MtCertificateStatus, env.serverBody(CertStatus)))
    case SendServerKeyExchange => Optional(terms.sendsSke, Msg(MtServerKeyExchange, env.serverBody(ServerKx)))
    case SendServerHelloDone =>
      Optional(terms.certRequest, Msg(MtCertificateRequest, env.serverBody(CertRequest)))
      + [Msg(MtServerHelloDone, env.serverBody(ServerDone))]
    case _ => []
  }

  lemma AnswerIsHonest(env: Env, terms: Terms, s: State)
    ensures forall m :: m in Answer(env, terms, s) ==>
              m.typ != MtFinished && (m.typ == MtServerHello ==> m.body == env.serverBody(ServerHello))
  {
  }

  lemma AnswersHonestly(env: Env, d: Deal, s: Server, input: seq<Item>)
    requires Following(s, d) && Answering(s.state)
    ensures SendsHonestly(env, s, Do(env, d.terms, s, input), d.terms.hello.resumed)
  {
    hide SendsHonestly, DoClientFlight, DoFinish, Items, Optional;
    assert Items([]) == [] by { ItemsNone(); }
    AnswerIsHonest(env, d.terms, s.state);
    SendsMsgs(env, s, Do(env, d.terms, s, input), Answer(env, d.terms, s.state), d.terms.hello.resumed);
  }

  /** Every step sends honestly; the one that reads the cipher change sends nothing. */
  lemma StepSendsHonestly(env: Env, d: Deal, s: Server, input: seq<Item>)
    requires d.terms.WellFormed() && Following(s, d) && Served(env, s, d, input)
    requires Step(env, d.terms, s, input).Some? && Following(Step(env, d.terms, s, input).value.s, d)
    ensures SendsHonestly(env, s, Step(env, d.terms, s, input).value, d.terms.hello.resumed)
  {
    if s.wait == WaitCcs {
      CcsSendsNothing(env, d.terms, s, input);
    } else {
      StepIsDo(env, d, s, input);
      DoSendsHonestly(env, d, s, input);
    }
  }

  lemma CcsSendsNothing(env: Env, terms: Terms, s: Server, input: seq<Item>)
    requires Sane(s, terms.hello.resumed) && s.wait == WaitCcs
    requires Step(env, terms, s, input).Some? && Step(env, terms, s, input).value.s.wait != WaitError
    ensures SendsHonestly(env, s, Step(env, terms, s, input).value, terms.hello.resumed)
  {
    hide SendsHonestly, SendFinished, CheckFinished;
    ItemsNone();
    SendsMsgs(env, s, Step(env, terms, s, input).value, [], terms.hello.resumed);
  }
}
