/**
  The server's handshake state machine (handshake_server.cc) below TLS 1.3: one function
  for what a state does, and what every run of it keeps.
 */
module ServerMachine {
  import opened Wrappers
  import opened Script

  datatype State =
    | StartAccept | ReadClientHello | SelectCertificate | SelectParameters | SendServerHello
    | SendServerCertificate | SendServerKeyExchange | SendServerHelloDone | ReadClientCertificate
    | VerifyClientCertificate | ReadClientKeyExchange | ReadClientCertificateVerify | ReadChangeCipherSpec
    | ProcessChangeCipherSpec | ReadNextProto | ReadChannelId | ReadClientFinished | SendServerFinished
    | FinishServerHandshake | Done

  /** The server: its state, what it waits for, whether the client sent certificates, its transcript and log. */
  datatype Server = Server(state: State, wait: Wait, peerCerts: bool, transcript: seq<Msg>, log: seq<Mark>,
                           finishedOver: Option<seq<Msg>>)

  const START := Server(StartAccept, WaitOk, false, [], [], None)

  datatype Turn = Turn(s: Server, consumed: nat, out: seq<Item>)

  function Go(s: Server, next: State): Turn { Turn(s.(state := next, wait := WaitOk), 0, []) }

  function Stay(s: Server, wait: Wait): Turn { Turn(s.(wait := wait), 0, []) }

  function Fail(s: Server): Turn { Turn(s.(wait := WaitError), 0, []) }

  function Took(s: Server, m: Msg, next: State): Turn {
    Turn(s.(transcript := s.transcript + [m], state := next, wait := WaitOk), 1, [])
  }

  function Sent(s: Server, msgs: seq<Msg>, next: State, wait: Wait): Turn {
    Turn(s.(transcript := s.transcript + msgs, state := next, wait := wait), 0, Items(msgs))
  }

  function Optional(b: bool, m: Msg): seq<Msg> { if b then [m] else [] }

  /** The states that answer the client's hello. */
  predicate Answering(s: State) {
    s.StartAccept? || s.ReadClientHello? || s.SelectCertificate? || s.SelectParameters? || s.SendServerHello?
    || s.SendServerCertificate? || s.SendServerKeyExchange? || s.SendServerHelloDone?
  }

  /** The states that read the client's second flight up to its cipher change. */
  predicate InClientFlight(s: State) {
    s.ReadClientCertificate? || s.VerifyClientCertificate? || s.ReadClientKeyExchange? || s.ReadClientCertificateVerify?
  }

  function DoAnswer(env: Env, terms: Terms, s: Server, m: Option<Msg>): Turn
    requires Answering(s.state)
  {
    match s.state
    case StartAccept => Go(s, ReadClientHello)
    case ReadClientHello =>
      // The hello stays in the input until the parameters are selected.
      if m.None? then Stay(s, WaitMessage)
      else if m.value.typ != MtClientHello then Fail(s)
      else Go(s, SelectCertificate)
    case SelectCertificate => if m.None? then Stay(s, WaitMessage) else Go(s, SelectParameters)
    case SelectParameters => if m.None? then Stay(s, WaitMessage) else Took(s, m.value, SendServerHello)
    case SendServerHello =>
      Sent(s, [Msg(MtServerHello, env.serverBody(ServerHello))],
           if terms.hello.resumed then SendServerFinished else SendServerCertificate, WaitOk)
    case SendServerCertificate =>
      Sent(s, Optional(terms.hello.certAuth, Msg(MtCertificate, env.serverBody(ServerCert)))
              + Optional(terms.hello.certAuth && terms.statusSent, Msg(MtCertificateStatus, env.serverBody(CertStatus))),
           SendServerKeyExchange, WaitOk)
    case SendServerKeyExchange =>
      Sent(s, Optional(terms.sendsSke, Msg(MtServerKeyExchange, env.serverBody(ServerKx))), SendServerHelloDone, WaitOk)
    case SendServerHelloDone =>
      Sent(s, Optional(terms.certRequest, Msg(MtCertificateRequest, env.serverBody(CertRequest)))
              + [Msg(MtServerHelloDone, env.serverBody(ServerDone))],
           ReadClientCertificate, WaitFlush)
  }

  function DoClientFlight(env: Env, terms: Terms, s: Server, m: Option<Msg>): Turn
    requires InClientFlight(s.state)
  {
    match s.state
    case ReadClientCertificate =>
      if !terms.certRequest then Go(s, VerifyClientCertificate)
      else if m.None? then Stay(s, WaitMessage)
      else if m.value.typ != MtCertificate then Fail(s)
      else Took(s.(peerCerts := env.hasCerts(m.value.body)), m.value, VerifyClientCertificate)
    case VerifyClientCertificate => Go(s, ReadClientKeyExchange)
    case ReadClientKeyExchange =>
      if m.None? then Stay(s, WaitMessage)
      else if m.value.typ != MtClientKeyExchange then Fail(s)
      else Took(s, m.value, ReadClientCertificateVerify)
    case ReadClientCertificateVerify =>
      // Needed exactly when there are client certificates.
      if !s.peerCerts then Go(s, ReadChangeCipherSpec)
      else if m.None? then Stay(s, WaitMessage)
      else if m.value.typ != MtCertificateVerify then Fail(s)
      else Took(s, m.value, ReadChangeCipherSpec)
  }

  /** The client's Finished must be the one computed over this server's transcript. */
  function CheckFinished(env: Env, terms: Terms, s: Server, m: Msg): (t: Turn)
    ensures t.s.peerCerts == s.peerCerts
    ensures if t.s.wait == WaitError then t.s.state == s.state && t.s.log == s.log
            else
              && t.s.log == s.log + [FinishedVerified] && t.s.wait == WaitOk
              && t.s.state == if terms.hello.resumed then FinishServerHandshake else SendServerFinished
  {
    if m.typ != MtFinished || m.body != env.mac(s.transcript, false) then Fail(s)
    else
      Took(s.(log := s.log + [FinishedVerified]), m,
           if terms.hello.resumed then FinishServerHandshake else SendServerFinished)
  }

  /** A ticket if one is due, the cipher change, and Finished over all before it. */
  function SendFinished(env: Env, terms: Terms, s: Server): (t: Turn)
    ensures t.s.log == s.log + WROTE && t.s.wait == WaitFlush && t.s.peerCerts == s.peerCerts && t.consumed == 0
    ensures t.s.state == if terms.hello.resumed then ReadChangeCipherSpec else FinishServerHandshake
  {
    var ticket := Optional(terms.hello.ticket, Msg(MtNewSessionTicket, env.serverBody(NewTicket)));
    var over := s.transcript + ticket;
    var finished := Msg(MtFinished, env.mac(over, true));
    Turn(s.(transcript := over + [finished], log := s.log + WROTE, finishedOver := Some(over),
            state := if terms.hello.resumed then ReadChangeCipherSpec else FinishServerHandshake, wait := WaitFlush),
         0, Items(ticket) + [Ccs, Hs(finished)])
  }

  /** The last flights: cipher changes and Finished, in either order. */
  function DoFinish(env: Env, terms: Terms, s: Server, m: Option<Msg>): Turn
    requires !Answering(s.state) && !InClientFlight(s.state)
  {
    match s.state
    case ReadChangeCipherSpec => Turn(s.(state := ProcessChangeCipherSpec, wait := WaitCcs), 0, [])
    case ProcessChangeCipherSpec => Go(s.(log := s.log + [ReadCipherOn]), ReadNextProto)
    case ReadNextProto =>
      if !terms.hello.nextProto then Go(s, ReadChannelId)
      else if m.None? then Stay(s, WaitMessage)
      else if m.value.typ != MtNextProto then Fail(s)
      else Took(s, m.value, ReadChannelId)
    case ReadChannelId => Go(s, ReadClientFinished)
    case ReadClientFinished => if m.None? then Stay(s, WaitMessage) else CheckFinished(env, terms, s, m.value)
    case SendServerFinished => SendFinished(env, terms, s)
    case FinishServerHandshake => Go(s, Done)
    case Done => Stay(s, WaitOk)
  }

  function Do(env: Env, terms: Terms, s: Server, input: seq<Item>): Turn {
    if Answering(s.state) then DoAnswer(env, terms, s, Peek(input))
    else if InClientFlight(s.state) then DoClientFlight(env, terms, s, Peek(input))
    else DoFinish(env, terms, s, Peek(input))
  }

  /** Resolve what the machine waits for, then run one state; none while it has to wait. */
  function Step(env: Env, terms: Terms, s: Server, input: seq<Item>): Option<Turn> {
    match s.wait
    case WaitError => None
    case WaitMessage =>
      if input == [] then None else if input[0].Ccs? then Some(Fail(s)) else Some(Do(env, terms, s, input))
    case WaitServerHello =>
      if input == [] then None else if input[0].Ccs? then Some(Fail(s)) else Some(Do(env, terms, s, input))
    case WaitCcs =>
      if input == [] then None
      else if input[0].Hs? then Some(Fail(s))
      else
        var t := Do(env, terms, s.(wait := WaitOk), input[1..]);
        Some(t.(consumed := t.consumed + 1))
    case _ => if s.state == Done then None else Some(Do(env, terms, s, input))
  }

  lemma ReadsFinished(env: Env, terms: Terms, s: Server, input: seq<Item>)
    requires s.state == ReadClientFinished
    ensures Do(env, terms, s, input) ==
            if Peek(input).None? then Stay(s, WaitMessage) else CheckFinished(env, terms, s, Peek(input).value)
  {
    hide CheckFinished;
  }

  lemma SendsFinished(env: Env, terms: Terms, s: Server, input: seq<Item>)
    requires s.state == SendServerFinished
    ensures Do(env, terms, s, input) == SendFinished(env, terms, s)
  {
    hide SendFinished;
  }

  // ----- What any run of the server does, whatever it receives

  function Rank(s: State, resumed: bool): nat {
    match s
    case StartAccept => 19
    case ReadClientHello => 18
    case SelectCertificate => 17
    case SelectParameters => 16
    case SendServerHello => 15
    case SendServerCertificate => 14
    case SendServerKeyExchange => 13
    case SendServerHelloDone => 12
    case ReadClientCertificate => 11
    case VerifyClientCertificate => 10
    case ReadClientKeyExchange => 9
    case ReadClientCertificateVerify => 8
    case ReadChangeCipherSpec => if resumed then 6 else 7
    case ProcessChangeCipherSpec => if resumed then 5 else 6
    case ReadNextProto => if resumed then 4 else 5
    case ReadChannelId => if resumed then 3 else 4
    case ReadClientFinished => if resumed then 2 else 3
    case SendServerFinished => if resumed then 7 else 2
    case FinishServerHandshake => 1
    case Done => 0
  }

  function Measure(s: Server, resumed: bool): nat {
    if s.wait == WaitError then 0 else 1 + 2 * Rank(s.state, resumed) + if Reading(s.wait) then 0 else 1
  }

  predicate Certifying(s: State) {
    InClientFlight(s) || s.SendServerCertificate? || s.SendServerKeyExchange? || s.SendServerHelloDone?
  }

  /** Only a cipher change waits for its record, and only a full handshake certifies. */
  predicate Sane(s: Server, resumed: bool) {
    && (s.wait == WaitCcs <==> s.state == ProcessChangeCipherSpec && s.wait != WaitError)
    && (s.state == Done ==> s.wait == WaitOk || s.wait == WaitError)
    && (Certifying(s.state) ==> !resumed)
  }

  function LogAt(s: State, resumed: bool): seq<Mark> {
    var start := if resumed then WROTE else [];
    match s
    case ReadChangeCipherSpec => start
    case ProcessChangeCipherSpec => start
    case ReadNextProto => start + [ReadCipherOn]
    case ReadChannelId => start + [ReadCipherOn]
    case ReadClientFinished => start + [ReadCipherOn]
    case SendServerFinished => if resumed then [] else READ
    case FinishServerHandshake => if resumed then WROTE + READ else READ + WROTE
    case Done => if resumed then WROTE + READ else READ + WROTE
    case _ => []
  }

  lemma AnswerKeeps(env: Env, terms: Terms, s: Server, m: Option<Msg>)
    requires Answering(s.state) && Sane(s, terms.hello.resumed) && s.wait != WaitError && (Reading(s.wait) ==> m.Some?)
    requires s.log == []
    ensures var t := DoAnswer(env, terms, s, m).s;
            && Sane(t, terms.hello.resumed) && Measure(t, terms.hello.resumed) < Measure(s, terms.hello.resumed)
            && t.log == LogAt(t.state, terms.hello.resumed)
  {
    hide Items, Optional;
  }

  lemma ClientFlightKeeps(env: Env, terms: Terms, s: Server, m: Option<Msg>)
    requires InClientFlight(s.state) && Sane(s, terms.hello.resumed) && s.wait != WaitError
    requires (Reading(s.wait) ==> m.Some?) && s.log == []
    ensures var t := DoClientFlight(env, terms, s, m).s;
            && Sane(t, terms.hello.resumed) && Measure(t, terms.hello.resumed) < Measure(s, terms.hello.resumed)
            && t.log == LogAt(t.state, terms.hello.resumed)
  {
  }

  lemma FinishKeeps(env: Env, terms: Terms, s: Server, m: Option<Msg>)
    requires !Answering(s.state) && !InClientFlight(s.state) && s.state != Done
    requires s.wait != WaitError && s.wait != WaitCcs && (Reading(s.wait) ==> m.Some?)
    ensures var t := DoFinish(env, terms, s, m).s;
            Sane(t, terms.hello.resumed) && Measure(t, terms.hello.resumed) < Measure(s, terms.hello.resumed)
  {
    hide SendFinished, CheckFinished, LogAt;
  }

  lemma FinishLogs(env: Env, terms: Terms, s: Server, m: Option<Msg>)
    requires !Answering(s.state) && !InClientFlight(s.state)
    requires s.log == LogAt(s.state, terms.hello.resumed)
    ensures var t := DoFinish(env, terms, s, m).s;
            t.log == LogAt(t.state, terms.hello.resumed)
  {
    hide SendFinished, CheckFinished;
    ReadInTwo(if terms.hello.resumed then WROTE else []);
  }

  /** Every step is progress, and keeps the log what it must be. */
  lemma StepKeeps(env: Env, terms: Terms, s: Server, input: seq<Item>)
    requires Sane(s, terms.hello.resumed) && s.log == LogAt(s.state, terms.hello.resumed)
    ensures var t := Step(env, terms, s, input);
            t.Some? ==>
              && Sane(t.value.s, terms.hello.resumed)
              && Measure(t.value.s, terms.hello.resumed) < Measure(s, terms.hello.resumed)
              && t.value.s.log == LogAt(t.value.s.state, terms.hello.resumed)
  {
    hide DoAnswer, DoClientFlight, DoFinish;
    if Step(env, terms, s, input).Some? && s.wait != WaitError {
      if s.wait == WaitCcs {
        FinishKeeps(env, terms, s.(wait := WaitOk), Peek(input[1..]));
        FinishLogs(env, terms, s.(wait := WaitOk), Peek(input[1..]));
        ProcessesCcs(env, terms, s.(wait := WaitOk), Peek(input[1..]));
      } else if s.state != Done && (Reading(s.wait) ==> Peek(input).Some?) {
        if Answering(s.state) {
          AnswerKeeps(env, terms, s, Peek(input));
        } else if InClientFlight(s.state) {
          ClientFlightKeeps(env, terms, s, Peek(input));
        } else {
          FinishKeeps(env, terms, s, Peek(input));
          FinishLogs(env, terms, s, Peek(input));
        }
      }
    }
  }

  lemma ProcessesCcs(env: Env, terms: Terms, s: Server, m: Option<Msg>)
    requires s.state == ProcessChangeCipherSpec && s.wait == WaitOk
    ensures var t := DoFinish(env, terms, s, m);
            t.consumed == 0 && t.s.state == ReadNextProto && t.s.wait == WaitOk
  {
  }

  // ----- Whole runs of the server alone

  function Run(env: Env, terms: Terms, inputs: seq<seq<Item>>): Server {
    if inputs == [] then START
    else
      var s := Run(env, terms, inputs[..|inputs| - 1]);
      var t := Step(env, terms, s, inputs[|inputs| - 1]);
      if t.Some? then t.value.s else s
  }

  lemma {:induction false} RunKeeps(env: Env, terms: Terms, inputs: seq<seq<Item>>)
    ensures var s := Run(env, terms, inputs);
            Sane(s, terms.hello.resumed) && s.log == LogAt(s.state, terms.hello.resumed)
    decreases |inputs|
  {
    hide Step;
    if inputs != [] {
      RunKeeps(env, terms, inputs[..|inputs| - 1]);
      StepKeeps(env, terms, Run(env, terms, inputs[..|inputs| - 1]), inputs[|inputs| - 1]);
    }
  }

  /**
    Whatever a server receives, when it is done it has checked the client's Finished once,
    after its read cipher changed, and sent its own once, after its write cipher did.
   */
  lemma DoneMeansFinished(env: Env, terms: Terms, inputs: seq<seq<Item>>)
    requires Run(env, terms, inputs).state == Done
    ensures Run(env, terms, inputs).log == if terms.hello.resumed then WROTE + READ else READ + WROTE
  {
    hide Run;
    RunKeeps(env, terms, inputs);
  }
}
