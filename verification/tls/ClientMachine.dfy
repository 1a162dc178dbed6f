/**
  The client's handshake state machine (handshake_client.cc) below TLS 1.3: one function
  for what a state does, and what every run of it keeps.
 */
module ClientMachine {
  import opened Wrappers
  import opened Script

  datatype State =
    | StartConnect | EnterEarlyData | ReadServerHello | ReadServerCertificate | ReadCertificateStatus
    | VerifyServerCertificate | ReadServerKeyExchange | ReadCertificateRequest | ReadServerHelloDone
    | SendClientCertificate | SendClientKeyExchange | SendClientCertificateVerify | SendClientFinished
    | FinishFlight | ReadSessionTicket | ProcessChangeCipherSpec | ReadServerFinished
    | FinishClientHandshake | Done

  /** The client: its state, what it waits for, the terms it learned, its transcript and its log. */
  datatype Client = Client(state: State, wait: Wait, terms: HelloTerms, certRequested: bool,
                           transcript: seq<Msg>, log: seq<Mark>, finishedOver: Option<seq<Msg>>)

  const NO_TERMS := HelloTerms(false, false, false, false, false, false)
  const START := Client(StartConnect, WaitOk, NO_TERMS, false, [], [], None)

  /** What a step did: the client after it, how many items it consumed, and what it sent. */
  datatype Turn = Turn(c: Client, consumed: nat, out: seq<Item>)

  function Go(c: Client, next: State): Turn { Turn(c.(state := next, wait := WaitOk), 0, []) }

  function Stay(c: Client, wait: Wait): Turn { Turn(c.(wait := wait), 0, []) }

  function Fail(c: Client): Turn { Turn(c.(wait := WaitError), 0, []) }

  /** A message is hashed, consumed, and the machine moves on. */
  function Took(c: Client, m: Msg, next: State): Turn {
    Turn(c.(transcript := c.transcript + [m], state := next, wait := WaitOk), 1, [])
  }

  function Sent(c: Client, m: Msg, next: State): Turn {
    Turn(c.(transcript := c.transcript + [m], state := next, wait := WaitOk), 0, [Hs(m)])
  }

  /** The states before the client's last flight and the server's. */
  predicate BeforeFinished(s: State) {
    !s.SendClientFinished? && !s.FinishFlight? && !s.ReadSessionTicket? && !s.ProcessChangeCipherSpec?
    && !s.ReadServerFinished? && !s.FinishClientHandshake? && !s.Done?
  }

  /** The states that read what the server sends between its hello and its hello done. */
  predicate InServerFlight(s: State) {
    s.ReadServerCertificate? || s.ReadCertificateStatus? || s.VerifyServerCertificate?
    || s.ReadServerKeyExchange? || s.ReadCertificateRequest? || s.ReadServerHelloDone?
  }

  function DoServerFlight(c: Client, m: Option<Msg>): Turn
    requires InServerFlight(c.state)
  {
    match c.state
    case ReadServerCertificate =>
      if !c.terms.certAuth then Go(c, ReadCertificateStatus)
      else if m.None? then Stay(c, WaitMessage)
      else if m.value.typ != MtCertificate then Fail(c)
      else Took(c, m.value, ReadCertificateStatus)
    case ReadCertificateStatus =>
      if !c.terms.statusExpected then Go(c, VerifyServerCertificate)
      else if m.None? then Stay(c, WaitMessage)
      else if m.value.typ != MtCertificateStatus then Go(c, VerifyServerCertificate)
      else Took(c, m.value, VerifyServerCertificate)
    case VerifyServerCertificate => Go(c, ReadServerKeyExchange)
    case ReadServerKeyExchange =>
      if m.None? then Stay(c, WaitMessage)
      else if m.value.typ != MtServerKeyExchange then
        if c.terms.needsSke then Fail(c) else Go(c, ReadCertificateRequest)
      else Took(c, m.value, ReadCertificateRequest)
    case ReadCertificateRequest =>
      if !c.terms.certAuth then Go(c, ReadServerHelloDone)
      else if m.None? then Stay(c, WaitMessage)
      else if m.value.typ == MtServerHelloDone then Go(c, ReadServerHelloDone)
      else if m.value.typ != MtCertificateRequest then Fail(c)
      else Took(c.(certRequested := true), m.value, ReadServerHelloDone)
    case ReadServerHelloDone =>
      if m.None? then Stay(c, WaitMessage)
      else if m.value.typ != MtServerHelloDone then Fail(c)
      else Took(c, m.value, SendClientCertificate)
  }

  /** The states up to the client's last flight. */
  function DoBefore(env: Env, c: Client, input: seq<Item>): Turn
    requires BeforeFinished(c.state)
  {
    var m := Peek(input);
    if InServerFlight(c.state) then DoServerFlight(c, m)
    else
    match c.state
    case StartConnect =>
      var hello := Msg(MtClientHello, env.clientBody(ClientHello));
      var t := Sent(c, hello, EnterEarlyData);
      t.(c := t.c.(wait := WaitFlush))
    case EnterEarlyData => Go(c, ReadServerHello)
    case ReadServerHello =>
      if m.None? then Stay(c, WaitServerHello)
      else if m.value.typ != MtServerHello then Fail(c)
      else
        var terms := env.helloTerms(m.value.body);
        Took(c.(terms := terms), m.value, if terms.resumed then ReadSessionTicket else ReadServerCertificate)
    case SendClientCertificate =>
      if !c.certRequested then Go(c, SendClientKeyExchange)
      else Sent(c, Msg(MtCertificate, env.clientBody(ClientCert)), SendClientKeyExchange)
    case SendClientKeyExchange =>
      Sent(c, Msg(MtClientKeyExchange, env.clientBody(ClientKx)), SendClientCertificateVerify)
    case SendClientCertificateVerify =>
      if !c.certRequested || !env.hasCerts(env.clientBody(ClientCert)) then Go(c, SendClientFinished)
      else Sent(c, Msg(MtCertificateVerify, env.clientBody(CertVerify)), SendClientFinished)
  }

  /** The cipher change, NextProto if negotiated, and Finished over all before it. */
  function SendFinished(env: Env, c: Client): (t: Turn)
    ensures t.c.log == c.log + WROTE && t.c.terms == c.terms && t.consumed == 0
    ensures t.c.state == FinishFlight && t.c.wait == WaitFlush && t.c.certRequested == c.certRequested
  {
    var proto := if c.terms.nextProto then [Msg(MtNextProto, env.clientBody(NextProto))] else [];
    var over := c.transcript + proto;
    var finished := Msg(MtFinished, env.mac(over, false));
    Turn(c.(transcript := over + [finished], log := c.log + WROTE, finishedOver := Some(over),
            state := FinishFlight, wait := WaitFlush),
         0, [Ccs] + Items(proto) + [Hs(finished)])
  }

  /** The server's Finished must be the one computed over this client's transcript. */
  function CheckFinished(env: Env, c: Client, m: Msg): (t: Turn)
    ensures t.c.terms == c.terms
    ensures if t.c.wait == WaitError then t.c.state == c.state && t.c.log == c.log
            else
              && t.c.log == c.log + [FinishedVerified] && t.c.wait == WaitOk
              && t.c.state == if c.terms.resumed then SendClientFinished else FinishClientHandshake
  {
    if m.typ != MtFinished || m.body != env.mac(c.transcript, true) then Fail(c)
    else
      Took(c.(log := c.log + [FinishedVerified]), m,
           if c.terms.resumed then SendClientFinished else FinishClientHandshake)
  }

  /** The last flights: ticket, cipher changes and Finished, in either order. */
  function DoAfter(env: Env, c: Client, input: seq<Item>): Turn
    requires !BeforeFinished(c.state)
  {
    var m := Peek(input);
    match c.state
    case SendClientFinished => SendFinished(env, c)
    case FinishFlight =>
      if c.terms.resumed then Go(c, FinishClientHandshake)
      else Turn(c.(state := ReadSessionTicket, wait := if env.falseStart then WaitEarlyReturn else WaitOk), 0, [])
    case ReadSessionTicket =>
      if !c.terms.ticket then Turn(c.(state := ProcessChangeCipherSpec, wait := WaitCcs), 0, [])
      else if m.None? then Stay(c, WaitMessage)
      else if m.value.typ != MtNewSessionTicket then Fail(c)
      else
        var t := Took(c, m.value, ProcessChangeCipherSpec);
        t.(c := t.c.(wait := WaitCcs))
    case ProcessChangeCipherSpec => Go(c.(log := c.log + [ReadCipherOn]), ReadServerFinished)
    case ReadServerFinished => if m.None? then Stay(c, WaitMessage) else CheckFinished(env, c, m.value)
    case FinishClientHandshake => Go(c, Done)
    case Done => Stay(c, WaitOk)
  }

  function Do(env: Env, c: Client, input: seq<Item>): Turn {
    if BeforeFinished(c.state) then DoBefore(env, c, input) else DoAfter(env, c, input)
  }

  /** Resolve what the machine waits for, then run one state; none while it has to wait. */
  function Step(env: Env, c: Client, input: seq<Item>): Option<Turn> {
    match c.wait
    case WaitError => None
    case WaitMessage =>
      if input == [] then None else if input[0].Ccs? then Some(Fail(c)) else Some(Do(env, c, input))
    case WaitServerHello =>
      if input == [] then None else if input[0].Ccs? then Some(Fail(c)) else Some(Do(env, c, input))
    case WaitCcs =>
      if input == [] then None
      else if input[0].Hs? then Some(Fail(c))
      else
        var t := Do(env, c.(wait := WaitOk), input[1..]);
        Some(t.(consumed := t.consumed + 1))
    case _ => if c.state == Done then None else Some(Do(env, c, input))
  }

  lemma ReadsFinished(env: Env, c: Client, input: seq<Item>)
    requires c.state == ReadServerFinished
    ensures Do(env, c, input) ==
            if Peek(input).None? then Stay(c, WaitMessage) else CheckFinished(env, c, Peek(input).value)
  {
    hide CheckFinished;
  }

  lemma SendsFinished(env: Env, c: Client, input: seq<Item>)
    requires c.state == SendClientFinished
    ensures Do(env, c, input) == SendFinished(env, c)
  {
    hide SendFinished;
  }

  // ----- What any run of the client does, whatever it receives

  /** The steps still ahead; a resumed handshake goes through the states in another order. */
  function Rank(s: State, resumed: bool): nat {
    match s
    case StartConnect => 18
    case EnterEarlyData => 17
    case ReadServerHello => 16
    case ReadServerCertificate => 15
    case ReadCertificateStatus => 14
    case VerifyServerCertificate => 13
    case ReadServerKeyExchange => 12
    case ReadCertificateRequest => 11
    case ReadServerHelloDone => 10
    case SendClientCertificate => 9
    case SendClientKeyExchange => 8
    case SendClientCertificateVerify => 7
    case SendClientFinished => if resumed then 3 else 6
    case FinishFlight => if resumed then 2 else 5
    case ReadSessionTicket => if resumed then 6 else 4
    case ProcessChangeCipherSpec => if resumed then 5 else 3
    case ReadServerFinished => if resumed then 4 else 2
    case FinishClientHandshake => 1
    case Done => 0
  }

  function Measure(c: Client): nat {
    if c.wait == WaitError then 0
    else 1 + 2 * Rank(c.state, c.terms.resumed) + if Reading(c.wait) then 0 else 1
  }

  /** Only a full handshake goes through the earlier states, and only a cipher change waits for its record. */
  predicate Sane(c: Client) {
    && (c.wait == WaitCcs <==> c.state == ProcessChangeCipherSpec && c.wait != WaitError)
    && (BeforeFinished(c.state) ==> !c.terms.resumed)
    && (c.state == Done ==> c.wait == WaitOk || c.wait == WaitError)
  }

  /** What the log must hold in a state: each Finished once, each after its cipher change. */
  function LogAt(s: State, resumed: bool): seq<Mark> {
    match s
    case SendClientFinished => if resumed then READ else []
    case FinishFlight => if resumed then READ + WROTE else WROTE
    case ReadSessionTicket => if resumed then [] else WROTE
    case ProcessChangeCipherSpec => if resumed then [] else WROTE
    case ReadServerFinished => (if resumed then [] else WROTE) + [ReadCipherOn]
    case FinishClientHandshake => if resumed then READ + WROTE else WROTE + READ
    case Done => if resumed then READ + WROTE else WROTE + READ
    case _ => []
  }

  /** Running a state that has what it waited for is sane progress. */
  lemma DoSane(env: Env, c: Client, input: seq<Item>)
    requires c.state != Done && (BeforeFinished(c.state) ==> !c.terms.resumed)
    requires c.wait != WaitError && c.wait != WaitCcs && (Reading(c.wait) ==> Peek(input).Some?)
    ensures var t := Do(env, c, input);
            Sane(t.c) && Measure(t.c) < Measure(c)
  {
    if BeforeFinished(c.state) {
      DoSaneBefore(env, c, input);
    } else {
      DoSaneAfter(env, c, input);
    }
  }

  lemma FlightIsDo(env: Env, c: Client, input: seq<Item>)
    requires InServerFlight(c.state)
    ensures Do(env, c, input) == DoServerFlight(c, Peek(input))
  {
    hide DoServerFlight, DoAfter;
  }

  lemma FlightProgress(c: Client, m: Option<Msg>)
    requires InServerFlight(c.state) && c.wait != WaitError && c.wait != WaitCcs && (Reading(c.wait) ==> m.Some?)
    ensures Measure(DoServerFlight(c, m).c) < Measure(c)
  {
    hide Sane, LogAt;
  }

  lemma FlightSane(c: Client, m: Option<Msg>)
    requires InServerFlight(c.state) && !c.terms.resumed
    requires c.wait != WaitError && c.wait != WaitCcs && (Reading(c.wait) ==> m.Some?)
    ensures var t := DoServerFlight(c, m);
            && Sane(t.c) && Measure(t.c) < Measure(c) && t.c.log == c.log && !t.c.terms.resumed
            && (BeforeFinished(t.c.state) && t.c.state != SendClientFinished)
  {
    hide Measure, LogAt;
    FlightProgress(c, m);
  }

  lemma DoSaneBefore(env: Env, c: Client, input: seq<Item>)
    requires BeforeFinished(c.state) && !c.terms.resumed
    requires c.wait != WaitError && c.wait != WaitCcs && (Reading(c.wait) ==> Peek(input).Some?)
    ensures var t := Do(env, c, input);
            Sane(t.c) && Measure(t.c) < Measure(c)
  {
    hide DoAfter, LogAt, DoServerFlight;
    if InServerFlight(c.state) {
      FlightSane(c, Peek(input));
    }
  }

  lemma DoSaneAfter(env: Env, c: Client, input: seq<Item>)
    requires !BeforeFinished(c.state) && c.state != Done
    requires c.wait != WaitError && c.wait != WaitCcs && (Reading(c.wait) ==> Peek(input).Some?)
    ensures var t := Do(env, c, input);
            Sane(t.c) && Measure(t.c) < Measure(c)
  {
    hide DoBefore, SendFinished, CheckFinished, LogAt;
  }

  lemma DoLogs(env: Env, c: Client, input: seq<Item>)
    requires c.log == LogAt(c.state, c.terms.resumed) && (BeforeFinished(c.state) ==> !c.terms.resumed)
    ensures var t := Do(env, c, input).c;
            t.log == LogAt(t.state, t.terms.resumed)
  {
    if BeforeFinished(c.state) {
      DoLogsBefore(env, c, input);
    } else {
      DoLogsAfter(env, c, input);
    }
  }

  lemma FlightLogs(c: Client, m: Option<Msg>)
    requires InServerFlight(c.state)
    ensures var t := DoServerFlight(c, m);
            t.c.log == c.log && BeforeFinished(t.c.state)
  {
  }

  lemma DoLogsBefore(env: Env, c: Client, input: seq<Item>)
    requires BeforeFinished(c.state) && !c.terms.resumed && c.log == LogAt(c.state, c.terms.resumed)
    ensures var t := Do(env, c, input).c;
            t.log == LogAt(t.state, t.terms.resumed)
  {
    hide DoAfter, DoServerFlight;
    if InServerFlight(c.state) {
      FlightLogs(c, Peek(input));
    }
  }

  lemma CheckLogs(env: Env, c: Client, input: seq<Item>)
    requires c.state == ReadServerFinished && c.log == LogAt(c.state, c.terms.resumed)
    ensures var t := Do(env, c, input).c;
            t.log == LogAt(t.state, t.terms.resumed)
  {
    hide DoBefore, SendFinished, CheckFinished;
    ReadInTwo(if c.terms.resumed then [] else WROTE);
  }

  lemma DoLogsAfter(env: Env, c: Client, input: seq<Item>)
    requires !BeforeFinished(c.state)
    requires c.log == LogAt(c.state, c.terms.resumed)
    ensures var t := Do(env, c, input).c;
            t.log == LogAt(t.state, t.terms.resumed)
  {
    hide DoBefore, SendFinished, CheckFinished;
    if c.state == ReadServerFinished {
      CheckLogs(env, c, input);
    } else if c.state == SendClientFinished {
      assert [] + WROTE == WROTE;
    } else if c.state == ProcessChangeCipherSpec {
    }
  }

  /** Every step is progress, and keeps the log what it must be. */
  lemma StepKeeps(env: Env, c: Client, input: seq<Item>)
    requires Sane(c) && c.log == LogAt(c.state, c.terms.resumed)
    ensures var t := Step(env, c, input);
            t.Some? ==>
              && Sane(t.value.c) && Measure(t.value.c) < Measure(c)
              && t.value.c.log == LogAt(t.value.c.state, t.value.c.terms.resumed)
  {
    hide Do, LogAt;
    if Step(env, c, input).Some? && c.wait != WaitError {
      if c.wait == WaitCcs {
        ProcessesCcs(env, c.(wait := WaitOk), input[1..]);
        DoLogs(env, c.(wait := WaitOk), input[1..]);
      } else if c.state != Done && (Reading(c.wait) ==> Peek(input).Some?) {
        DoSane(env, c, input);
        DoLogs(env, c, input);
      }
    }
  }

  lemma ProcessesCcs(env: Env, c: Client, input: seq<Item>)
    requires c.state == ProcessChangeCipherSpec && c.wait == WaitOk
    ensures var t := Do(env, c, input);
            Sane(t.c) && Measure(t.c) < Measure(c.(wait := WaitCcs)) && t.consumed == 0
  {
  }

  // ----- Whole runs of the client alone

  /** A client fed with arbitrary inputs, one per step; it stops where a step is not possible. */
  function Run(env: Env, inputs: seq<seq<Item>>): Client {
    if inputs == [] then START
    else
      var c := Run(env, inputs[..|inputs| - 1]);
      var t := Step(env, c, inputs[|inputs| - 1]);
      if t.Some? then t.value.c else c
  }

  lemma {:induction false} RunKeeps(env: Env, inputs: seq<seq<Item>>)
    ensures var c := Run(env, inputs);
            Sane(c) && c.log == LogAt(c.state, c.terms.resumed)
    decreases |inputs|
  {
    hide Step;
    if inputs != [] {
      RunKeeps(env, inputs[..|inputs| - 1]);
      StepKeeps(env, Run(env, inputs[..|inputs| - 1]), inputs[|inputs| - 1]);
    }
  }

  /**
    Whatever a client receives, when it is done it has checked the server's Finished once,
    after its read cipher changed, and sent its own once, after its write cipher did.
   */
  lemma {:induction false} DoneMeansFinished(env: Env, inputs: seq<seq<Item>>)
    requires Run(env, inputs).state == Done
    ensures Run(env, inputs).log == if Run(env, inputs).terms.resumed then READ + WROTE else WROTE + READ
  {
    hide Run;
    RunKeeps(env, inputs);
  }
}
