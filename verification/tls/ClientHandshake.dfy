/**
  The client's handshake as the object that runs it (handshake_client.cc, and the loop of
  handshake.cc): fields updated in place by one method per state, each proved to do what
  the machine's function says, and a loop proved to take the machine's steps.
 */
module ClientHandshake {
  import opened Wrappers
  import opened Script
  import opened ClientMachine

  /** Several steps on end: the client after them, all they consumed and all they sent. */
  function Steps(env: Env, c: Client, input: seq<Item>, n: nat): (t: Option<Turn>)
    ensures t.Some? ==> t.value.consumed <= |input|
  {
    if n == 0 then Some(Turn(c, 0, []))
    else
      var t := Steps(env, c, input, n - 1);
      if t.None? then None
      else
        var u := Step(env, t.value.c, input[t.value.consumed..]);
        if u.None? || t.value.consumed + u.value.consumed > |input| then None
        else Some(Turn(u.value.c, t.value.consumed + u.value.consumed, t.value.out + u.value.out))
  }

  /** Why a run of the handshake came back to its caller. */
  datatype Outcome = Complete | Failed | Blocked | FlushPending | EarlyReturn

  class Handshake {
    const env: Env
    var state: State
    var wait: Wait
    var terms: HelloTerms
    var certRequested: bool
    var transcript: seq<Msg>
    var log: seq<Mark>
    var finishedOver: Option<seq<Msg>>
    var incoming: seq<Item>
    var outgoing: seq<Item>

    function Value(): Client
      reads this
    {
      Client(state, wait, terms, certRequested, transcript, log, finishedOver)
    }

    /** The object went through a turn. */
    twostate predicate Did(t: Turn)
      reads this
    {
      && Value() == t.c && t.consumed <= |old(incoming)|
      && incoming == old(incoming)[t.consumed..] && outgoing == old(outgoing) + t.out
    }

    constructor (env: Env)
      ensures Value() == START && incoming == [] && outgoing == [] && this.env == env
    {
      this.env := env;
      state, wait, terms, certRequested := StartConnect, WaitOk, NO_TERMS, false;
      transcript, log, finishedOver := [], [], None;
      incoming, outgoing := [], [];
    }

    // ----- Messages

    /** ssl_hash_message and next_message. */
    method TakeMessage(m: Msg)
      requires incoming != []
      modifies this`transcript, this`incoming
      ensures transcript == old(transcript) + [m] && incoming == old(incoming)[1..]
    {
      transcript := transcript + [m];
      incoming := incoming[1..];
    }

    /** add_message, which hashes what it queues. */
    method AddMessage(m: Msg)
      modifies this`transcript, this`outgoing
      ensures transcript == old(transcript) + [m] && outgoing == old(outgoing) + [Hs(m)]
    {
      transcript := transcript + [m];
      outgoing := outgoing + [Hs(m)];
    }

    method GoTo(next: State)
      modifies this`state, this`wait
      ensures state == next && wait == WaitOk
    {
      state := next;
      wait := WaitOk;
    }

    // ----- The states up to the client's Finished

    method DoStartConnect()
      requires state == StartConnect
      modifies this
      ensures Did(Do(env, old(Value()), old(incoming)))
    {
      AddMessage(Msg(MtClientHello, env.clientBody(ClientHello)));
      state := EnterEarlyData;
      wait := WaitFlush;
    }

    method DoEnterEarlyData()
      requires state == EnterEarlyData
      modifies this
      ensures Did(Do(env, old(Value()), old(incoming)))
    {
      GoTo(ReadServerHello);
    }

    method DoReadServerHello()
      requires state == ReadServerHello
      modifies this
      ensures Did(Do(env, old(Value()), old(incoming)))
    {
      var msg := Peek(incoming);
      if msg.None? {
        wait := WaitServerHello;
        return;
      }
      if msg.value.typ != MtServerHello {
        wait := WaitError;
        return;
      }
      terms := env.helloTerms(msg.value.body);
      TakeMessage(msg.value);
      GoTo(if terms.resumed then ReadSessionTicket else ReadServerCertificate);
    }

    method DoReadServerCertificate()
      requires state == ReadServerCertificate
      modifies this
      ensures Did(Do(env, old(Value()), old(incoming)))
    {
      if !terms.certAuth {
        GoTo(ReadCertificateStatus);
        return;
      }
      var msg := Peek(incoming);
      if msg.None? {
        wait := WaitMessage;
        return;
      }
      if msg.value.typ != MtCertificate {
        wait := WaitError;
        return;
      }
      TakeMessage(msg.value);
      GoTo(ReadCertificateStatus);
    }

    method DoReadCertificateStatus()
      requires state == ReadCertificateStatus
      modifies this
      ensures Did(Do(env, old(Value()), old(incoming)))
    {
      if !terms.statusExpected {
        GoTo(VerifyServerCertificate);
        return;
      }
      var msg := Peek(incoming);
      if msg.None? {
        wait := WaitMessage;
        return;
      }
      // A server may say it will send a status and then not do so.
      if msg.value.typ == MtCertificateStatus {
        TakeMessage(msg.value);
      }
      GoTo(VerifyServerCertificate);
    }

    method DoReadServerKeyExchange()
      requires state == ReadServerKeyExchange
      modifies this
      ensures Did(Do(env, old(Value()), old(incoming)))
    {
      var msg := Peek(incoming);
      if msg.None? {
        wait := WaitMessage;
        return;
      }
      if msg.value.typ != MtServerKeyExchange {
        if terms.needsSke {
          wait := WaitError;
          return;
        }
        GoTo(ReadCertificateRequest);
        return;
      }
      TakeMessage(msg.value);
      GoTo(ReadCertificateRequest);
    }

    method DoReadCertificateRequest()
      requires state == ReadCertificateRequest
      modifies this
      ensures Did(Do(env, old(Value()), old(incoming)))
    {
      if !terms.certAuth {
        GoTo(ReadServerHelloDone);
        return;
      }
      var msg := Peek(incoming);
      if msg.None? {
        wait := WaitMessage;
        return;
      }
      if msg.value.typ == MtServerHelloDone {
        GoTo(ReadServerHelloDone);
        return;
      }
      if msg.value.typ != MtCertificateRequest {
        wait := WaitError;
        return;
      }
      certRequested := true;
      TakeMessage(msg.value);
      GoTo(ReadServerHelloDone);
    }

    method DoReadServerHelloDone()
      requires state == ReadServerHelloDone
      modifies this
      ensures Did(Do(env, old(Value()), old(incoming)))
    {
      var msg := Peek(incoming);
      if msg.None? {
        wait := WaitMessage;
        return;
      }
      if msg.value.typ != MtServerHelloDone {
        wait := WaitError;
        return;
      }
      TakeMessage(msg.value);
      GoTo(SendClientCertificate);
    }

    method DoSendClientCertificate()
      requires state == SendClientCertificate
      modifies this
      ensures Did(Do(env, old(Value()), old(incoming)))
    {
      if certRequested {
        AddMessage(Msg(MtCertificate, env.clientBody(ClientCert)));
      }
      GoTo(SendClientKeyExchange);
    }

    method DoSendClientKeyExchange()
      requires state == SendClientKeyExchange
      modifies this
      ensures Did(Do(env, old(Value()), old(incoming)))
    {
      AddMessage(Msg(MtClientKeyExchange, env.clientBody(ClientKx)));
      GoTo(SendClientCertificateVerify);
    }

    method DoSendClientCertificateVerify()
      requires state == SendClientCertificateVerify
      modifies this
      ensures Did(Do(env, old(Value()), old(incoming)))
    {
      if certRequested && env.hasCerts(env.clientBody(ClientCert)) {
        AddMessage(Msg(MtCertificateVerify, env.clientBody(CertVerify)));
      }
      GoTo(SendClientFinished);
    }

    // ----- The last flights

    method DoSendClientFinished()
      requires state == SendClientFinished
      modifies this
      ensures Did(Do(env, old(Value()), old(incoming)))
    {
      hide Do, SendFinished;
      SendsFinished(env, old(Value()), old(incoming));
      outgoing := outgoing + [Ccs];
      log := log + [WriteCipherOn];
      if terms.nextProto {
        AddMessage(Msg(MtNextProto, env.clientBody(NextProto)));
      }
      // ssl_send_finished
      finishedOver := Some(transcript);
      AddMessage(Msg(MtFinished, env.mac(transcript, false)));
      log := log + [FinishedSent];
      state := FinishFlight;
      wait := WaitFlush;
      SentInOne(old(outgoing), env, old(Value()));
    }

    method DoFinishFlight()
      requires state == FinishFlight
      modifies this
      ensures Did(Do(env, old(Value()), old(incoming)))
    {
      if terms.resumed {
        GoTo(FinishClientHandshake);
        return;
      }
      state := ReadSessionTicket;
      wait := if env.falseStart then WaitEarlyReturn else WaitOk;
    }

    method DoReadSessionTicket()
      requires state == ReadSessionTicket
      modifies this
      ensures Did(Do(env, old(Value()), old(incoming)))
    {
      if terms.ticket {
        var msg := Peek(incoming);
        if msg.None? {
          wait := WaitMessage;
          return;
        }
        if msg.value.typ != MtNewSessionTicket {
          wait := WaitError;
          return;
        }
        TakeMessage(msg.value);
      }
      state := ProcessChangeCipherSpec;
      wait := WaitCcs;
    }

    method DoProcessChangeCipherSpec()
      requires state == ProcessChangeCipherSpec
      modifies this
      ensures Did(Do(env, old(Value()), old(incoming)))
    {
      log := log + [ReadCipherOn];
      GoTo(ReadServerFinished);
    }

    /** ssl_get_finished: checked against the transcript before it is hashed itself. */
    method DoReadServerFinished()
      requires state == ReadServerFinished
      modifies this
      ensures Did(Do(env, old(Value()), old(incoming)))
    {
      hide Do;
      ReadsFinished(env, old(Value()), old(incoming));
      var msg := Peek(incoming);
      if msg.None? {
        wait := WaitMessage;
        return;
      }
      if msg.value.typ != MtFinished || msg.value.body != env.mac(transcript, true) {
        wait := WaitError;
        return;
      }
      log := log + [FinishedVerified];
      TakeMessage(msg.value);
      GoTo(if terms.resumed then SendClientFinished else FinishClientHandshake);
    }

    // ----- The loop

    method RunState()
      requires state != Done
      modifies this
      ensures Did(Do(env, old(Value()), old(incoming)))
    {
      hide Do;
      match state
      case StartConnect => DoStartConnect();
      case EnterEarlyData => DoEnterEarlyData();
      case ReadServerHello => DoReadServerHello();
      case ReadServerCertificate => DoReadServerCertificate();
      case ReadCertificateStatus => DoReadCertificateStatus();
      case VerifyServerCertificate => DoQuietly(ReadServerKeyExchange);
      case ReadServerKeyExchange => DoReadServerKeyExchange();
      case ReadCertificateRequest => DoReadCertificateRequest();
      case ReadServerHelloDone => DoReadServerHelloDone();
      case SendClientCertificate => DoSendClientCertificate();
      case SendClientKeyExchange => DoSendClientKeyExchange();
      case SendClientCertificateVerify => DoSendClientCertificateVerify();
      case SendClientFinished => DoSendClientFinished();
      case FinishFlight => DoFinishFlight();
      case ReadSessionTicket => DoReadSessionTicket();
      case ProcessChangeCipherSpec => DoProcessChangeCipherSpec();
      case ReadServerFinished => DoReadServerFinished();
      case FinishClientHandshake => DoQuietly(Done);
    }

    /** The awaited record is there, or nothing is awaited: take it, and run one state. */
    method Round()
      requires wait != WaitError && state != Done && (Reading(wait) ==> incoming != [])
      requires wait == WaitCcs ==> state == ProcessChangeCipherSpec
      modifies this
      ensures Step(env, old(Value()), old(incoming)).Some?
      ensures Did(Step(env, old(Value()), old(incoming)).value)
    {
      hide Do;
      if Reading(wait) && incoming[0].Ccs? != (wait == WaitCcs) {
        wait := WaitError;
        return;
      }
      if wait == WaitCcs {
        incoming := incoming[1..];
        wait := WaitOk;
      }
      RunState();
    }

    /**
      ssl_run_handshake: resolve what the machine waits for and run its states, until it is
      done, has failed, or cannot go on.  The transport takes a flight `flushes` times
      before it blocks.  Every round is one step of the machine.
     */
    method RunHandshake(flushes: nat) returns (outcome: Outcome, ghost steps: nat)
      requires Sane(Value()) && log == LogAt(state, terms.resumed)
      modifies this
      ensures Sane(Value()) && log == LogAt(state, terms.resumed)
      ensures var t := Steps(env, old(Value()), old(incoming), steps);
              && t.Some?
              && (if outcome == EarlyReturn then t.value.c.wait == WaitEarlyReturn && Value() == t.value.c.(wait := WaitOk)
                  else Value() == t.value.c)
              && incoming == old(incoming)[t.value.consumed..] && outgoing == old(outgoing) + t.value.out
      ensures outcome != EarlyReturn && outcome != FlushPending ==> Step(env, Value(), incoming).None?
      ensures outcome == Complete <==> state == Done && wait == WaitOk
      ensures outcome == Failed <==> wait == WaitError
      ensures outcome == Blocked ==> Reading(wait) && incoming == []
      ensures outcome == FlushPending ==> wait == WaitFlush && steps >= flushes
    {
      hide Step, Steps, LogAt, Sane, Measure;
      StepsNone(env, Value(), incoming);
      var left := flushes;
      steps := 0;
      while state != Done || wait == WaitError
        invariant steps + left >= flushes
        invariant Sane(Value()) && log == LogAt(state, terms.resumed)
        invariant var t := Steps(env, old(Value()), old(incoming), steps);
                  t.Some? && Value() == t.value.c
                  && incoming == old(incoming)[t.value.consumed..] && outgoing == old(outgoing) + t.value.out
        decreases Measure(Value())
      {
        ghost var c, input := Value(), incoming;
        StepKeeps(env, c, input);
        SaneMeans(c);
        match wait {
          case WaitError =>
            Stopped(env, c, input);
            return Failed, steps;
          case WaitFlush =>
            if left == 0 {
              return FlushPending, steps;
            }
            left := left - 1;
          case WaitEarlyReturn =>
            wait := WaitOk;
            return EarlyReturn, steps;
          case _ =>
            if Reading(wait) && incoming == [] {
              Stopped(env, c, input);
              return Blocked, steps;
            }
        }
        Round();
        StepsExtend(env, old(Value()), old(incoming), steps, Step(env, c, input).value);
        steps := steps + 1;
      }
      SaneMeans(Value());
      Stopped(env, Value(), incoming);
      return Complete, steps;
    }

    /** The states that only move on: the certificate is accepted, the handshake is finalized. */
    method DoQuietly(next: State)
      requires (state == VerifyServerCertificate && next == ReadServerKeyExchange)
               || (state == FinishClientHandshake && next == Done)
      modifies this
      ensures Did(Do(env, old(Value()), old(incoming)))
    {
      GoTo(next);
    }
  }

  lemma SaneMeans(c: Client)
    requires Sane(c)
    ensures c.wait == WaitCcs ==> c.state == ProcessChangeCipherSpec
    ensures c.state == Done ==> c.wait == WaitOk || c.wait == WaitError
    ensures c.wait == WaitEarlyReturn ==> Sane(c.(wait := WaitOk))
  {
  }

  lemma Stopped(env: Env, c: Client, input: seq<Item>)
    requires c.wait == WaitError || (Reading(c.wait) && input == []) || (c.wait == WaitOk && c.state == Done)
    ensures Step(env, c, input).None?
  {
  }

  /** A cipher change, a message and Finished queued one by one are the flight queued at once. */
  lemma SentInOne(before: seq<Item>, env: Env, c: Client)
    ensures var proto := Msg(MtNextProto, env.clientBody(NextProto));
            var over := if c.terms.nextProto then c.transcript + [proto] else c.transcript;
            var sent := if c.terms.nextProto then before + [Ccs] + [Hs(proto)] else before + [Ccs];
            var finished := Msg(MtFinished, env.mac(over, false));
            var t := SendFinished(env, c);
            && t.c == c.(transcript := over + [finished], log := c.log + [WriteCipherOn] + [FinishedSent],
                         finishedOver := Some(over), state := FinishFlight, wait := WaitFlush)
            && before + t.out == sent + [Hs(finished)]
  {
    assert c.transcript + [] == c.transcript;
    assert c.log + [WriteCipherOn] + [FinishedSent] == c.log + WROTE;
  }

  lemma StepsNone(env: Env, c: Client, input: seq<Item>)
    ensures Steps(env, c, input, 0) == Some(Turn(c, 0, []))
  {
  }

  /** One more step at the end. */
  lemma StepsExtend(env: Env, c: Client, input: seq<Item>, n: nat, u: Turn)
    requires Steps(env, c, input, n).Some?
    requires var t := Steps(env, c, input, n).value;
             Step(env, t.c, input[t.consumed..]) == Some(u) && u.consumed <= |input[t.consumed..]|
    ensures var t, t' := Steps(env, c, input, n).value, Steps(env, c, input, n + 1);
            && t'.Some? && t'.value.c == u.c
            && input[t'.value.consumed..] == input[t.consumed..][u.consumed..]
            && forall before: seq<Item> :: before + t'.value.out == (before + t.out) + u.out
  {
    hide Step;
  }
}
