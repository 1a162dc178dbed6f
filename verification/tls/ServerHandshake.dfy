/**
  The server's handshake as the object that runs it (handshake_server.cc, and the loop of
  handshake.cc): fields updated in place by one method per state, each proved to do what
  the machine's function says, and a loop proved to take the machine's steps.
 */
module ServerHandshake {
  import opened Wrappers
  import opened Script
  import opened ServerMachine

  /** Several steps on end: the server after them, all they consumed and all they sent. */
  function Steps(env: Env, terms: Terms, s: Server, input: seq<Item>, n: nat): (t: Option<Turn>)
    ensures t.Some? ==> t.value.consumed <= |input|
  {
    if n == 0 then Some(Turn(s, 0, []))
    else
      var t := Steps(env, terms, s, input, n - 1);
      if t.None? then None
      else
        var u := Step(env, terms, t.value.s, input[t.value.consumed..]);
        if u.None? || t.value.consumed + u.value.consumed > |input| then None
        else Some(Turn(u.value.s, t.value.consumed + u.value.consumed, t.value.out + u.value.out))
  }

  /** Why a run of the handshake came back to its caller. */
  datatype Outcome = Complete | Failed | Blocked | FlushPending | EarlyReturn

  class Handshake {
    const env: Env
    const terms: Terms
    var state: State
    var wait: Wait
    var peerCerts: bool
    var transcript: seq<Msg>
    var log: seq<Mark>
    var finishedOver: Option<seq<Msg>>
    var incoming: seq<Item>
    var outgoing: seq<Item>

    function Value(): Server
      reads this
    {
      Server(state, wait, peerCerts, transcript, log, finishedOver)
    }

    /** The object went through a turn. */
    twostate predicate Did(t: Turn)
      reads this
    {
      && Value() == t.s && t.consumed <= |old(incoming)|
      && incoming == old(incoming)[t.consumed..] && outgoing == old(outgoing) + t.out
    }

    constructor (env: Env, terms: Terms)
      ensures Value() == START && incoming == [] && outgoing == [] && this.env == env && this.terms == terms
    {
      this.env, this.terms := env, terms;
      state, wait, peerCerts := StartAccept, WaitOk, false;
      transcript, log, finishedOver := [], [], None;
      incoming, outgoing := [], [];
    }

    // ----- Messages

    /** ssl_hash_message and next_message. */
    method TakeMessage(m: Msg)
      requires incoming != []
      modifies this`transcript, this`incoming
      ensures transcript == old(transcript) + [m] && incoming == old(incoming)[1..]
    {
      transcript := transcript + [m];
      incoming := incoming[1..];
    }

    /** add_message, which hashes what it queues. */
    method AddMessage(m: Msg)
      modifies this`transcript, this`outgoing
      ensures transcript == old(transcript) + [m] && outgoing == old(outgoing) + [Hs(m)]
    {
      transcript := transcript + [m];
      outgoing := outgoing + [Hs(m)];
    }

    method GoTo(next: State)
      modifies this`state, this`wait
      ensures state == next && wait == WaitOk
    {
      state := next;
      wait := WaitOk;
    }

    /** What one or two messages queued in turn come to. */
    lemma Queued(before: seq<Item>, log0: seq<Msg>, a: Msg, b: Msg)
      ensures before + Items([a]) == before + [Hs(a)] && before + Items([]) == before
      ensures before + Items([a] + [b]) == before + [Hs(a)] + [Hs(b)]
      ensures [a] + [] == [a] && [] + [b] == [b] && log0 + [] == log0
      ensures log0 + ([a] + [b]) == log0 + [a] + [b]
    {
    }

    // ----- The states that answer the client's hello

    method DoReadClientHello()
      requires state == ReadClientHello
      modifies this
      ensures Did(Do(env, terms, old(Value()), old(incoming)))
    {
      var msg := Peek(incoming);
      if msg.None? {
        wait := WaitMessage;
        return;
      }
      if msg.value.typ != MtClientHello {
        wait := WaitError;
        return;
      }
      GoTo(SelectCertificate);
    }

    method DoSelectCertificate()
      requires state == SelectCertificate
      modifies this
      ensures Did(Do(env, terms, old(Value()), old(incoming)))
    {
      var msg := Peek(incoming);
      if msg.None? {
        wait := WaitMessage;
        return;
      }
      GoTo(SelectParameters);
    }

    /** Only now that everything is chosen is the hello hashed and released. */
    method DoSelectParameters()
      requires state == SelectParameters
      modifies this
      ensures Did(Do(env, terms, old(Value()), old(incoming)))
    {
      var msg := Peek(incoming);
      if msg.None? {
        wait := WaitMessage;
        return;
      }
      TakeMessage(msg.value);
      GoTo(SendServerHello);
    }

    method DoSendServerHello()
      requires state == SendServerHello
      modifies this
      ensures Did(Do(env, terms, old(Value()), old(incoming)))
    {
      hide DoClientFlight, DoFinish, Items;
      var hello := Msg(MtServerHello, env.serverBody(ServerHello));
      AddMessage(hello);
      GoTo(if terms.hello.resumed then SendServerFinished else SendServerCertificate);
      Queued(old(outgoing), old(transcript), hello, hello);
    }

    method DoSendServerCertificate()
      requires state == SendServerCertificate
      modifies this
      ensures Did(Do(env, terms, old(Value()), old(incoming)))
    {
      hide DoClientFlight, DoFinish, Items, Peek;
      var certificate := Msg(MtCertificate, env.serverBody(ServerCert));
      var status := Msg(MtCertificateStatus, env.serverBody(CertStatus));
      Queued(old(outgoing), old(transcript), certificate, status);
      if terms.hello.certAuth {
        AddMessage(certificate);
        if terms.statusSent {
          AddMessage(status);
        }
      }
      GoTo(SendServerKeyExchange);
    }

    method DoSendServerKeyExchange()
      requires state == SendServerKeyExchange
      modifies this
      ensures Did(Do(env, terms, old(Value()), old(incoming)))
    {
      hide DoClientFlight, DoFinish, Items;
      var keyExchange := Msg(MtServerKeyExchange, env.serverBody(ServerKx));
      Queued(old(outgoing), old(transcript), keyExchange, keyExchange);
      if terms.sendsSke {
        AddMessage(keyExchange);
      }
      GoTo(SendServerHelloDone);
    }

    method DoSendServerHelloDone()
      requires state == SendServerHelloDone
      modifies this
      ensures Did(Do(env, terms, old(Value()), old(incoming)))
    {
      hide DoClientFlight, DoFinish, Items;
      var request := Msg(MtCertificateRequest, env.serverBody(CertRequest));
      var done := Msg(MtServerHelloDone, env.serverBody(ServerDone));
      Queued(old(outgoing), old(transcript), request, done);
      Queued(old(outgoing), old(transcript), done, done);
      if terms.certRequest {
        AddMessage(request);
      }
      AddMessage(done);
      state := ReadClientCertificate;
      wait := WaitFlush;
    }

    // ----- The client's second flight

    method DoReadClientCertificate()
      requires state == ReadClientCertificate
      modifies this
      ensures Did(Do(env, terms, old(Value()), old(incoming)))
    {
      hide DoAnswer, DoFinish;
      if !terms.certRequest {
        GoTo(VerifyClientCertificate);
        return;
      }
      var msg := Peek(incoming);
      if msg.None? {
        wait := WaitMessage;
        return;
      }
      if msg.value.typ != MtCertificate {
        wait := WaitError;
        return;
      }
      peerCerts := env.hasCerts(msg.value.body);
      TakeMessage(msg.value);
      GoTo(VerifyClientCertificate);
    }

    method DoReadClientKeyExchange()
      requires state == ReadClientKeyExchange
      modifies this
      ensures Did(Do(env, terms, old(Value()), old(incoming)))
    {
      hide DoAnswer, DoFinish;
      var msg := Peek(incoming);
      if msg.None? {
        wait := WaitMessage;
        return;
      }
      if msg.value.typ != MtClientKeyExchange {
        wait := WaitError;
        return;
      }
      TakeMessage(msg.value);
      GoTo(ReadClientCertificateVerify);
    }

    method DoReadClientCertificateVerify()
      requires state == ReadClientCertificateVerify
      modifies this
      ensures Did(Do(env, terms, old(Value()), old(incoming)))
    {
      hide DoAnswer, DoFinish;
      if !peerCerts {
        GoTo(ReadChangeCipherSpec);
        return;
      }
      var msg := Peek(incoming);
      if msg.None? {
        wait := WaitMessage;
        return;
      }
      if msg.value.typ != MtCertificateVerify {
        wait := WaitError;
        return;
      }
      TakeMessage(msg.value);
      GoTo(ReadChangeCipherSpec);
    }

    // ----- The last flights

    method DoReadChangeCipherSpec()
      requires state == ReadChangeCipherSpec
      modifies this
      ensures Did(Do(env, terms, old(Value()), old(incoming)))
    {
      state := ProcessChangeCipherSpec;
      wait := WaitCcs;
    }

    method DoProcessChangeCipherSpec()
      requires state == ProcessChangeCipherSpec
      modifies this
      ensures Did(Do(env, terms, old(Value()), old(incoming)))
    {
      log := log + [ReadCipherOn];
      GoTo(ReadNextProto);
    }

    method DoReadNextProto()
      requires state == ReadNextProto
      modifies this
      ensures Did(Do(env, terms, old(Value()), old(incoming)))
    {
      hide DoAnswer, DoClientFlight;
      if !terms.hello.nextProto {
        GoTo(ReadChannelId);
        return;
      }
      var msg := Peek(incoming);
      if msg.None? {
        wait := WaitMessage;
        return;
      }
      if msg.value.typ != MtNextProto {
        wait := WaitError;
        return;
      }
      TakeMessage(msg.value);
      GoTo(ReadChannelId);
    }

    /** ssl_get_finished: checked against the transcript before it is hashed itself. */
    method DoReadClientFinished()
      requires state == ReadClientFinished
      modifies this
      ensures Did(Do(env, terms, old(Value()), old(incoming)))
    {
      hide Do;
      ReadsFinished(env, terms, old(Value()), old(incoming));
      var msg := Peek(incoming);
      if msg.None? {
        wait := WaitMessage;
        return;
      }
      if msg.value.typ != MtFinished || msg.value.body != env.mac(transcript, false) {
        wait := WaitError;
        return;
      }
      log := log + [FinishedVerified];
      TakeMessage(msg.value);
      GoTo(if terms.hello.resumed then FinishServerHandshake else SendServerFinished);
    }

    method DoSendServerFinished()
      requires state == SendServerFinished
      modifies this
      ensures Did(Do(env, terms, old(Value()), old(incoming)))
    {
      hide Do, SendFinished;
      SendsFinished(env, terms, old(Value()), old(incoming));
      if terms.hello.ticket {
        AddMessage(Msg(MtNewSessionTicket, env.serverBody(NewTicket)));
      }
      outgoing := outgoing + [Ccs];
      log := log + [WriteCipherOn];
      // ssl_send_finished
      finishedOver := Some(transcript);
      AddMessage(Msg(MtFinished, env.mac(transcript, true)));
      log := log + [FinishedSent];
      state := if terms.hello.resumed then ReadChangeCipherSpec else FinishServerHandshake;
      wait := WaitFlush;
      SentInOne(old(outgoing), env, terms, old(Value()));
    }

    /** The states that only move on. */
    method DoQuietly(next: State)
      requires (state == StartAccept && next == ReadClientHello)
               || (state == VerifyClientCertificate && next == ReadClientKeyExchange)
               || (state == ReadChannelId && next == ReadClientFinished)
               || (state == FinishServerHandshake && next == Done)
      modifies this
      ensures Did(Do(env, terms, old(Value()), old(incoming)))
    {
      GoTo(next);
    }

    // ----- The loop

    method RunState()
      requires state != Done
      modifies this
      ensures Did(Do(env, terms, old(Value()), old(incoming)))
    {
      hide Do;
      match state
      case StartAccept => DoQuietly(ReadClientHello);
      case ReadClientHello => DoReadClientHello();
      case SelectCertificate => DoSelectCertificate();
      case SelectParameters => DoSelectParameters();
      case SendServerHello => DoSendServerHello();
      case SendServerCertificate => DoSendServerCertificate();
      case SendServerKeyExchange => DoSendServerKeyExchange();
      case SendServerHelloDone => DoSendServerHelloDone();
      case ReadClientCertificate => DoReadClientCertificate();
      case VerifyClientCertificate => DoQuietly(ReadClientKeyExchange);
      case ReadClientKeyExchange => DoReadClientKeyExchange();
      case ReadClientCertificateVerify => DoReadClientCertificateVerify();
      case ReadChangeCipherSpec => DoReadChangeCipherSpec();
      case ProcessChangeCipherSpec => DoProcessChangeCipherSpec();
      case ReadNextProto => DoReadNextProto();
      case ReadChannelId => DoQuietly(ReadClientFinished);
      case ReadClientFinished => DoReadClientFinished();
      case SendServerFinished => DoSendServerFinished();
      case FinishServerHandshake => DoQuietly(Done);
    }

    /** The awaited record is there, or nothing is awaited: take it, and run one state. */
    method Round()
      requires wait != WaitError && state != Done && (Reading(wait) ==> incoming != [])
      requires wait == WaitCcs ==> state == ProcessChangeCipherSpec
      modifies this
      ensures Step(env, terms, old(Value()), old(incoming)).Some?
      ensures Did(Step(env, terms, old(Value()), old(incoming)).value)
    {
      hide Do;
      if Reading(wait) && incoming[0].Ccs? != (wait == WaitCcs) {
        wait := WaitError;
        return;
      }
      if wait == WaitCcs {
        incoming := incoming[1..];
        wait := WaitOk;
      }
      RunState();
    }

    /**
      ssl_run_handshake: resolve what the machine waits for and run its states, until it is
      done, has failed, or cannot go on.  The transport takes a flight `flushes` times
      before it blocks.  Every round is one step of the machine.
     */
    method RunHandshake(flushes: nat) returns (outcome: Outcome, ghost steps: nat)
      requires Sane(Value(), terms.hello.resumed) && log == LogAt(state, terms.hello.resumed)
      modifies this
      ensures Sane(Value(), terms.hello.resumed) && log == LogAt(state, terms.hello.resumed)
      ensures var t := Steps(env, terms, old(Value()), old(incoming), steps);
              && t.Some?
              && (if outcome == EarlyReturn then t.value.s.wait == WaitEarlyReturn && Value() == t.value.s.(wait := WaitOk)
                  else Value() == t.value.s)
              && incoming == old(incoming)[t.value.consumed..] && outgoing == old(outgoing) + t.value.out
      ensures outcome != EarlyReturn && outcome != FlushPending ==> Step(env, terms, Value(), incoming).None?
      ensures outcome == Complete <==> state == Done && wait == WaitOk
      ensures outcome == Failed <==> wait == WaitError
      ensures outcome == Blocked ==> Reading(wait) && incoming == []
      ensures outcome == FlushPending ==> wait == WaitFlush && steps >= flushes
    {
      hide Step, Steps, LogAt, Sane, Measure;
      StepsNone(env, terms, Value(), incoming);
      var left := flushes;
      steps := 0;
      while state != Done || wait == WaitError
        invariant steps + left >= flushes
        invariant Sane(Value(), terms.hello.resumed) && log == LogAt(state, terms.hello.resumed)
        invariant var t := Steps(env, terms, old(Value()), old(incoming), steps);
                  t.Some? && Value() == t.value.s
                  && incoming == old(incoming)[t.value.consumed..] && outgoing == old(outgoing) + t.value.out
        decreases Measure(Value(), terms.hello.resumed)
      {
        ghost var s, input := Value(), incoming;
        StepKeeps(env, terms, s, input);
        SaneMeans(s, terms.hello.resumed);
        match wait {
          case WaitError =>
            Stopped(env, terms, s, input);
            return Failed, steps;
          case WaitFlush =>
            if left == 0 {
              return FlushPending, steps;
            }
            left := left - 1;
          case WaitEarlyReturn =>
            wait := WaitOk;
            return EarlyReturn, steps;
          case _ =>
            if Reading(wait) && incoming == [] {
              Stopped(env, terms, s, input);
              return Blocked, steps;
            }
        }
        Round();
        StepsExtend(env, terms, old(Value()), old(incoming), steps, Step(env, terms, s, input).value);
        steps := steps + 1;
      }
      SaneMeans(Value(), terms.hello.resumed);
      Stopped(env, terms, Value(), incoming);
      return Complete, steps;
    }
  }

  lemma SaneMeans(s: Server, resumed: bool)
    requires Sane(s, resumed)
    ensures s.wait == WaitCcs ==> s.state == ProcessChangeCipherSpec
    ensures s.state == Done ==> s.wait == WaitOk || s.wait == WaitError
    ensures s.wait == WaitEarlyReturn ==> Sane(s.(wait := WaitOk), resumed)
  {
  }

  lemma Stopped(env: Env, terms: Terms, s: Server, input: seq<Item>)
    requires s.wait == WaitError || (Reading(s.wait) && input == []) || (s.wait == WaitOk && s.state == Done)
    ensures Step(env, terms, s, input).None?
  {
  }

  /** A ticket, a cipher change and Finished queued one by one are the flight queued at once. */
  lemma SentInOne(before: seq<Item>, env: Env, terms: Terms, s: Server)
    ensures var ticket := Msg(MtNewSessionTicket, env.serverBody(NewTicket));
            var over := if terms.hello.ticket then s.transcript + [ticket] else s.transcript;
            var sent := (if terms.hello.ticket then before + [Hs(ticket)] else before) + [Ccs];
            var finished := Msg(MtFinished, env.mac(over, true));
            var t := SendFinished(env, terms, s);
            && t.s == s.(transcript := over + [finished], log := s.log + [WriteCipherOn] + [FinishedSent],
                         finishedOver := Some(over), wait := WaitFlush,
                         state := if terms.hello.resumed then ReadChangeCipherSpec else FinishServerHandshake)
            && before + t.out == sent + [Hs(finished)]
  {
    assert s.transcript + [] == s.transcript;
    assert s.log + [WriteCipherOn] + [FinishedSent] == s.log + WROTE;
  }

  lemma StepsNone(env: Env, terms: Terms, s: Server, input: seq<Item>)
    ensures Steps(env, terms, s, input, 0) == Some(Turn(s, 0, []))
  {
  }

  /** One more step at the end. */
  lemma StepsExtend(env: Env, terms: Terms, s: Server, input: seq<Item>, n: nat, u: Turn)
    requires Steps(env, terms, s, input, n).Some?
    requires var t := Steps(env, terms, s, input, n).value;
             Step(env, terms, t.s, input[t.consumed..]) == Some(u) && u.consumed <= |input[t.consumed..]|
    ensures var t, t' := Steps(env, terms, s, input, n).value, Steps(env, terms, s, input, n + 1);
            && t'.Some? && t'.value.s == u.s
            && input[t'.value.consumed..] == input[t.consumed..][u.consumed..]
            && forall before: seq<Item> :: before + t'.value.out == (before + t.out) + u.out
  {
    hide Step;
  }
}
