/**
  Client and server together, over a reliable stream in each direction.  Under any agreed
  terms and any message contents, no side ever meets an unexpected message, each Finished
  is checked against the transcript it was computed over, and the handshake completes.
 */
module Agreement {
  import opened Wrappers
  import opened Script
  import Cm = ClientMachine
  import Sm = ServerMachine
  import Cw = ClientWalk
  import Sw = ServerWalk

  /** The two machines, and what each has sent that the other has not read. */
  datatype World = World(c: Cm.Client, s: Sm.Server, toClient: seq<Item>, toServer: seq<Item>)

  const START := World(Cm.START, Sm.START, [], [])

  /** The deal is what the server's hello says, and the contents of messages match it. */
  predicate Agreed(env: Env, d: Deal) {
    && d.terms.WellFormed()
    && env.helloTerms(env.serverBody(ServerHello)) == d.terms.hello
    && env.hasCerts(env.clientBody(ClientCert)) == d.clientCert
  }

  function ClientStep(env: Env, w: World): Option<World> {
    var t := Cm.Step(env, w.c, w.toClient);
    if t.None? || t.value.consumed > |w.toClient| then None
    else Some(w.(c := t.value.c, toClient := w.toClient[t.value.consumed..], toServer := w.toServer + t.value.out))
  }

  function ServerStep(env: Env, d: Deal, w: World): Option<World> {
    var t := Sm.Step(env, d.terms, w.s, w.toServer);
    if t.None? || t.value.consumed > |w.toServer| then None
    else Some(w.(s := t.value.s, toServer := w.toServer[t.value.consumed..], toClient := w.toClient + t.value.out))
  }

  // ----- The script is shared: what is on its way is what one side is ahead by

  predicate Spaced(toClient: seq<Item>, toServer: seq<Item>, client: seq<Slot>, server: seq<Slot>, gap: seq<Slot>) {
    if toServer == [] then AllFit(toClient, gap) && Sw.AllFromServer(gap) && client == gap + server
    else toClient == [] && AllFit(toServer, gap) && Cw.FromClient(gap) && server == gap + client
  }

  lemma ClientReads(toClient: seq<Item>, toServer: seq<Item>, client: seq<Slot>, server: seq<Slot>, gap: seq<Slot>)
    requires Spaced(toClient, toServer, client, server, gap) && toClient != []
    ensures toServer == [] && gap != [] && client != [] && client[0] == gap[0]
    ensures FromServer(gap[0]) && Fits(toClient[0], gap[0])
    ensures Spaced(toClient[1..], toServer, client[1..], server, gap[1..])
  {
    assert client[1..] == gap[1..] + server;
  }

  lemma ServerReads(toClient: seq<Item>, toServer: seq<Item>, client: seq<Slot>, server: seq<Slot>, gap: seq<Slot>)
    requires Spaced(toClient, toServer, client, server, gap) && toServer != []
    ensures toClient == [] && gap != [] && server != [] && server[0] == gap[0]
    ensures !FromServer(gap[0]) && Fits(toServer[0], gap[0])
    ensures Spaced(toClient, toServer[1..], client, server[1..], if toServer[1..] == [] then [] else gap[1..])
  {
    assert server[1..] == gap[1..] + client;
    if toServer[1..] == [] {
      assert gap[1..] == [];
    }
  }

  /** The script's next slot belongs to one side only. */
  lemma OneSideNext(gap: seq<Slot>, rest: seq<Slot>, sent: seq<Slot>, rest': seq<Slot>)
    requires gap + rest == sent + rest'
    requires (Sw.AllFromServer(gap) && Cw.FromClient(sent)) || (Cw.FromClient(gap) && Sw.AllFromServer(sent))
    ensures gap == [] || sent == []
  {
    var all := gap + rest;
    assert gap != [] ==> all[0] in gap;
    assert sent != [] ==> all[0] in sent;
  }

  /** Only a side that has read everything sends. */
  lemma ClientSends(toClient: seq<Item>, toServer: seq<Item>, client: seq<Slot>, server: seq<Slot>, gap: seq<Slot>,
                    out: seq<Item>, sent: seq<Slot>, client': seq<Slot>)
    requires Spaced(toClient, toServer, client, server, gap)
    requires AllFit(out, sent) && Cw.FromClient(sent) && client == sent + client'
    ensures Spaced(toClient, toServer + out, client', server, gap + sent)
    ensures out != [] ==> toClient == []
  {
    if out == [] {
      assert sent == [] && toServer + out == toServer && gap + sent == gap;
    } else if toServer == [] {
      OneSideNext(gap, server, sent, client');
      assert toServer + out == out && gap + sent == sent;
    } else {
      AllFitConcat(toServer, gap, out, sent);
      assert server == (gap + sent) + client';
    }
  }

  lemma ServerSends(toClient: seq<Item>, toServer: seq<Item>, client: seq<Slot>, server: seq<Slot>, gap: seq<Slot>,
                    out: seq<Item>, sent: seq<Slot>, server': seq<Slot>)
    requires Spaced(toClient, toServer, client, server, gap)
    requires AllFit(out, sent) && Sw.AllFromServer(sent) && server == sent + server'
    ensures Spaced(toClient + out, toServer, client, server', gap + sent)
    ensures out != [] ==> toServer == []
  {
    if toServer != [] {
      OneSideNext(gap, client, sent, server');
    }
    if out == [] {
      assert sent == [] && toClient + out == toClient && gap + sent == gap;
    } else {
      AllFitConcat(toClient, gap, out, sent);
      assert client == (gap + sent) + server';
    }
  }

  // ----- The invariant

  /** The contents of what the client has yet to read: the hello says the terms. */
  predicate HelloHonest(env: Env, d: Deal, items: seq<Item>) {
    forall j :: 0 <= j < |items| && items[j].Hs? && items[j].msg.typ == MtServerHello ==>
      env.helloTerms(items[j].msg.body) == d.terms.hello
  }

  predicate CertHonest(env: Env, d: Deal, items: seq<Item>) {
    forall j :: 0 <= j < |items| && items[j].Hs? && items[j].msg.typ == MtCertificate ==>
      env.hasCerts(items[j].msg.body) == d.clientCert
  }

  predicate ClientOnce(d: Deal, c: Cm.Client, toServer: seq<Item>) {
    !Cw.Past(c.state, d.terms.hello.resumed) ==> c.finishedOver.None? && !HasFinished(toServer)
  }

  predicate ServerOnce(d: Deal, s: Sm.Server, toClient: seq<Item>) {
    !Sw.Past(s.state, d.terms.hello.resumed) ==> s.finishedOver.None? && !HasFinished(toClient)
  }

  /** Both have hashed the same messages, up to what is on its way; what is on its way is honest, and one Finished each. */
  predicate Honest(env: Env, d: Deal, w: World) {
    && w.c.transcript + Msgs(w.toClient) == w.s.transcript + Msgs(w.toServer)
    && HelloHonest(env, d, w.toClient) && CertHonest(env, d, w.toServer)
    && FinishedHonest(env, true, w.c.transcript, w.s.finishedOver, w.toClient)
    && FinishedHonest(env, false, w.s.transcript, w.c.finishedOver, w.toServer)
    && ClientOnce(d, w.c, w.toServer) && ServerOnce(d, w.s, w.toClient)
  }

  predicate Logged(d: Deal, w: World) {
    && w.c.log == Cm.LogAt(w.c.state, w.c.terms.resumed)
    && w.s.log == Sm.LogAt(w.s.state, d.terms.hello.resumed)
  }

  predicate Inv(env: Env, d: Deal, w: World, gap: seq<Slot>) {
    && Cw.Following(w.c, d) && Sw.Following(w.s, d)
    && Spaced(w.toClient, w.toServer, Cw.Ahead(w.c, d), Sw.Ahead(w.s, d), gap)
    && Honest(env, d, w) && Logged(d, w)
  }

  lemma InvStarts(env: Env, d: Deal)
    ensures Inv(env, d, START, [])
  {
    hide Rest;
    assert [] + Rest(d, 0) == Rest(d, 0);
  }

  // ----- The client's step

  lemma ClientServed(env: Env, d: Deal, w: World, gap: seq<Slot>)
    requires Inv(env, d, w, gap)
    ensures Cw.Served(env, w.c, d, w.toClient)
  {
    hide Cw.Following, Sw.Following, Cw.Ahead, Sw.Ahead, Spaced, Cm.LogAt, Sm.LogAt;
    if w.toClient != [] {
      ClientReads(w.toClient, w.toServer, Cw.Ahead(w.c, d), Sw.Ahead(w.s, d), gap);
      assert w.toClient[..0] == [] && w.c.transcript + [] == w.c.transcript;
    }
  }

  /** Reading moves an item from the way into the transcript. */
  lemma ClientReadHonest(env: Env, d: Deal, w: World, c': Cm.Client)
    requires Honest(env, d, w) && w.toClient != [] && w.toServer == []
    requires c'.transcript == w.c.transcript + Msgs([w.toClient[0]])
    requires Cw.SendsHonestly(env, w.c, Cm.Turn(c', 1, []), d.terms.hello.resumed)
    ensures Honest(env, d, w.(c := c', toClient := w.toClient[1..]))
  {
    hide Msgs, Cw.Past, Sw.Past;
    HonestAfterRead(env, true, w.c.transcript, w.s.finishedOver, w.toClient);
    MsgsConcat([w.toClient[0]], w.toClient[1..]);
    assert [w.toClient[0]] + w.toClient[1..] == w.toClient;
    assert w.c.transcript + (Msgs([w.toClient[0]]) + Msgs(w.toClient[1..])) == c'.transcript + Msgs(w.toClient[1..]);
  }

  lemma {:induction false} ClientSendHonest(env: Env, d: Deal, w: World, c': Cm.Client, out: seq<Item>)
    requires Agreed(env, d) && Honest(env, d, w) && (out != [] ==> w.toClient == [])
    requires c'.transcript == w.c.transcript + Msgs(out)
    requires Cw.SendsHonestly(env, w.c, Cm.Turn(c', 0, out), d.terms.hello.resumed)
    ensures Honest(env, d, w.(c := c', toServer := w.toServer + out))
  {
    hide FinishedHonest, Cw.Past, Sw.Past, HasFinished, HelloHonest, CertHonest, Cw.CertsHonest, Msgs;
    MsgsNone();
    MsgsConcat(w.toServer, out);
    if out == [] {
      assert w.toServer + out == w.toServer && c'.transcript == w.c.transcript;
      NothingHonest(env, false, w.s.transcript + Msgs(w.toServer), c'.finishedOver);
    } else {
      assert w.s.transcript + Msgs(w.toServer) == w.c.transcript;
      assert w.s.transcript + (Msgs(w.toServer) + Msgs(out)) == c'.transcript + [];
      NothingHonest(env, true, c'.transcript, w.s.finishedOver);
    }
    HonestAfterSend(env, false, w.s.transcript, w.c.finishedOver, w.toServer, c'.finishedOver, out);
    FinishedAmong(w.toServer, out);
    CertsAmong(env, d, w.toServer, out);
  }

  lemma NothingHonest(env: Env, server: bool, base: seq<Msg>, over: Option<seq<Msg>>)
    ensures FinishedHonest(env, server, base, over, [])
  {
  }

  lemma MsgsNone()
    ensures Msgs([]) == []
  {
  }

  lemma CertsAmong(env: Env, d: Deal, a: seq<Item>, b: seq<Item>)
    requires Agreed(env, d) && CertHonest(env, d, a) && Cw.CertsHonest(env, b)
    ensures CertHonest(env, d, a + b)
  {
  }

  lemma HellosAmong(env: Env, d: Deal, a: seq<Item>, b: seq<Item>)
    requires Agreed(env, d) && HelloHonest(env, d, a) && Sw.HellosHonest(env, b)
    ensures HelloHonest(env, d, a + b)
  {
  }

  lemma FinishedAmong(a: seq<Item>, b: seq<Item>)
    ensures !HasFinished(a) && !HasFinished(b) ==> !HasFinished(a + b)
  {
  }

  /** A step of the client keeps the invariant and is progress. */
  lemma ClientStepKeeps(env: Env, d: Deal, w: World, gap: seq<Slot>) returns (gap': seq<Slot>)
    requires Agreed(env, d) && Inv(env, d, w, gap) && ClientStep(env, w).Some?
    ensures Inv(env, d, ClientStep(env, w).value, gap')
    ensures Left(d, ClientStep(env, w).value) < Left(d, w)
  {
    hide Cm.Step, Cw.SendsHonestly, Honest, Spaced, Cw.Following, Sw.Following, Cw.Ahead, Sw.Ahead, Cm.LogAt,
      Sm.LogAt, Cw.Served, Cm.Measure, Sm.Measure;
    ClientServed(env, d, w, gap);
    var sent := Cw.StepWalks(env, d, w.c, w.toClient);
    Cw.StepSendsHonestly(env, d, w.c, w.toClient);
    ClientIsSane(d, w.c);
    Cm.StepKeeps(env, w.c, w.toClient);
    var t := Cm.Step(env, w.c, w.toClient).value;
    if t.consumed == 0 {
      gap' := gap + sent;
      ClientSends(w.toClient, w.toServer, Cw.Ahead(w.c, d), Sw.Ahead(w.s, d), gap, t.out, sent, Cw.Ahead(t.c, d));
      ClientSendHonest(env, d, w, t.c, t.out);
      assert ClientStep(env, w).value == w.(c := t.c, toServer := w.toServer + t.out);
    } else {
      ClientReads(w.toClient, w.toServer, Cw.Ahead(w.c, d), Sw.Ahead(w.s, d), gap);
      gap' := gap[1..];
      ClientReadHonest(env, d, w, t.c);
      assert ClientStep(env, w).value == w.(c := t.c, toClient := w.toClient[1..]);
    }
  }

  lemma ClientIsSane(d: Deal, c: Cm.Client)
    requires Cw.Following(c, d)
    ensures Cm.Sane(c)
  {
  }

  // ----- The server's step

  lemma ServerServed(env: Env, d: Deal, w: World, gap: seq<Slot>)
    requires Inv(env, d, w, gap)
    ensures Sw.Served(env, w.s, d, w.toServer)
  {
    hide Cw.Following, Sw.Following, Cw.Ahead, Sw.Ahead, Spaced, Cm.LogAt, Sm.LogAt;
    if w.toServer != [] {
      ServerReads(w.toClient, w.toServer, Cw.Ahead(w.c, d), Sw.Ahead(w.s, d), gap);
      assert w.toServer[..0] == [] && w.s.transcript + [] == w.s.transcript;
    }
  }

  lemma ServerReadHonest(env: Env, d: Deal, w: World, s': Sm.Server)
    requires Honest(env, d, w) && w.toServer != [] && w.toClient == []
    requires s'.transcript == w.s.transcript + Msgs([w.toServer[0]])
    requires Sw.SendsHonestly(env, w.s, Sm.Turn(s', 1, []), d.terms.hello.resumed)
    ensures Honest(env, d, w.(s := s', toServer := w.toServer[1..]))
  {
    hide Msgs, Cw.Past, Sw.Past;
    HonestAfterRead(env, false, w.s.transcript, w.c.finishedOver, w.toServer);
    MsgsConcat([w.toServer[0]], w.toServer[1..]);
    assert [w.toServer[0]] + w.toServer[1..] == w.toServer;
    assert w.s.transcript + (Msgs([w.toServer[0]]) + Msgs(w.toServer[1..])) == s'.transcript + Msgs(w.toServer[1..]);
  }

  lemma {:induction false} ServerSendHonest(env: Env, d: Deal, w: World, s': Sm.Server, out: seq<Item>)
    requires Agreed(env, d) && Honest(env, d, w) && (out != [] ==> w.toServer == [])
    requires s'.transcript == w.s.transcript + Msgs(out)
    requires Sw.SendsHonestly(env, w.s, Sm.Turn(s', 0, out), d.terms.hello.resumed)
    ensures Honest(env, d, w.(s := s', toClient := w.toClient + out))
  {
    hide FinishedHonest, Cw.Past, Sw.Past, HasFinished, HelloHonest, CertHonest, Sw.HellosHonest, Msgs;
    MsgsNone();
    MsgsConcat(w.toClient, out);
    if out == [] {
      assert w.toClient + out == w.toClient && s'.transcript == w.s.transcript;
      NothingHonest(env, true, w.c.transcript + Msgs(w.toClient), s'.finishedOver);
    } else {
      assert w.c.transcript + Msgs(w.toClient) == w.s.transcript;
      assert w.c.transcript + (Msgs(w.toClient) + Msgs(out)) == s'.transcript + [];
      NothingHonest(env, false, s'.transcript, w.c.finishedOver);
    }
    HonestAfterSend(env, true, w.c.transcript, w.s.finishedOver, w.toClient, s'.finishedOver, out);
    FinishedAmong(w.toClient, out);
    HellosAmong(env, d, w.toClient, out);
  }

  /** A step of the server keeps the invariant and is progress. */
  lemma ServerStepKeeps(env: Env, d: Deal, w: World, gap: seq<Slot>) returns (gap': seq<Slot>)
    requires Agreed(env, d) && Inv(env, d, w, gap) && ServerStep(env, d, w).Some?
    ensures Inv(env, d, ServerStep(env, d, w).value, gap')
    ensures Left(d, ServerStep(env, d, w).value) < Left(d, w)
  {
    hide Sm.Step, Sw.SendsHonestly, Honest, Spaced, Cw.Following, Sw.Following, Cw.Ahead, Sw.Ahead, Cm.LogAt,
      Sm.LogAt, Sw.Served, Cm.Measure, Sm.Measure;
    ServerServed(env, d, w, gap);
    var sent := Sw.StepWalks(env, d, w.s, w.toServer);
    Sw.StepSendsHonestly(env, d, w.s, w.toServer);
    ServerIsSane(d, w.s);
    Sm.StepKeeps(env, d.terms, w.s, w.toServer);
    var t := Sm.Step(env, d.terms, w.s, w.toServer).value;
    if t.consumed == 0 {
      gap' := gap + sent;
      ServerSends(w.toClient, w.toServer, Cw.Ahead(w.c, d), Sw.Ahead(w.s, d), gap, t.out, sent, Sw.Ahead(t.s, d));
      ServerSendHonest(env, d, w, t.s, t.out);
      assert ServerStep(env, d, w).value == w.(s := t.s, toClient := w.toClient + t.out);
    } else {
      ServerReads(w.toClient, w.toServer, Cw.Ahead(w.c, d), Sw.Ahead(w.s, d), gap);
      gap' := if w.toServer[1..] == [] then [] else gap[1..];
      ServerReadHonest(env, d, w, t.s);
      assert ServerStep(env, d, w).value == w.(s := t.s, toServer := w.toServer[1..]);
    }
  }

  lemma ServerIsSane(d: Deal, s: Sm.Server)
    requires Sw.Following(s, d)
    ensures Sm.Sane(s, d.terms.hello.resumed)
  {
  }

  // ----- Whole runs

  /** The steps the two still have to take. */
  function Left(d: Deal, w: World): nat { Cm.Measure(w.c) + Sm.Measure(w.s, d.terms.hello.resumed) }

  ghost predicate Moves(env: Env, d: Deal, w: World, w': World) {
    ClientStep(env, w) == Some(w') || ServerStep(env, d, w) == Some(w')
  }

  /** A run of the two machines in any interleaving. */
  ghost predicate IsRun(env: Env, d: Deal, run: seq<World>) {
    && run != [] && run[0] == START
    && forall i :: 0 < i < |run| ==> Moves(env, d, run[i - 1], run[i])
  }

  lemma {:induction false} RunKeeps(env: Env, d: Deal, run: seq<World>) returns (gap: seq<Slot>)
    requires Agreed(env, d) && IsRun(env, d, run)
    ensures run != [] && Inv(env, d, run[|run| - 1], gap)
    ensures Left(d, run[|run| - 1]) + |run| <= Left(d, START) + 1
    decreases |run|
  {
    hide ClientStep, ServerStep, Inv, Left, Agreed;
    if |run| == 1 {
      InvStarts(env, d);
      gap := [];
    } else {
      var w, w' := run[|run| - 2], run[|run| - 1];
      assert Moves(env, d, w, w');
      var gap0 := RunKeeps(env, d, run[..|run| - 1]);
      if ClientStep(env, w) == Some(w') {
        gap := ClientStepKeeps(env, d, w, gap0);
      } else {
        gap := ServerStepKeeps(env, d, w, gap0);
      }
    }
  }

  lemma StepsAtStart(d: Deal)
    ensures Left(d, START) == 78
  {
  }

  // ----- What follows

  /** No side ever meets a message it does not expect, in any run. */
  lemma NeverUnexpected(env: Env, d: Deal, run: seq<World>)
    requires Agreed(env, d) && IsRun(env, d, run)
    ensures run[|run| - 1].c.wait != WaitError && run[|run| - 1].s.wait != WaitError
  {
    hide IsRun, Left, Agreed, Spaced, Honest, Logged;
    var gap := RunKeeps(env, d, run);
  }

  /**
    Whenever the client has the server's Finished before it, the server computed it over
    the very transcript the client checks it against.
   */
  lemma ClientAgrees(env: Env, d: Deal, run: seq<World>)
    requires Agreed(env, d) && IsRun(env, d, run)
    requires run[|run| - 1].c.state == Cm.ReadServerFinished && run[|run| - 1].toClient != []
    ensures var w := run[|run| - 1];
            && w.toClient[0].Hs? && w.toClient[0].msg.typ == MtFinished
            && w.s.finishedOver == Some(w.c.transcript)
            && w.toClient[0].msg.body == env.mac(w.c.transcript, true)
  {
    hide IsRun, Left, Agreed, Spaced, Logged, Cw.Following, Sw.Following, Rest;
    var gap := RunKeeps(env, d, run);
    var w := run[|run| - 1];
    ServerFinishSlots(d);
    ClientReads(w.toClient, w.toServer, Cw.Ahead(w.c, d), Sw.Ahead(w.s, d), gap);
    assert w.toClient[..0] == [] && w.c.transcript + [] == w.c.transcript;
  }

  /** And the same for the server. */
  lemma ServerAgrees(env: Env, d: Deal, run: seq<World>)
    requires Agreed(env, d) && IsRun(env, d, run)
    requires run[|run| - 1].s.state == Sm.ReadClientFinished && run[|run| - 1].toServer != []
    ensures var w := run[|run| - 1];
            && w.toServer[0].Hs? && w.toServer[0].msg.typ == MtFinished
            && w.c.finishedOver == Some(w.s.transcript)
            && w.toServer[0].msg.body == env.mac(w.s.transcript, false)
  {
    hide IsRun, Left, Agreed, Spaced, Logged, Cw.Following, Sw.Following, Rest;
    var gap := RunKeeps(env, d, run);
    var w := run[|run| - 1];
    ClientFinishSlots(d);
    ServerReads(w.toClient, w.toServer, Cw.Ahead(w.c, d), Sw.Ahead(w.s, d), gap);
    assert w.toServer[..0] == [] && w.s.transcript + [] == w.s.transcript;
  }

  /** The client stops only where it is done or waits for what has not come. */
  lemma ClientStuck(env: Env, d: Deal, w: World, gap: seq<Slot>)
    requires Agreed(env, d) && Inv(env, d, w, gap) && ClientStep(env, w).None?
    ensures if Reading(w.c.wait) then w.toClient == [] else w.c.state == Cm.Done && Cw.Ahead(w.c, d) == []
  {
    hide Cw.SendsHonestly, Honest, Spaced, Cw.Ahead, Sw.Ahead, Cm.LogAt, Sm.LogAt, Cw.Served, Cm.Do, Sw.Following;
    ClientServed(env, d, w, gap);
    if Cm.Step(env, w.c, w.toClient).Some? {
      var sent := Cw.StepWalks(env, d, w.c, w.toClient);
    } else if w.c.state == Cm.Done {
      ClientAtEnd(d, w.c);
    }
  }

  lemma ClientAtEnd(d: Deal, c: Cm.Client)
    requires c.state == Cm.Done
    ensures Cw.Ahead(c, d) == []
  {
    hide Rest;
    RestEnd(d, Cw.Index(c.state, d.terms.hello.resumed));
  }

  lemma ServerStuck(env: Env, d: Deal, w: World, gap: seq<Slot>)
    requires Agreed(env, d) && Inv(env, d, w, gap) && ServerStep(env, d, w).None?
    ensures if Reading(w.s.wait) then w.toServer == [] else w.s.state == Sm.Done && Sw.Ahead(w.s, d) == []
  {
    hide Sw.SendsHonestly, Honest, Spaced, Cw.Ahead, Sw.Ahead, Cm.LogAt, Sm.LogAt, Sw.Served, Sm.Do, Cw.Following;
    ServerServed(env, d, w, gap);
    if Sm.Step(env, d.terms, w.s, w.toServer).Some? {
      var sent := Sw.StepWalks(env, d, w.s, w.toServer);
    } else if w.s.state == Sm.Done {
      ServerAtEnd(d, w.s);
    }
  }

  lemma ServerAtEnd(d: Deal, s: Sm.Server)
    requires s.state == Sm.Done
    ensures Sw.Ahead(s, d) == []
  {
    hide Rest;
    RestEnd(d, Sw.Index(s.state, d.terms.hello.resumed));
  }

  /** Two sides that wait for each other cannot both be behind. */
  lemma Blocked(toClient: seq<Item>, toServer: seq<Item>, client: seq<Slot>, server: seq<Slot>, gap: seq<Slot>)
    requires Spaced(toClient, toServer, client, server, gap)
    requires client == [] || (FromServer(client[0]) && toClient == [])
    requires server == [] || (!FromServer(server[0]) && toServer == [])
    ensures client == [] && server == [] && toClient == [] && toServer == []
  {
  }

  lemma StuckIsDone(env: Env, d: Deal, w: World, gap: seq<Slot>)
    requires Agreed(env, d) && Inv(env, d, w, gap)
    requires ClientStep(env, w).None? && ServerStep(env, d, w).None?
    ensures w.c.state == Cm.Done && w.s.state == Sm.Done && w.toClient == [] && w.toServer == []
  {
    hide Rest, ClientStep, ServerStep, Honest, Logged, Cw.Following, Sw.Following, Spaced, Cw.Ahead, Sw.Ahead;
    ClientStuck(env, d, w, gap);
    ServerStuck(env, d, w, gap);
    if Reading(w.c.wait) {
      Cw.ReadingMeansMessage(d, w.c);
    }
    if Reading(w.s.wait) {
      Sw.ReadingMeansMessage(d, w.s);
    }
    Blocked(w.toClient, w.toServer, Cw.Ahead(w.c, d), Sw.Ahead(w.s, d), gap);
  }

  /**
    A run never takes more steps than both sides have states to go through, and where it
    can go no further both are done: nothing is left unread, both have the same
    transcript, and each has checked the other's Finished and sent its own once.
   */
  lemma RunsComplete(env: Env, d: Deal, run: seq<World>)
    requires Agreed(env, d) && IsRun(env, d, run)
    ensures |run| <= 79
    ensures var w := run[|run| - 1];
            ClientStep(env, w).None? && ServerStep(env, d, w).None? ==>
              && w.c.state == Cm.Done && w.s.state == Sm.Done && w.toClient == [] && w.toServer == []
              && w.c.transcript == w.s.transcript
              && w.c.log == (if d.terms.hello.resumed then READ + WROTE else WROTE + READ)
              && w.s.log == (if d.terms.hello.resumed then WROTE + READ else READ + WROTE)
  {
    hide IsRun, Agreed, Spaced, ClientStep, ServerStep, FinishedHonest, HelloHonest, CertHonest, Cw.Ahead, Sw.Ahead,
      ClientOnce, ServerOnce, Left, Msgs;
    var gap := RunKeeps(env, d, run);
    var w := run[|run| - 1];
    StepsAtStart(d);
    MsgsNone();
    if ClientStep(env, w).None? && ServerStep(env, d, w).None? {
      StuckIsDone(env, d, w, gap);
      assert w.c.transcript + [] == w.c.transcript && w.s.transcript + [] == w.s.transcript;
    }
  }
}
