/**
  The two handshake objects talking to each other: what one has sent and flushed is handed
  to the other, and each runs until it has to wait.  Both come to their ends.
 */
module Conversation {
  import opened Script
  import opened Agreement
  import Cm = ClientMachine
  import Sm = ServerMachine
  import Cw = ClientWalk
  import Sw = ServerWalk
  import Client = ClientHandshake
  import Server = ServerHandshake

  // ----- Several steps of one side

  function AfterClient(w: World, t: Cm.Turn): World
    requires t.consumed <= |w.toClient|
  {
    World(t.c, w.s, w.toClient[t.consumed..], w.toServer + t.out)
  }

  function AfterServer(w: World, t: Sm.Turn): World
    requires t.consumed <= |w.toServer|
  {
    World(w.c, t.s, w.toClient + t.out, w.toServer[t.consumed..])
  }

  lemma {:induction false} ClientStepsKeep(env: Env, d: Deal, w: World, gap: seq<Slot>, n: nat) returns (gap': seq<Slot>)
    requires Agreed(env, d) && Inv(env, d, w, gap) && Client.Steps(env, w.c, w.toClient, n).Some?
    ensures var w' := AfterClient(w, Client.Steps(env, w.c, w.toClient, n).value);
            Inv(env, d, w', gap') && Left(d, w') + n <= Left(d, w)
    decreases n
  {
    hide Inv, Left, Agreed, Cm.Step;
    gap' := gap;
    if n == 0 {
      assert AfterClient(w, Cm.Turn(w.c, 0, [])) == w;
    } else {
      gap' := ClientStepsKeep(env, d, w, gap, n - 1);
      var t := Client.Steps(env, w.c, w.toClient, n - 1).value;
      var u := Cm.Step(env, t.c, w.toClient[t.consumed..]).value;
      var w' := AfterClient(w, t);
      gap' := ClientStepKeeps(env, d, w', gap');
      assert w.toClient[t.consumed..][u.consumed..] == w.toClient[t.consumed + u.consumed..];
      assert (w.toServer + t.out) + u.out == w.toServer + (t.out + u.out);
    }
  }

  lemma {:induction false} ServerStepsKeep(env: Env, d: Deal, w: World, gap: seq<Slot>, n: nat) returns (gap': seq<Slot>)
    requires Agreed(env, d) && Inv(env, d, w, gap) && Server.Steps(env, d.terms, w.s, w.toServer, n).Some?
    ensures var w' := AfterServer(w, Server.Steps(env, d.terms, w.s, w.toServer, n).value);
            Inv(env, d, w', gap') && Left(d, w') + n <= Left(d, w)
    decreases n
  {
    hide Inv, Left, Agreed, Sm.Step;
    gap' := gap;
    if n == 0 {
      assert AfterServer(w, Sm.Turn(w.s, 0, [])) == w;
    } else {
      gap' := ServerStepsKeep(env, d, w, gap, n - 1);
      var t := Server.Steps(env, d.terms, w.s, w.toServer, n - 1).value;
      var u := Sm.Step(env, d.terms, t.s, w.toServer[t.consumed..]).value;
      var w' := AfterServer(w, t);
      gap' := ServerStepKeeps(env, d, w', gap');
      assert w.toServer[t.consumed..][u.consumed..] == w.toServer[t.consumed + u.consumed..];
      assert (w.toClient + t.out) + u.out == w.toClient + (t.out + u.out);
    }
  }

  /** Returning early to the caller of a false start changes nothing between the two. */
  lemma ClientComesBack(env: Env, d: Deal, w: World, gap: seq<Slot>)
    requires Inv(env, d, w, gap) && w.c.wait == WaitEarlyReturn
    ensures var w' := w.(c := w.c.(wait := WaitOk));
            Inv(env, d, w', gap) && Left(d, w') == Left(d, w)
  {
    hide Spaced, FinishedHonest, HelloHonest, CertHonest, Sw.Following, Cw.Past, Sw.Past, Rest, Cm.LogAt, Sm.LogAt;
  }

  lemma ServerComesBack(env: Env, d: Deal, w: World, gap: seq<Slot>)
    requires Inv(env, d, w, gap) && w.s.wait == WaitEarlyReturn
    ensures var w' := w.(s := w.s.(wait := WaitOk));
            Inv(env, d, w', gap) && Left(d, w') == Left(d, w)
  {
    hide Spaced, FinishedHonest, HelloHonest, CertHonest, Cw.Following, Cw.Past, Sw.Past, Rest, Cm.LogAt, Sm.LogAt;
  }

  // ----- The objects

  /** The two objects as the two machines, with what is on its way between them. */
  ghost function WorldOf(client: Client.Handshake, server: Server.Handshake): World
    reads client, server
  {
    World(client.Value(), server.Value(), client.incoming + server.outgoing, server.incoming + client.outgoing)
  }

  /** The two objects are somewhere in a handshake under the deal. */
  ghost predicate Talking(d: Deal, client: Client.Handshake, server: Server.Handshake, gap: seq<Slot>)
    reads client, server
  {
    && client.env == server.env && server.terms == d.terms && Agreed(client.env, d)
    && Inv(client.env, d, WorldOf(client, server), gap)
    && client.wait != WaitEarlyReturn && server.wait != WaitEarlyReturn
  }

  /** The client runs, on all that the server has sent. */
  method ClientTurn(ghost d: Deal, client: Client.Handshake, server: Server.Handshake, flushes: nat, ghost gap: seq<Slot>)
    returns (outcome: Client.Outcome, ghost gap': seq<Slot>, ghost steps: nat)
    requires Talking(d, client, server, gap) && server.outgoing == [] && flushes > 0
    modifies client
    ensures Talking(d, client, server, gap')
    ensures Left(d, WorldOf(client, server)) + steps <= old(Left(d, WorldOf(client, server)))
    ensures steps == 0 ==> WorldOf(client, server) == old(WorldOf(client, server)) && client.outgoing == old(client.outgoing)
    ensures steps == 0 ==> ClientStep(client.env, WorldOf(client, server)).None?
    ensures outcome == Client.FlushPending ==> steps > 0
    ensures outcome == Client.Complete <==> client.state == Cm.Done && client.wait == WaitOk
  {
    hide Inv, Left, Agreed, Cm.Step, ClientStep, Client.Steps, Cm.Sane, Cm.LogAt;
    ghost var w := WorldOf(client, server);
    NothingOnTop(client.incoming);
    ClientIsRunnable(client.env, d, w, gap);
    outcome, steps := client.RunHandshake(flushes);
    gap' := ClientStepsKeep(client.env, d, w, gap, steps);
    ghost var t := Client.Steps(client.env, w.c, w.toClient, steps).value;
    NothingOnTop(client.incoming);
    assert server.incoming + (old(client.outgoing) + t.out) == w.toServer + t.out;
    if outcome == Client.EarlyReturn {
      ClientComesBack(client.env, d, AfterClient(w, t), gap');
    }
    if steps == 0 {
      NoClientStep(client.env, w);
    }
  }

  /** The server runs, on all that the client has sent. */
  method ServerTurn(ghost d: Deal, client: Client.Handshake, server: Server.Handshake, flushes: nat, ghost gap: seq<Slot>)
    returns (outcome: Server.Outcome, ghost gap': seq<Slot>, ghost steps: nat)
    requires Talking(d, client, server, gap) && client.outgoing == [] && flushes > 0
    modifies server
    ensures Talking(d, client, server, gap')
    ensures Left(d, WorldOf(client, server)) + steps <= old(Left(d, WorldOf(client, server)))
    ensures steps == 0 ==> WorldOf(client, server) == old(WorldOf(client, server)) && server.outgoing == old(server.outgoing)
    ensures steps == 0 ==> ServerStep(client.env, d, WorldOf(client, server)).None?
    ensures outcome == Server.FlushPending ==> steps > 0
    ensures outcome == Server.Complete <==> server.state == Sm.Done && server.wait == WaitOk
  {
    hide Inv, Left, Agreed, Sm.Step, ServerStep, Server.Steps, Sm.Sane, Sm.LogAt;
    ghost var w := WorldOf(client, server);
    NothingOnTop(server.incoming);
    ServerIsRunnable(client.env, d, w, gap);
    outcome, steps := server.RunHandshake(flushes);
    gap' := ServerStepsKeep(client.env, d, w, gap, steps);
    ghost var t := Server.Steps(client.env, d.terms, w.s, w.toServer, steps).value;
    NothingOnTop(server.incoming);
    assert client.incoming + (old(server.outgoing) + t.out) == w.toClient + t.out;
    if outcome == Server.EarlyReturn {
      ServerComesBack(client.env, d, AfterServer(w, t), gap');
    }
    if steps == 0 {
      NoServerStep(client.env, d, w);
    }
  }

  lemma NothingOnTop(items: seq<Item>)
    ensures items + [] == items && items[0..] == items
  {
  }

  lemma ClientIsRunnable(env: Env, d: Deal, w: World, gap: seq<Slot>)
    requires Inv(env, d, w, gap)
    ensures Cm.Sane(w.c) && w.c.log == Cm.LogAt(w.c.state, w.c.terms.resumed)
  {
    hide Spaced, Honest, Sw.Following, Rest, Cm.LogAt, Sm.LogAt;
  }

  lemma NoClientStep(env: Env, w: World)
    ensures Client.Steps(env, w.c, w.toClient, 0).value == Cm.Turn(w.c, 0, [])
    ensures Cm.Step(env, w.c, w.toClient).None? ==> ClientStep(env, w).None?
  {
    hide Cm.Step;
  }

  lemma ServerIsRunnable(env: Env, d: Deal, w: World, gap: seq<Slot>)
    requires Inv(env, d, w, gap)
    ensures Sm.Sane(w.s, d.terms.hello.resumed) && w.s.log == Sm.LogAt(w.s.state, d.terms.hello.resumed)
  {
    hide Spaced, Honest, Cw.Following, Rest, Cm.LogAt, Sm.LogAt;
  }

  lemma NoServerStep(env: Env, d: Deal, w: World)
    ensures Server.Steps(env, d.terms, w.s, w.toServer, 0).value == Sm.Turn(w.s, 0, [])
    ensures Sm.Step(env, d.terms, w.s, w.toServer).None? ==> ServerStep(env, d, w).None?
  {
    hide Sm.Step;
  }

  /** Hand what one side has sent to the other. */
  method ToServer(ghost d: Deal, client: Client.Handshake, server: Server.Handshake, ghost gap: seq<Slot>)
    requires Talking(d, client, server, gap)
    modifies client`outgoing, server`incoming
    ensures Talking(d, client, server, gap) && WorldOf(client, server) == old(WorldOf(client, server))
    ensures client.outgoing == []
  {
    hide Inv, Agreed;
    server.incoming, client.outgoing := server.incoming + client.outgoing, [];
    NothingOnTop(server.incoming);
  }

  method ToClient(ghost d: Deal, client: Client.Handshake, server: Server.Handshake, ghost gap: seq<Slot>)
    requires Talking(d, client, server, gap)
    modifies server`outgoing, client`incoming
    ensures Talking(d, client, server, gap) && WorldOf(client, server) == old(WorldOf(client, server))
    ensures server.outgoing == []
  {
    hide Inv, Agreed;
    client.incoming, server.outgoing := client.incoming + server.outgoing, [];
    NothingOnTop(client.incoming);
  }

  /** Neither side can go on: the handshake is over. */
  lemma Over(env: Env, d: Deal, w: World, gap: seq<Slot>)
    requires Agreed(env, d) && Inv(env, d, w, gap) && ClientStep(env, w).None? && ServerStep(env, d, w).None?
    ensures Finished(d, w)
  {
    hide Agreed, Spaced, ClientStep, ServerStep, FinishedHonest, HelloHonest, CertHonest, Cw.Ahead, Sw.Ahead,
      ClientOnce, ServerOnce, Left, Msgs;
    StuckIsDone(env, d, w, gap);
    MsgsNone();
    assert w.c.transcript + [] == w.c.transcript && w.s.transcript + [] == w.s.transcript;
  }

  /** Both are done, with nothing unread, one transcript, and each Finished checked and sent once. */
  predicate Finished(d: Deal, w: World) {
    && w.c.state == Cm.Done && w.c.wait == WaitOk && w.s.state == Sm.Done && w.s.wait == WaitOk
    && w.toClient == [] && w.toServer == [] && w.c.transcript == w.s.transcript
    && w.c.log == (if d.terms.hello.resumed then READ + WROTE else WROTE + READ)
    && w.s.log == (if d.terms.hello.resumed then WROTE + READ else READ + WROTE)
  }

  lemma StuckIsOver(d: Deal, client: Client.Handshake, server: Server.Handshake, gap: seq<Slot>)
    requires Talking(d, client, server, gap)
    requires ClientStep(client.env, WorldOf(client, server)).None?
    requires ServerStep(client.env, d, WorldOf(client, server)).None?
    ensures Finished(d, WorldOf(client, server))
  {
    hide Agreed, Inv, Finished, ClientStep, ServerStep;
    Over(client.env, d, WorldOf(client, server), gap);
  }

  lemma DoneIsOver(d: Deal, client: Client.Handshake, server: Server.Handshake, gap: seq<Slot>)
    requires Talking(d, client, server, gap)
    requires client.state == Cm.Done && client.wait == WaitOk && server.state == Sm.Done && server.wait == WaitOk
    ensures Finished(d, WorldOf(client, server))
  {
    hide Agreed, Inv, Finished;
    StuckIsOver(d, client, server, gap);
  }

  lemma FinishedIsDone(d: Deal, client: Client.Handshake, server: Server.Handshake)
    requires Finished(d, WorldOf(client, server))
    ensures client.state == Cm.Done && client.wait == WaitOk && server.state == Sm.Done && server.wait == WaitOk
  {
  }

  lemma NewIsTalking(env: Env, d: Deal, client: Client.Handshake, server: Server.Handshake)
    requires Agreed(env, d) && client.env == env && server.env == env && server.terms == d.terms
    requires client.Value() == Cm.START && server.Value() == Sm.START
    requires client.incoming == [] && client.outgoing == [] && server.incoming == [] && server.outgoing == []
    ensures Talking(d, client, server, [])
  {
    hide Agreed, Inv;
    InvStarts(env, d);
    NothingOnTop([]);
  }

  /** The client is called again until its flights are out. */
  method ClientSpeaks(ghost d: Deal, client: Client.Handshake, server: Server.Handshake, flushes: nat, ghost gap: seq<Slot>)
    returns (outcome: Client.Outcome, ghost gap': seq<Slot>, ghost steps: nat)
    requires Talking(d, client, server, gap) && server.outgoing == [] && flushes > 0
    modifies client
    ensures Talking(d, client, server, gap')
    ensures Left(d, WorldOf(client, server)) + steps <= old(Left(d, WorldOf(client, server)))
    ensures steps == 0 ==> WorldOf(client, server) == old(WorldOf(client, server))
    ensures steps == 0 ==> ClientStep(client.env, WorldOf(client, server)).None?
    ensures outcome == Client.Complete <==> client.state == Cm.Done && client.wait == WaitOk
    decreases Left(d, WorldOf(client, server))
  {
    hide Talking, Left, ClientStep;
    outcome, gap', steps := ClientTurn(d, client, server, flushes, gap);
    if outcome == Client.FlushPending {
      ghost var more;
      outcome, gap', more := ClientSpeaks(d, client, server, flushes, gap');
      steps := steps + more;
    }
  }

  method ServerSpeaks(ghost d: Deal, client: Client.Handshake, server: Server.Handshake, flushes: nat, ghost gap: seq<Slot>)
    returns (outcome: Server.Outcome, ghost gap': seq<Slot>, ghost steps: nat)
    requires Talking(d, client, server, gap) && client.outgoing == [] && flushes > 0
    modifies server
    ensures Talking(d, client, server, gap')
    ensures Left(d, WorldOf(client, server)) + steps <= old(Left(d, WorldOf(client, server)))
    ensures steps == 0 ==> WorldOf(client, server) == old(WorldOf(client, server))
    ensures steps == 0 ==> ServerStep(client.env, d, WorldOf(client, server)).None?
    ensures outcome == Server.Complete <==> server.state == Sm.Done && server.wait == WaitOk
    decreases Left(d, WorldOf(client, server))
  {
    hide Talking, Left, ServerStep;
    outcome, gap', steps := ServerTurn(d, client, server, flushes, gap);
    if outcome == Server.FlushPending {
      ghost var more;
      outcome, gap', more := ServerSpeaks(d, client, server, flushes, gap');
      steps := steps + more;
    }
  }

  /**
    A client and a server under agreed terms, each called in turn with all that the other
    has sent, over transports that take so many flights in a call.
   */
  method Converse(env: Env, d: Deal, clientFlushes: nat, serverFlushes: nat)
    returns (client: Client.Handshake, server: Server.Handshake)
    requires Agreed(env, d) && clientFlushes > 0 && serverFlushes > 0
    ensures fresh(client) && fresh(server) && Finished(d, WorldOf(client, server))
  {
    hide Talking, WorldOf, Left, Agreed, ClientStep, ServerStep, Finished;
    client := new Client.Handshake(env);
    server := new Server.Handshake(env, d.terms);
    ghost var gap: seq<Slot> := [];
    NewIsTalking(env, d, client, server);
    while true
      invariant Talking(d, client, server, gap) && fresh(client) && fresh(server)
      decreases Left(d, WorldOf(client, server))
    {
      ghost var n, m;
      var clientDid, serverDid;
      ToClient(d, client, server, gap);
      clientDid, gap, n := ClientSpeaks(d, client, server, clientFlushes, gap);
      ToServer(d, client, server, gap);
      serverDid, gap, m := ServerSpeaks(d, client, server, serverFlushes, gap);
      if n + m == 0 {
        StuckIsOver(d, client, server, gap);
        FinishedIsDone(d, client, server);
      }
      if clientDid == Client.Complete && serverDid == Server.Complete {
        DoneIsOver(d, client, server, gap);
        return;
      }
    }
  }
}
