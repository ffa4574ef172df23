/** How a connection ends: what the client's test of the closing reply does to every run. */
module CloseDown {
  import opened Segments
  import opened SendBuffer
  import opened ReceiveBuffer
  import opened Endpoints
  import opened Connection

  /** No disconnect has succeeded so far. */
  ghost predicate NotClosed(s: Sys) {
    s.phase != TornDown && (s.phase == Closing ==> s.client.state == FinWait)
  }

  /** If the server's port number is not its node ID, no run ever completes a disconnect: the client
      can only give up. */
  lemma {:induction false} NeverCloses(p: Peers, s0: Sys, acts: seq<Action>)
    requires p.serverPort != p.serverNode && Initial(p, s0) && Legal(p, s0, acts)
    ensures NotClosed(Exec(p, s0, acts))
  {
    if acts != [] {
      var init := acts[..|acts| - 1];
      NeverCloses(p, s0, init);
      var g := RunRefines(p, s0, init);
      var s := Exec(p, s0, init);
      NotClosedStep(p, s, acts[|acts| - 1]);
    }
  }

  lemma NotClosedStep(p: Peers, s: Sys, a: Action)
    requires p.serverPort != p.serverNode && ClientShape(p, s) && NotClosed(s) && Enabled(s, a)
    ensures NotClosed(Apply(p, s, a))
  {
  }

  /** The undisturbed exchange: accept, handshake, disconnect, FIN, FINACK. */
  const CLOSING_RUN: seq<Action> :=
    [Accept, Connect, ServerReceives, ClientReceives, ConnectReturns,
     Disconnect, ServerReceives, ClientReceives, Finish]

  /** Two more steps of the exchange. */
  lemma ExtendTwo(p: Peers, s0: Sys, k: nat)
    requires k + 2 <= |CLOSING_RUN| && Legal(p, s0, CLOSING_RUN[..k])
    requires Enabled(Exec(p, s0, CLOSING_RUN[..k]), CLOSING_RUN[k])
    requires Enabled(Apply(p, Exec(p, s0, CLOSING_RUN[..k]), CLOSING_RUN[k]), CLOSING_RUN[k + 1])
    ensures Legal(p, s0, CLOSING_RUN[..k + 2])
    ensures Exec(p, s0, CLOSING_RUN[..k + 2]) ==
              Apply(p, Apply(p, Exec(p, s0, CLOSING_RUN[..k]), CLOSING_RUN[k]), CLOSING_RUN[k + 1])
  {
    var r := CLOSING_RUN;
    assert r[..k + 1] == r[..k] + [r[k]] && r[..k + 2] == r[..k + 1] + [r[k + 1]];
    Extend(p, s0, r[..k], r[k]);
    Extend(p, s0, r[..k + 1], r[k + 1]);
  }

  /** The server is listening and the first SYN is under way. */
  lemma ConnectingRun(p: Peers, s0: Sys)
    requires Initial(p, s0)
    ensures Legal(p, s0, CLOSING_RUN[..2])
    ensures var s := Exec(p, s0, CLOSING_RUN[..2]);
            && s.phase == Connecting && s.served
            && s.client == Client(SynSent, p.clientPort, p.serverNode, p.serverPort, EMPTY)
            && s.server == Server(Listening, p.serverPort, s0.server.clientNode, s0.server.clientPort, s0.server.recv)
            && s.toServer == [SynSegment(s.client)] && s.toClient == []
  {
    assert CLOSING_RUN[..0] == [];
    assert Legal(p, s0, CLOSING_RUN[..0]);
    ExtendTwo(p, s0, 0);
  }

  /** Both ends are connected and the channels are empty. */
  lemma HandshakeRun(p: Peers, s0: Sys)
    requires Initial(p, s0)
    ensures Legal(p, s0, CLOSING_RUN[..4])
    ensures var s := Exec(p, s0, CLOSING_RUN[..4]);
            && s.phase == Connecting
            && s.client == Client(ClientConnected, p.clientPort, p.serverNode, p.serverPort, EMPTY)
            && s.server == Server(ServerConnected, p.serverPort, p.clientNode, p.clientPort, Receiver(0, []))
            && s.toServer == [] && s.toClient == []
  {
    ConnectingRun(p, s0);
    ExtendTwo(p, s0, 2);
  }

  /** The client has sent its FIN. */
  lemma FinRun(p: Peers, s0: Sys)
    requires Initial(p, s0)
    ensures Legal(p, s0, CLOSING_RUN[..6])
    ensures var s := Exec(p, s0, CLOSING_RUN[..6]);
            && s.phase == Closing
            && s.client == Client(FinWait, p.clientPort, p.serverNode, p.serverPort, EMPTY)
            && s.server == Server(ServerConnected, p.serverPort, p.clientNode, p.clientPort, Receiver(0, []))
            && s.toServer == [FinSegment(s.client)] && s.toClient == []
  {
    HandshakeRun(p, s0);
    ExtendTwo(p, s0, 4);
  }

  /** A FIN and the answer to it, between connected ends with nothing else under way. */
  lemma FinExchange(p: Peers, s: Sys)
    requires p.serverPort == p.serverNode && s.phase == Closing
    requires s.client == Client(FinWait, p.clientPort, p.serverNode, p.serverPort, EMPTY)
    requires s.server == Server(ServerConnected, p.serverPort, p.clientNode, p.clientPort, Receiver(0, []))
    requires s.toServer == [FinSegment(s.client)] && s.toClient == []
    ensures Enabled(s, ServerReceives) && Enabled(Apply(p, s, ServerReceives), ClientReceives)
    ensures var s' := Apply(p, Apply(p, s, ServerReceives), ClientReceives);
            s'.phase == Closing && s'.client.state == ClientClosed
  {
    var s1 := Apply(p, s, ServerReceives);
    assert s1.toClient == [ReplyTo(s.server, FINACK, 0)] && s1.client == s.client;
  }

  /** With the port equal to the node ID the server's FINACK is accepted. */
  lemma FinAckRun(p: Peers, s0: Sys)
    requires p.serverPort == p.serverNode && Initial(p, s0)
    ensures Legal(p, s0, CLOSING_RUN[..8])
    ensures var s := Exec(p, s0, CLOSING_RUN[..8]);
            s.phase == Closing && s.client.state == ClientClosed
  {
    FinRun(p, s0);
    FinExchange(p, Exec(p, s0, CLOSING_RUN[..6]));
    ExtendTwo(p, s0, 6);
  }

  lemma ClosingRun(p: Peers, s0: Sys)
    requires p.serverPort == p.serverNode && Initial(p, s0)
    ensures Legal(p, s0, CLOSING_RUN) && Exec(p, s0, CLOSING_RUN).phase == TornDown
  {
    FinAckRun(p, s0);
    assert CLOSING_RUN == CLOSING_RUN[..8] + [CLOSING_RUN[8]];
    Extend(p, s0, CLOSING_RUN[..8], CLOSING_RUN[8]);
  }

  /** Some run completes a disconnect exactly when the server's port number equals its node ID. */
  lemma CanCloseIff(p: Peers, s0: Sys)
    requires Initial(p, s0)
    ensures (exists acts :: Legal(p, s0, acts) && Exec(p, s0, acts).phase == TornDown) <==>
            p.serverPort == p.serverNode
  {
    if p.serverPort == p.serverNode {
      ClosingRun(p, s0);
    } else {
      forall acts | Legal(p, s0, acts)
        ensures Exec(p, s0, acts).phase != TornDown
      {
        NeverCloses(p, s0, acts);
      }
    }
  }
}
