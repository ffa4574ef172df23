/** A whole connection, from the first SYN to the last FINACK, over two lossy first-in first-out
    channels. One client and one server, both fresh; each mutex region of either is one step. */
module Connection {
  import opened Sequences
  import opened Segments
  import opened SendBuffer
  import opened ReceiveBuffer
  import opened Endpoints
  import G = GoBackN

  /** Where the client's application thread is. `TornDown`: after a disconnect that succeeded. */
  datatype Phase = Fresh | Connecting | Ready | Closing | GaveUp | TornDown

  /** `served`: the server has called accept. `all` and `readOut` record the payloads queued and the
      bytes the server's application has read. */
  datatype Sys = Sys(
    client: Client, phase: Phase, server: Server, served: bool,
    toServer: seq<Segment>, toClient: seq<Segment>,
    all: seq<seq<byte>>, readOut: seq<byte>)

  datatype Peers = Peers(clientNode: int, clientPort: int, serverNode: int, serverPort: int)

  datatype Action =
    | Connect | ResendSyn | ConnectReturns
    | Queue(payload: seq<byte>) | Send | Timeout
    | Disconnect | ResendFin | GiveUp | Finish
    | Accept | CloseWaitEnds | Read(length: nat)
    | ServerReceives | ClientReceives
    | LoseToServer(i: nat) | LoseToClient(i: nat)

  /** Both ends as their socket calls create them; the server's peer and expected number are
      whatever the memory held. */
  ghost predicate Initial(p: Peers, s: Sys) {
    && s.client == Client(ClientClosed, p.clientPort, -1, s.client.svrPort, EMPTY) && s.phase == Fresh
    && s.server.state == ServerClosed && s.server.port == p.serverPort && s.server.recv.buf == []
    && !s.served
    && s.toServer == [] && s.toClient == [] && s.all == [] && s.readOut == []
  }

  predicate Enabled(s: Sys, a: Action) {
    match a
    case Connect => s.phase == Fresh && s.client.state == ClientClosed
    case ResendSyn => s.phase == Connecting
    case ConnectReturns => s.phase == Connecting
    case Queue(p) => s.phase == Ready && s.client.state == ClientConnected && 1 <= |p| <= MAX_SEG_LEN
    case Send => 0 <= s.client.buf.unAcked <= |s.client.buf.chunks|
    case Timeout => 0 <= s.client.buf.unAcked <= |s.client.buf.chunks|
    case Disconnect => s.phase == Ready && s.client.state == ClientConnected
    case ResendFin => s.phase == Closing
    case GiveUp => s.phase == Closing
    case Finish => s.phase == Closing && s.client.state == ClientClosed
    case Accept => !s.served && s.server.state == ServerClosed
    case CloseWaitEnds => s.server.state == CloseWait
    case Read(length) => s.served && length <= |s.server.recv.buf|
    case ServerReceives => s.toServer != []
    case ClientReceives => s.toClient != []
    case LoseToServer(i) => i < |s.toServer|
    case LoseToClient(i) => i < |s.toClient|
  }

  function Drop(q: seq<Segment>, i: nat): seq<Segment>
    requires i < |q|
  {
    q[..i] + q[i + 1..]
  }

  function Apply(p: Peers, s: Sys, a: Action): Sys
    requires Enabled(s, a)
  {
    var c := s.client;
    match a
    case Connect =>
      var c' := c.(state := SynSent, svrNode := p.serverNode, svrPort := p.serverPort);
      s.(client := c', phase := Connecting, toServer := s.toServer + [SynSegment(c')])
    case ResendSyn => s.(toServer := s.toServer + [SynSegment(c)])
    case ConnectReturns => s.(phase := Ready)
    case Queue(d) => s.(client := c.(buf := Append(c.buf, d)), all := s.all + [d])
    case Send =>
      s.(client := c.(buf := AfterSend(c.buf)), toServer := s.toServer + DataSegments(c, Transmitted(c.buf)))
    case Timeout => s.(toServer := s.toServer + DataSegments(c, Resent(c.buf)))
    case Disconnect =>
      s.(client := c.(state := FinWait), phase := Closing, toServer := s.toServer + [FinSegment(c)])
    case ResendFin => s.(toServer := s.toServer + [FinSegment(c)])
    case GiveUp => s.(client := c.(state := ClientClosed), phase := GaveUp)
    case Finish =>
      s.(client := c.(svrNode := -1, svrPort := 0, buf := Destroyed(c.buf).(nextSeq := 0)), phase := TornDown)
    case Accept => s.(server := s.server.(state := Listening), served := true)
    case CloseWaitEnds =>
      s.(server := s.server.(state := ServerClosed, recv := s.server.recv.(buf := [])))
    case Read(length) =>
      s.(server := s.server.(recv := AfterRead(s.server.recv, length)),
         readOut := s.readOut + s.server.recv.buf[..length])
    case ServerReceives =>
      var seg := s.toServer[0];
      var reply := ServerReply(s.server, p.clientNode, seg);
      s.(server := ServerOnSegment(s.server, p.clientNode, seg),
         toServer := s.toServer[1..],
         toClient := if reply.Some? then s.toClient + [reply.value] else s.toClient)
    case ClientReceives =>
      s.(client := ClientOnSegment(c, p.serverNode, s.toClient[0]), toClient := s.toClient[1..])
    case LoseToServer(i) => s.(toServer := Drop(s.toServer, i))
    case LoseToClient(i) => s.(toClient := Drop(s.toClient, i))
  }

  ghost predicate Legal(p: Peers, s: Sys, acts: seq<Action>)
    decreases |acts|, 0
  {
    acts == [] ||
    (Legal(p, s, acts[..|acts| - 1]) && Enabled(Exec(p, s, acts[..|acts| - 1]), acts[|acts| - 1]))
  }

  ghost function Exec(p: Peers, s: Sys, acts: seq<Action>): Sys
    requires Legal(p, s, acts)
    decreases |acts|, 1
  {
    if acts == [] then s else Apply(p, Exec(p, s, acts[..|acts| - 1]), acts[|acts| - 1])
  }

  /** One more step. */
  lemma Extend(p: Peers, s0: Sys, acts: seq<Action>, a: Action)
    requires Legal(p, s0, acts) && Enabled(Exec(p, s0, acts), a)
    ensures Legal(p, s0, acts + [a]) && Exec(p, s0, acts + [a]) == Apply(p, Exec(p, s0, acts), a)
  {
    assert (acts + [a])[..|acts + [a]| - 1] == acts;
  }

  /** A run and another one after it. */
  lemma {:induction false} Chain(p: Peers, s: Sys, u: seq<Action>, v: seq<Action>)
    requires Legal(p, s, u) && Legal(p, Exec(p, s, u), v)
    ensures Legal(p, s, u + v) && Exec(p, s, u + v) == Exec(p, Exec(p, s, u), v)
    decreases |v|
  {
    if v == [] {
      assert u + v == u;
    } else {
      Chain(p, s, u, v[..|v| - 1]);
      assert (u + v)[..|u + v| - 1] == u + v[..|v| - 1];
    }
  }

  // ---------------------------------------------------------------- invariants

  /** The server has not yet heard from the client. */
  predicate Unheard(s: Sys) {
    s.server.state == Listening || (s.server.state == ServerClosed && !s.served)
  }

  /** The server holds a connection, possibly already asked to close. */
  predicate Open(s: Sys) {
    s.server.state == ServerConnected || s.server.state == CloseWait
  }

  /** A segment from this client to this server. */
  ghost predicate ToServerSegment(p: Peers, seg: Segment) {
    && seg.srcPort == p.clientPort && seg.destPort == p.serverPort
    && (seg.kind == SYN || seg.kind == DATA || seg.kind == FIN)
    && seg.ackNum == 0 && (seg.kind != DATA ==> seg.seqNum == 0 && seg.data == [])
  }

  ghost predicate ToClientSegment(p: Peers, seg: Segment) {
    && seg.srcPort == p.serverPort && seg.destPort == p.clientPort
    && (seg.kind == SYNACK || seg.kind == DATAACK || seg.kind == FINACK)
    && seg.seqNum == 0 && seg.data == [] && (seg.kind != DATAACK ==> seg.ackNum == 0)
  }

  /** No SYN comes after anything else. */
  ghost predicate SynsFirst(q: seq<Segment>) {
    forall i, j :: 0 <= i < j < |q| && q[j].kind == SYN ==> q[i].kind == SYN
  }

  ghost predicate AllSyn(q: seq<Segment>) {
    forall seg :: seg in q ==> seg.kind == SYN
  }

  ghost predicate HasSyn(q: seq<Segment>) {
    exists seg :: seg in q && seg.kind == SYN
  }

  ghost predicate ClientShape(p: Peers, s: Sys) {
    && s.client.port == p.clientPort
    && (s.phase == Fresh || s.phase == TornDown ||
        (s.client.svrNode == p.serverNode && s.client.svrPort == p.serverPort))
    && (match s.phase
        case Fresh => s.client.state == ClientClosed && s.toServer == [] && s.all == []
        case Connecting => s.client.state in {SynSent, ClientConnected} && AllSyn(s.toServer) && s.all == []
        case Ready => s.client.state in {SynSent, ClientConnected}
        case Closing => s.client.state in {FinWait, ClientClosed}
        case GaveUp => s.client.state == ClientClosed
        case TornDown => s.client.state == ClientClosed)
    && (s.client.state == SynSent ==> AllSyn(s.toServer) && s.all == [])
  }

  ghost predicate ServerShape(p: Peers, s: Sys) {
    && s.server.port == p.serverPort
    && (if Unheard(s) then
          s.toClient == [] && s.phase in {Fresh, Connecting, Ready} && s.client.state in {ClientClosed, SynSent}
        else s.served && s.server.clientNode == p.clientNode && s.server.clientPort == p.clientPort)
    && (s.server.state == Listening ==> s.served)
    && (!Open(s) ==> s.server.recv.buf == [])
  }

  ghost predicate ChannelShape(p: Peers, s: Sys) {
    && (forall seg :: seg in s.toServer ==> ToServerSegment(p, seg))
    && (forall seg :: seg in s.toClient ==> ToClientSegment(p, seg))
    && SynsFirst(s.toServer)
  }

  /** `g` is a reachable state of the data phase that explains this one. */
  ghost predicate Explains(s: Sys, g: G.State) {
    && G.Reachable(g)
    && g.all == s.all && g.readOut == s.readOut
    && (if s.phase == TornDown then s.client.buf == EMPTY else g.buf == s.client.buf)
    && (Open(s) ==> g.recv == s.server.recv)
    && (Unheard(s) || HasSyn(s.toServer) ==> g.recv == Receiver(0, []) && g.accepted == [])
    && (forall seg :: seg in s.toServer && seg.kind == DATA ==> ChunkOf(seg) in g.data)
    && (forall seg :: seg in s.toClient && seg.kind == DATAACK ==> seg.ackNum in g.acks)
  }

  ghost predicate Inv(p: Peers, s: Sys, g: G.State) {
    ClientShape(p, s) && ServerShape(p, s) && ChannelShape(p, s) && Explains(s, g)
  }

  lemma InitialInv(p: Peers, s: Sys)
    requires Initial(p, s)
    ensures Inv(p, s, G.INIT)
  {
    G.ReachableInit();
  }

  // ---------------------------------------------------------------- client steps

  lemma SynStep(p: Peers, s: Sys, g: G.State, a: Action)
    requires Inv(p, s, g) && Enabled(s, a) && a in {Connect, ResendSyn, ConnectReturns}
    ensures Inv(p, Apply(p, s, a), g)
  {
    NothingQueued(s, g);
  }

  /** With nothing queued, nothing can have been accepted. */
  lemma NothingQueued(s: Sys, g: G.State)
    requires Explains(s, g)
    ensures s.all == [] ==> g.accepted == [] && g.recv == Receiver(0, []) && g.buf.chunks == []
  {
    G.ReachableInv(g);
  }

  lemma QueueStep(p: Peers, s: Sys, g: G.State, d: seq<byte>)
    requires Inv(p, s, g) && Enabled(s, Queue(d))
    ensures G.Enabled(g, G.Queue(d)) && Inv(p, Apply(p, s, Queue(d)), G.Apply(g, G.Queue(d)))
  {
    G.ReachableStep(g, G.Queue(d));
  }

  lemma DataAppended(p: Peers, s: Sys, q: seq<Segment>, c: Client, chunks: seq<Chunk>)
    requires q == s.toServer + DataSegments(c, chunks)
    requires c.port == p.clientPort && c.svrPort == p.serverPort && ChannelShape(p, s)
    ensures forall seg :: seg in q ==> ToServerSegment(p, seg)
    ensures SynsFirst(q) && (HasSyn(q) ==> HasSyn(s.toServer))
    ensures forall seg :: seg in q && seg.kind == DATA ==> seg in s.toServer || ChunkOf(seg) in chunks
  {
    forall seg | seg in q
      ensures seg in s.toServer || (ToServerSegment(p, seg) && seg.kind == DATA && ChunkOf(seg) in chunks)
    {
      if seg !in s.toServer {
        var i :| 0 <= i < |chunks| && DataSegments(c, chunks)[i] == seg;
        assert ChunkOf(seg) == chunks[i];
      }
    }
  }

  lemma SendStep(p: Peers, s: Sys, g: G.State)
    requires Inv(p, s, g) && Enabled(s, Send) && s.client.buf.chunks != []
    ensures G.Enabled(g, G.Send) && Inv(p, Apply(p, s, Send), G.Apply(g, G.Send))
  {
    NothingQueued(s, g);
    G.ReachableStep(g, G.Send);
    var s', g' := Apply(p, s, Send), G.Apply(g, G.Send);
    DataAppended(p, s, s'.toServer, s.client, Transmitted(s.client.buf));
    forall seg | seg in s'.toServer && seg.kind == DATA
      ensures ChunkOf(seg) in g'.data
    {
      assert seg in s.toServer || ChunkOf(seg) in Transmitted(g.buf);
    }
  }

  lemma TimeoutStep(p: Peers, s: Sys, g: G.State)
    requires Inv(p, s, g) && Enabled(s, Timeout) && s.client.buf.chunks != []
    ensures G.Enabled(g, G.Timeout) && Inv(p, Apply(p, s, Timeout), G.Apply(g, G.Timeout))
  {
    NothingQueued(s, g);
    G.ReachableStep(g, G.Timeout);
    var s', g' := Apply(p, s, Timeout), G.Apply(g, G.Timeout);
    DataAppended(p, s, s'.toServer, s.client, Resent(s.client.buf));
    forall seg | seg in s'.toServer && seg.kind == DATA
      ensures ChunkOf(seg) in g'.data
    {
      assert seg in s.toServer || ChunkOf(seg) in Resent(g.buf);
    }
  }

  /** With an empty buffer, sending and timing out transmit nothing. */
  lemma IdleStep(p: Peers, s: Sys, a: Action)
    requires Enabled(s, a) && a in {Send, Timeout} && s.client.buf.chunks == []
    ensures Apply(p, s, a) == s
  {
    assert s.toServer + [] == s.toServer;
  }

  lemma ClosingStep(p: Peers, s: Sys, g: G.State, a: Action)
    requires Inv(p, s, g) && Enabled(s, a) && a in {Disconnect, ResendFin, GiveUp, Finish}
    ensures Inv(p, Apply(p, s, a), g)
  {
    var s' := Apply(p, s, a);
    assert !Unheard(s);
    assert HasSyn(s'.toServer) ==> HasSyn(s.toServer);
    assert SynsFirst(s'.toServer);
  }

  lemma ClientHeedsStep(p: Peers, s: Sys, g: G.State)
    requires Inv(p, s, g) && s.toClient != [] && !Unheard(s)
    requires s.client.state == ClientConnected && s.toClient[0].kind == DATAACK
    ensures G.Enabled(g, G.DeliverAck(s.toClient[0].ackNum))
    ensures Inv(p, Apply(p, s, ClientReceives), G.Apply(g, G.DeliverAck(s.toClient[0].ackNum)))
  {
    var seg := s.toClient[0];
    assert ToClientSegment(p, seg) && seg.ackNum in g.acks;
    G.ReachableStep(g, G.DeliverAck(seg.ackNum));
  }

  lemma ClientIgnoresStep(p: Peers, s: Sys, g: G.State)
    requires Inv(p, s, g) && s.toClient != [] && !Unheard(s)
    requires s.client.state != ClientConnected || s.toClient[0].kind != DATAACK
    ensures Inv(p, Apply(p, s, ClientReceives), g)
  {
    assert Apply(p, s, ClientReceives).client.buf == s.client.buf;
  }

  lemma ClientReceivesStep(p: Peers, s: Sys, g: G.State) returns (g': G.State)
    requires Inv(p, s, g) && Enabled(s, ClientReceives)
    ensures Inv(p, Apply(p, s, ClientReceives), g')
  {
    assert ToClientSegment(p, s.toClient[0]);
    if s.client.state == ClientConnected && s.toClient[0].kind == DATAACK {
      ClientHeedsStep(p, s, g);
      g' := G.Apply(g, G.DeliverAck(s.toClient[0].ackNum));
    } else {
      ClientIgnoresStep(p, s, g);
      g' := g;
    }
  }

  // ---------------------------------------------------------------- server steps

  lemma HeadGone(p: Peers, s: Sys)
    requires ChannelShape(p, s) && s.toServer != []
    ensures forall seg :: seg in s.toServer[1..] ==> seg in s.toServer
    ensures SynsFirst(s.toServer[1..])
    ensures s.toServer[0].kind != SYN ==> !HasSyn(s.toServer[1..])
  {
    var tail := s.toServer[1..];
    assert forall i :: 0 <= i < |tail| ==> tail[i] == s.toServer[i + 1];
  }

  lemma ServerReceivesSyn(p: Peers, s: Sys, g: G.State)
    requires Inv(p, s, g) && s.toServer != [] && s.toServer[0].kind == SYN
    ensures Inv(p, Apply(p, s, ServerReceives), g)
  {
    HeadGone(p, s);
    assert HasSyn(s.toServer);
    assert ToServerSegment(p, s.toServer[0]);
  }

  lemma ServerReceivesFin(p: Peers, s: Sys, g: G.State)
    requires Inv(p, s, g) && s.toServer != [] && s.toServer[0].kind == FIN
    ensures Inv(p, Apply(p, s, ServerReceives), g)
  {
    HeadGone(p, s);
    assert ToServerSegment(p, s.toServer[0]);
    if Unheard(s) {
      UnheardOnlySyn(p, s);
      assert false;
    }
  }

  /** Before the server has heard anything, only SYNs are on their way to it. */
  lemma UnheardOnlySyn(p: Peers, s: Sys)
    requires ClientShape(p, s) && ServerShape(p, s) && Unheard(s)
    ensures AllSyn(s.toServer)
  {
  }

  lemma ServerReceivesData(p: Peers, s: Sys, g: G.State) returns (g': G.State)
    requires Inv(p, s, g) && s.toServer != [] && s.toServer[0].kind == DATA
    ensures Inv(p, Apply(p, s, ServerReceives), g')
    ensures s.server.state == ServerConnected ==>
              var d := G.DeliverData(ChunkOf(s.toServer[0])); G.Enabled(g, d) && g' == G.Apply(g, d)
  {
    HeadGone(p, s);
    var seg := s.toServer[0];
    assert ToServerSegment(p, seg) && ChunkOf(seg) in g.data;
    if Unheard(s) {
      UnheardOnlySyn(p, s);
      assert false;
    }
    if s.server.state == ServerConnected {
      G.ReachableStep(g, G.DeliverData(ChunkOf(seg)));
      g' := G.Apply(g, G.DeliverData(ChunkOf(seg)));
    } else {
      g' := g;
    }
  }

  lemma ServerOwnStep(p: Peers, s: Sys, g: G.State, a: Action)
    requires Inv(p, s, g) && Enabled(s, a) && a in {Accept, CloseWaitEnds}
    ensures Inv(p, Apply(p, s, a), g)
  {
  }

  lemma ReadStep(p: Peers, s: Sys, g: G.State, length: nat) returns (g': G.State)
    requires Inv(p, s, g) && Enabled(s, Read(length))
    ensures Inv(p, Apply(p, s, Read(length)), g')
  {
    if Open(s) {
      G.ReachableStep(g, G.Read(length));
      g' := G.Apply(g, G.Read(length));
      if HasSyn(s.toServer) {
        assert s.server.recv.buf == [];
      }
    } else {
      assert length == 0;
      g' := g;
      assert s.readOut + [] == s.readOut;
    }
  }

  /** Losing a segment leaves the others, in their order. */
  lemma DropKeeps(q: seq<Segment>, i: nat)
    requires i < |q|
    ensures forall seg :: seg in Drop(q, i) ==> seg in q
    ensures SynsFirst(q) ==> SynsFirst(Drop(q, i))
  {
    var r := Drop(q, i);
    assert forall j :: 0 <= j < |r| ==> r[j] == q[if j < i then j else j + 1];
  }

  lemma LoseStep(p: Peers, s: Sys, g: G.State, a: Action)
    requires Inv(p, s, g) && Enabled(s, a) && (a.LoseToServer? || a.LoseToClient?)
    ensures Inv(p, Apply(p, s, a), g)
  {
    match a
    case LoseToServer(i) => DropKeeps(s.toServer, i);
    case LoseToClient(i) => DropKeeps(s.toClient, i);
  }

  // ---------------------------------------------------------------- refinement

  lemma StepRefines(p: Peers, s: Sys, g: G.State, a: Action) returns (g': G.State)
    requires Inv(p, s, g) && Enabled(s, a)
    ensures Inv(p, Apply(p, s, a), g')
  {
    g' := g;
    match a
    case Connect => SynStep(p, s, g, a);
    case ResendSyn => SynStep(p, s, g, a);
    case ConnectReturns => SynStep(p, s, g, a);
    case Queue(d) =>
      QueueStep(p, s, g, d);
      g' := G.Apply(g, G.Queue(d));
    case Send =>
      if s.client.buf.chunks == [] {
        IdleStep(p, s, a);
      } else {
        SendStep(p, s, g);
        g' := G.Apply(g, G.Send);
      }
    case Timeout =>
      if s.client.buf.chunks == [] {
        IdleStep(p, s, a);
      } else {
        TimeoutStep(p, s, g);
        g' := G.Apply(g, G.Timeout);
      }
    case Disconnect => ClosingStep(p, s, g, a);
    case ResendFin => ClosingStep(p, s, g, a);
    case GiveUp => ClosingStep(p, s, g, a);
    case Finish => ClosingStep(p, s, g, a);
    case Accept => ServerOwnStep(p, s, g, a);
    case CloseWaitEnds => ServerOwnStep(p, s, g, a);
    case Read(length) => g' := ReadStep(p, s, g, length);
    case ServerReceives =>
      assert ToServerSegment(p, s.toServer[0]);
      if s.toServer[0].kind == SYN {
        ServerReceivesSyn(p, s, g);
      } else if s.toServer[0].kind == FIN {
        ServerReceivesFin(p, s, g);
      } else {
        g' := ServerReceivesData(p, s, g);
      }
    case ClientReceives => g' := ClientReceivesStep(p, s, g);
    case LoseToServer(i) => LoseStep(p, s, g, a);
    case LoseToClient(i) => LoseStep(p, s, g, a);
  }

  /** Refinement: every state a connection can get into, handshake, loss and close included, is
      explained by a reachable state of the data phase alone. */
  lemma {:induction false} RunRefines(p: Peers, s0: Sys, acts: seq<Action>) returns (g: G.State)
    requires Initial(p, s0) && Legal(p, s0, acts)
    ensures Inv(p, Exec(p, s0, acts), g)
  {
    if acts == [] {
      g := G.INIT;
      InitialInv(p, s0);
    } else {
      var init := acts[..|acts| - 1];
      g := RunRefines(p, s0, init);
      g := StepRefines(p, Exec(p, s0, init), g, acts[|acts| - 1]);
    }
  }

  // ---------------------------------------------------------------- what every connection guarantees

  /** Whole-connection reliability: at every moment what the application has read is a prefix of the
      bytes ever queued, and while the connection is open the bytes read followed by the bytes in the
      receive buffer are exactly the first `expected` of them. */
  lemma ConnectionReliable(p: Peers, s0: Sys, acts: seq<Action>)
    requires Initial(p, s0) && Legal(p, s0, acts)
    ensures var s := Exec(p, s0, acts);
            && s.readOut <= Flatten(s.all)
            && (Open(s) ==>
                  && s.server.recv.expected <= |Flatten(s.all)|
                  && s.readOut + s.server.recv.buf == Flatten(s.all)[..s.server.recv.expected])
  {
    var g := RunRefines(p, s0, acts);
    G.Reliable(g);
    assert g.readOut <= g.readOut + g.recv.buf;
  }

  /** Handshake agreement: once the client is connected, the server has left LISTENING with this
      client's node and port on record; and as long as it is listening, only SYNs are under way, so
      moving to CONNECTED on whatever arrives first is safe. */
  lemma HandshakeAgreement(p: Peers, s0: Sys, acts: seq<Action>)
    requires Initial(p, s0) && Legal(p, s0, acts)
    ensures var s := Exec(p, s0, acts);
            && (s.client.state in {ClientConnected, FinWait} ==>
                  && s.served && s.server.state != Listening
                  && s.server.clientNode == p.clientNode && s.server.clientPort == p.clientPort
                  && s.client.svrNode == p.serverNode && s.client.svrPort == p.serverPort)
            && (s.server.state == Listening ==> AllSyn(s.toServer) && s.toClient == [] && s.all == [])
  {
    var g := RunRefines(p, s0, acts);
  }

  /** A SYN never trails data, so resetting the expected number on a late SYN loses nothing. */
  lemma LateSynHarmless(p: Peers, s0: Sys, acts: seq<Action>, s: Sys)
    requires Initial(p, s0) && Legal(p, s0, acts) && s == Exec(p, s0, acts)
    requires s.toServer != [] && s.toServer[0].kind == SYN && s.server.state == ServerConnected
    ensures s.server.recv == Receiver(0, []) && s.readOut == []
    ensures Apply(p, s, ServerReceives).server == s.server
  {
    var g := RunRefines(p, s0, acts);
    SynUnchanged(p, s, g);
  }

  lemma SynUnchanged(p: Peers, s: Sys, g: G.State)
    requires Inv(p, s, g)
    requires s.toServer != [] && s.toServer[0].kind == SYN && s.server.state == ServerConnected
    ensures s.server.recv == Receiver(0, []) && s.readOut == []
    ensures Apply(p, s, ServerReceives).server == s.server
  {
    assert HasSyn(s.toServer) && ToServerSegment(p, s.toServer[0]);
    G.Reliable(g);
    assert g.readOut + [] == g.readOut;
  }

  /** The send and timeout steps are defined in every state of every connection, at most ten
      segments are in flight, and an acknowledgement the client heeds frees only those. */
  lemma ConnectionAckSafe(p: Peers, s0: Sys, acts: seq<Action>, s: Sys)
    requires Initial(p, s0) && Legal(p, s0, acts) && s == Exec(p, s0, acts)
    ensures Enabled(s, Send) && Enabled(s, Timeout) && s.client.buf.unAcked <= GBN_WINDOW
    ensures s.toClient != [] && IsHeededAck(s.client, p.serverNode, s.toClient[0]) ==>
              G.AckIsSafe(s.client.buf, s.toClient[0].ackNum)
    ensures s.toClient != [] ==> !TooFar(s.client, p.serverNode, s.toClient[0])
  {
    var g := RunRefines(p, s0, acts);
    G.WindowDiscipline(g);
    if s.toClient != [] && IsHeededAck(s.client, p.serverNode, s.toClient[0]) {
      assert s.toClient[0] in s.toClient;
      G.AckSafe(g, s.toClient[0].ackNum);
    }
  }
}
