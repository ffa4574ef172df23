/** How the two ends react to a segment, as functions on their control blocks. */
module Endpoints {
  import opened Segments
  import opened SendBuffer
  import opened ReceiveBuffer
  import opened GoBackN

  datatype Option<+T> = None | Some(value: T)

  // ---------------------------------------------------------------- client

  datatype ClientState = ClientClosed | SynSent | ClientConnected | FinWait

  datatype Client = Client(state: ClientState, port: int, svrNode: int, svrPort: int, buf: SendBuf)

  predicate FromServer(c: Client, src: int, seg: Segment) {
    c.svrNode == src && c.svrPort == seg.srcPort
  }

  predicate IsHeededAck(c: Client, src: int, seg: Segment) {
    c.state == ClientConnected && FromServer(c, src, seg) && seg.kind == DATAACK && Heeds(c.buf, seg.ackNum)
  }

  /** An acknowledgement that would remove a segment not yet sent. */
  predicate TooFar(c: Client, src: int, seg: Segment) {
    IsHeededAck(c, src, seg) && c.buf.unAcked < Below(c.buf.chunks, seg.ackNum)
  }

  /** The test a connection-closing reply has to pass: the port is compared with the sending node. */
  predicate IsFinAck(c: Client, src: int, seg: Segment) {
    seg.kind == FINACK && c.svrPort == src && c.svrPort == seg.srcPort
  }

  function ClientOnSegment(c: Client, src: int, seg: Segment): Client {
    match c.state
    case ClientConnected =>
      if IsHeededAck(c, src, seg) then c.(buf := AfterAck(c.buf, seg.ackNum)) else c
    case SynSent =>
      if seg.kind == SYNACK && FromServer(c, src, seg) then c.(state := ClientConnected) else c
    case FinWait =>
      if IsFinAck(c, src, seg) then c.(state := ClientClosed) else c
    case ClientClosed => c
  }

  function SynSegment(c: Client): Segment {
    Segment(c.port, c.svrPort, 0, 0, SYN, [])
  }

  function FinSegment(c: Client): Segment {
    Segment(c.port, c.svrPort, 0, 0, FIN, [])
  }

  /** Chunks as the segments that carry them. */
  function DataSegments(c: Client, chunks: seq<Chunk>): seq<Segment> {
    seq(|chunks|, i requires 0 <= i < |chunks| => ToSegment(chunks[i], c.port, c.svrPort))
  }

  /** The server's own FINACK closes the client exactly when the server's port number happens to
      equal its node ID; otherwise a disconnect can only time out. */
  lemma FinAckClosesIff(c: Client, src: int, seg: Segment)
    requires c.state == FinWait && seg.kind == FINACK && FromServer(c, src, seg)
    ensures ClientOnSegment(c, src, seg).state == ClientClosed <==> c.svrPort == c.svrNode
    ensures c.svrPort != c.svrNode ==> ClientOnSegment(c, src, seg) == c
  {
  }

  // ---------------------------------------------------------------- server

  datatype ServerState = ServerClosed | Listening | ServerConnected | CloseWait

  datatype Server = Server(state: ServerState, port: int, clientNode: int, clientPort: int, recv: Receiver)

  predicate FromClient(s: Server, src: int, seg: Segment) {
    s.clientPort == seg.srcPort && s.clientNode == src
  }

  /** What a SYN does once the client is known; nothing else touches the receiver here. */
  function AfterControl(s: Server, seg: Segment): Server {
    if seg.kind == SYN then s.(recv := s.recv.(expected := seg.seqNum)) else s
  }

  function ReplyTo(s: Server, kind: Kind, ackNum: nat): Segment {
    Segment(s.port, s.clientPort, 0, ackNum, kind, [])
  }

  function ControlReply(s: Server, seg: Segment): Option<Segment> {
    if seg.kind == SYN then Some(ReplyTo(s, SYNACK, 0))
    else if seg.kind == FIN then Some(ReplyTo(s, FINACK, 0))
    else None
  }

  function ChunkOf(seg: Segment): Chunk {
    Chunk(seg.seqNum, seg.data)
  }

  function ServerOnSegment(s: Server, src: int, seg: Segment): Server {
    match s.state
    case Listening =>
      AfterControl(s.(clientNode := src, clientPort := seg.srcPort), seg).(state := ServerConnected)
    case ServerConnected =>
      if !FromClient(s, src, seg) then s
      else if seg.kind == DATA then s.(recv := AfterData(s.recv, ChunkOf(seg)))
      else if seg.kind == FIN then s.(state := CloseWait)
      else AfterControl(s, seg)
    case CloseWait => s
    case ServerClosed => s
  }

  function ServerReply(s: Server, src: int, seg: Segment): Option<Segment> {
    match s.state
    case Listening => ControlReply(s.(clientNode := src, clientPort := seg.srcPort), seg)
    case ServerConnected =>
      if !FromClient(s, src, seg) then None
      else if seg.kind == DATA then
        if Refused(s.recv, ChunkOf(seg)) then None
        else Some(ReplyTo(s, DATAACK, AfterData(s.recv, ChunkOf(seg)).expected))
      else ControlReply(s, seg)
    case CloseWait => if seg.kind == FIN then ControlReply(s, seg) else None
    case ServerClosed => None
  }

  // ---------------------------------------------------------------- whom the two ends listen to

  /** The segment does not come from the node and port the client is connecting or connected to. */
  predicate FromOtherServer(c: Client, src: int, seg: Segment) {
    src != c.svrNode || seg.srcPort != c.svrPort
  }

  /** What can move a client at all: an acknowledgement or a SYNACK from its server's node and port, and,
      while it waits for one, a FINACK from that port of the node whose ID is the port number. */
  lemma ClientMovedBy(c: Client, src: int, seg: Segment)
    requires ClientOnSegment(c, src, seg) != c
    ensures c.state != ClientClosed
    ensures c.state == ClientConnected ==> src == c.svrNode && seg.srcPort == c.svrPort && seg.kind == DATAACK
    ensures c.state == SynSent ==> src == c.svrNode && seg.srcPort == c.svrPort && seg.kind == SYNACK
    ensures c.state == FinWait ==> src == c.svrPort && seg.srcPort == c.svrPort && seg.kind == FINACK
  {
  }

  /** A stranger's segment leaves a client as it is, and is not heeded, unless it is waiting to close and
      the stranger passes the test of the port against the node. */
  lemma ClientIgnoresStrangersIff(c: Client, src: int, seg: Segment)
    requires FromOtherServer(c, src, seg)
    ensures !IsHeededAck(c, src, seg)
    ensures ClientOnSegment(c, src, seg) == c <==>
            !(c.state == FinWait && seg.kind == FINACK && src == c.svrPort && seg.srcPort == c.svrPort)
  {
  }

  /** A client that is connecting is connected by its server's SYNACK, one that is connected heeds its
      server's acknowledgements from its head on. */
  lemma ClientMoves(c: Client, src: int, seg: Segment)
    requires src == c.svrNode && seg.srcPort == c.svrPort
    ensures c.state == SynSent && seg.kind == SYNACK ==> ClientOnSegment(c, src, seg) == c.(state := ClientConnected)
    ensures c.state == ClientConnected && seg.kind == DATAACK
            && c.buf.chunks != [] && c.buf.chunks[0].seqNum <= seg.ackNum ==>
              ClientOnSegment(c, src, seg) == c.(buf := AfterAck(c.buf, seg.ackNum))
  {
  }

  /** The segment does not come from the node and port the server has on record. */
  predicate FromOtherClient(s: Server, src: int, seg: Segment) {
    src != s.clientNode || seg.srcPort != s.clientPort
  }

  /** A stranger's segment moves a server exactly when that is still listening, and then it is taken for the
      client; otherwise the one answer it can draw is that to a FIN in the close wait. */
  lemma ServerIgnoresStrangersIff(s: Server, src: int, seg: Segment)
    requires FromOtherClient(s, src, seg)
    ensures ServerOnSegment(s, src, seg) == s <==> s.state != Listening
    ensures s.state == Listening ==>
              var s' := ServerOnSegment(s, src, seg);
              s'.state == ServerConnected && s'.clientNode == src && s'.clientPort == seg.srcPort
    ensures s.state != Listening ==> (ServerReply(s, src, seg).Some? <==> s.state == CloseWait && seg.kind == FIN)
  {
  }

  /** The first segment to reach a listening server makes its sender the client, whatever its kind. */
  lemma FirstHeard(s: Server, src: int, seg: Segment)
    requires s.state == Listening
    ensures var s' := ServerOnSegment(s, src, seg);
            && s'.state == ServerConnected && s'.clientNode == src && s'.clientPort == seg.srcPort
            && s'.port == s.port && s'.recv.buf == s.recv.buf
            && s'.recv.expected == if seg.kind == SYN then seg.seqNum else s.recv.expected
  {
  }

  /** After a FIN nothing changes a server but time. */
  lemma ClosingServerDeaf(s: Server, src: int, seg: Segment)
    requires s.state == CloseWait || s.state == ServerClosed
    ensures ServerOnSegment(s, src, seg) == s
  {
  }

  /** A connected server's reaction to its client: a FIN starts the close wait, a SYN sets the expected number,
      data goes to the receiver, and the kinds that only servers send do nothing. */
  lemma ConnectedServerMoves(s: Server, seg: Segment)
    requires s.state == ServerConnected && seg.srcPort == s.clientPort
    ensures var s' := ServerOnSegment(s, s.clientNode, seg);
            && s'.clientNode == s.clientNode && s'.clientPort == s.clientPort && s'.port == s.port
            && (s'.state == if seg.kind == FIN then CloseWait else ServerConnected)
            && (seg.kind == SYN ==> s'.recv == Receiver(seg.seqNum, s.recv.buf))
            && (seg.kind == DATA && seg.seqNum == s.recv.expected && |s.recv.buf| + |seg.data| < 1000000 ==>
                  s'.recv == Receiver(seg.seqNum + |seg.data|, s.recv.buf + seg.data))
            && (seg.kind == DATA && (seg.seqNum != s.recv.expected || 1000000 <= |s.recv.buf| + |seg.data|) ==>
                  s'.recv == s.recv)
            && (seg.kind !in {SYN, DATA} ==> s'.recv == s.recv)
  {
  }

  /** Which segments a server answers, and how: every SYN its client sends until it closes, every FIN from the
      first segment to the end of the close wait, and all data but what is due and does not fit. The answer
      goes to the client on record and acknowledges the number then expected. */
  lemma AnswersIff(s: Server, src: int, seg: Segment)
    ensures var first := s.state == Listening;
            var heard := s.state == ServerConnected && src == s.clientNode && seg.srcPort == s.clientPort;
            var due := seg.seqNum == s.recv.expected;
            var full := 1000000 <= |s.recv.buf| + |seg.data|;
            var client := if first then seg.srcPort else s.clientPort;
            var end := seg.seqNum + |seg.data|;
            ServerReply(s, src, seg) ==
              if (first || heard) && seg.kind == SYN then Some(Segment(s.port, client, 0, 0, SYNACK, []))
              else if (first || heard || s.state == CloseWait) && seg.kind == FIN then
                Some(Segment(s.port, client, 0, 0, FINACK, []))
              else if heard && seg.kind == DATA && !(due && full) then
                Some(Segment(s.port, client, 0, if due then end else s.recv.expected, DATAACK, []))
              else None
  {
  }
}
