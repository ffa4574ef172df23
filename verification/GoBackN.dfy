/** The data phase of a connection over channels that may lose, repeat and reorder at will:
    whatever was once sent may arrive at any later time, any number of times, or never. */
module GoBackN {
  import opened Sequences
  import opened Segments
  import opened SendBuffer
  import opened ReceiveBuffer

  /** Client buffer, server receiver, everything ever put on either channel; and four records of the
      past: payloads queued, chunks sent for the first time, payloads accepted, bytes read out. */
  datatype State = State(
    buf: SendBuf, recv: Receiver, data: set<Chunk>, acks: set<nat>,
    all: seq<seq<byte>>, sentOnce: seq<Chunk>, accepted: seq<seq<byte>>, readOut: seq<byte>)

  datatype Action =
    | Queue(payload: seq<byte>)
    | Send
    | Timeout
    | DeliverData(c: Chunk)
    | DeliverAck(ack: nat)
    | Read(length: nat)

  const INIT := State(EMPTY, Receiver(0, []), {}, {}, [], [], [], [])

  /** The counter denotes a prefix of the buffer, so walking that many chunks is defined. */
  predicate CounterDefined(s: State) {
    0 <= s.buf.unAcked <= |s.buf.chunks|
  }

  predicate Enabled(s: State, a: Action) {
    match a
    case Queue(p) => 1 <= |p| <= MAX_SEG_LEN
    case Send => CounterDefined(s)
    case Timeout => CounterDefined(s)
    case DeliverData(c) => c in s.data
    case DeliverAck(n) => n in s.acks
    case Read(length) => length <= |s.recv.buf|
  }

  /** The client looks at an acknowledgement only if it reaches the head of a nonempty buffer. */
  predicate Heeds(b: SendBuf, ack: nat) {
    b.chunks != [] && b.chunks[0].seqNum <= ack
  }

  function Apply(s: State, a: Action): State
    requires Enabled(s, a)
  {
    match a
    case Queue(p) => s.(buf := Append(s.buf, p), all := s.all + [p])
    case Send =>
      s.(buf := AfterSend(s.buf),
         data := s.data + (set c | c in Transmitted(s.buf)),
         sentOnce := s.sentOnce + Transmitted(s.buf))
    case Timeout => s.(data := s.data + (set c | c in Resent(s.buf)))
    case DeliverData(c) =>
      var r := AfterData(s.recv, c);
      s.(recv := r,
         acks := if Refused(s.recv, c) then s.acks else s.acks + {r.expected},
         accepted := if Accepts(s.recv, c) then s.accepted + [c.data] else s.accepted)
    case DeliverAck(n) => if Heeds(s.buf, n) then s.(buf := AfterAck(s.buf, n)) else s
    case Read(length) =>
      s.(recv := AfterRead(s.recv, length), readOut := s.readOut + s.recv.buf[..length])
  }

  ghost predicate Legal(s: State, acts: seq<Action>)
    decreases |acts|, 0
  {
    acts == [] ||
    (Legal(s, acts[..|acts| - 1]) && Enabled(Exec(s, acts[..|acts| - 1]), acts[|acts| - 1]))
  }

  ghost function Exec(s: State, acts: seq<Action>): State
    requires Legal(s, acts)
    decreases |acts|, 1
  {
    if acts == [] then s else Apply(Exec(s, acts[..|acts| - 1]), acts[|acts| - 1])
  }

  // ---------------------------------------------------------------- invariant

  /** `ack` is the boundary after one of the first `limit` payloads, or the start of the stream. */
  ghost predicate Boundary(all: seq<seq<byte>>, limit: nat, ack: nat)
    requires limit <= |all|
  {
    exists j: nat :: j <= limit && ack == Offset(all, j)
  }

  /** The buffer holds what is not acknowledged; what has been sent is the start of the stream. */
  ghost predicate SenderInv(b: SendBuf, all: seq<seq<byte>>, sentOnce: seq<Chunk>) {
    && b.unAcked <= |sentOnce| <= |all|
    && Holds(b, all, |sentOnce| - b.unAcked)
    && (forall i :: 0 <= i < |sentOnce| ==> sentOnce[i] == ChunkAt(all, i))
  }

  /** What has been accepted is the start of the stream; what has been read and what is buffered add up to it. */
  ghost predicate ReceiverInv(r: Receiver, all: seq<seq<byte>>, accepted: seq<seq<byte>>, readOut: seq<byte>) {
    && accepted <= all
    && r.expected == Offset(all, |accepted|)
    && readOut + r.buf == Flatten(accepted)
    && |r.buf| < RECEIVE_BUF_SIZE
  }

  ghost predicate DataInv(data: set<Chunk>, sentOnce: seq<Chunk>) {
    forall c :: c in data ==> c in sentOnce
  }

  ghost predicate AcksInv(acks: set<nat>, all: seq<seq<byte>>, limit: nat)
    requires limit <= |all|
  {
    forall n :: n in acks ==> Boundary(all, limit, n)
  }

  ghost predicate Inv(s: State) {
    && SenderInv(s.buf, s.all, s.sentOnce)
    && ReceiverInv(s.recv, s.all, s.accepted, s.readOut)
    && |s.sentOnce| - s.buf.unAcked <= |s.accepted| <= |s.sentOnce|
    && DataInv(s.data, s.sentOnce)
    && AcksInv(s.acks, s.all, |s.accepted|)
  }

  lemma InitInv()
    ensures Inv(INIT)
  {
  }

  lemma QueueSender(b: SendBuf, all: seq<seq<byte>>, sentOnce: seq<Chunk>, p: seq<byte>)
    requires SenderInv(b, all, sentOnce) && 1 <= |p| <= MAX_SEG_LEN
    ensures SenderInv(Append(b, p), all + [p], sentOnce)
  {
    AppendHolds(b, all, |sentOnce| - b.unAcked, p);
    forall i | 0 <= i < |sentOnce|
      ensures sentOnce[i] == ChunkAt(all + [p], i)
    {
      OffsetExtend(all, p, i);
    }
  }

  lemma QueueAcks(acks: set<nat>, all: seq<seq<byte>>, limit: nat, p: seq<byte>)
    requires limit <= |all| && AcksInv(acks, all, limit)
    ensures AcksInv(acks, all + [p], limit)
  {
    forall n | n in acks
      ensures Boundary(all + [p], limit, n)
    {
      assert Boundary(all, limit, n);
      var j: nat :| j <= limit && n == Offset(all, j);
      OffsetExtend(all, p, j);
    }
  }

  lemma QueueKeepsInv(s: State, p: seq<byte>)
    requires Inv(s) && Enabled(s, Queue(p))
    ensures Inv(Apply(s, Queue(p)))
  {
    QueueSender(s.buf, s.all, s.sentOnce, p);
    QueueAcks(s.acks, s.all, |s.accepted|, p);
    OffsetExtend(s.all, p, |s.accepted|);
  }

  lemma SendSender(b: SendBuf, all: seq<seq<byte>>, sentOnce: seq<Chunk>)
    requires SenderInv(b, all, sentOnce)
    ensures SenderInv(AfterSend(b), all, sentOnce + Transmitted(b))
    ensures |sentOnce + Transmitted(b)| - AfterSend(b).unAcked == |sentOnce| - b.unAcked
  {
    var acked := |sentOnce| - b.unAcked;
    var sent := sentOnce + Transmitted(b);
    forall i | 0 <= i < |sent|
      ensures sent[i] == ChunkAt(all, i)
    {
      if |sentOnce| <= i {
        assert sent[i] == b.chunks[i - acked];
      }
    }
  }

  lemma SendKeepsInv(s: State)
    requires Inv(s)
    ensures Enabled(s, Send) && Inv(Apply(s, Send))
  {
    SendSender(s.buf, s.all, s.sentOnce);
  }

  lemma ResentWereSent(b: SendBuf, all: seq<seq<byte>>, sentOnce: seq<Chunk>, c: Chunk)
    requires SenderInv(b, all, sentOnce) && c in Resent(b)
    ensures c in sentOnce
  {
    var i :| 0 <= i < b.unAcked && b.chunks[i] == c;
    assert sentOnce[|sentOnce| - b.unAcked + i] == c;
  }

  lemma TimeoutKeepsInv(s: State)
    requires Inv(s)
    ensures Enabled(s, Timeout) && Inv(Apply(s, Timeout))
  {
    forall c | c in Resent(s.buf)
      ensures c in s.sentOnce
    {
      ResentWereSent(s.buf, s.all, s.sentOnce, c);
    }
  }

  /** A chunk that was sent and carries the expected number is exactly the next payload of the stream. */
  lemma ExpectedIsNext(b: SendBuf, all: seq<seq<byte>>, sentOnce: seq<Chunk>, e: nat, c: Chunk)
    requires SenderInv(b, all, sentOnce) && e <= |all| && c in sentOnce && c.seqNum == Offset(all, e)
    ensures e < |sentOnce| && c == ChunkAt(all, e)
  {
    var i :| 0 <= i < |sentOnce| && sentOnce[i] == c;
    OffsetInjective(all, i, e);
  }

  lemma DataReceiver(r: Receiver, all: seq<seq<byte>>, accepted: seq<seq<byte>>, readOut: seq<byte>, c: Chunk)
    requires ReceiverInv(r, all, accepted, readOut) && Accepts(r, c)
    requires |accepted| < |all| && c == ChunkAt(all, |accepted|)
    ensures ReceiverInv(AfterData(r, c), all, accepted + [c.data], readOut)
  {
    OffsetStep(all, |accepted|);
    FlattenSnoc(accepted, c.data);
    assert readOut + (r.buf + c.data) == (readOut + r.buf) + c.data;
  }

  lemma DataAcks(acks: set<nat>, all: seq<seq<byte>>, limit: nat, limit': nat)
    requires limit <= limit' <= |all| && AcksInv(acks, all, limit)
    ensures AcksInv(acks + {Offset(all, limit')}, all, limit')
  {
    forall n | n in acks + {Offset(all, limit')}
      ensures Boundary(all, limit', n)
    {
      if n in acks {
        assert Boundary(all, limit, n);
      }
    }
  }

  lemma DataKeepsInv(s: State, c: Chunk)
    requires Inv(s) && Enabled(s, DeliverData(c))
    ensures Inv(Apply(s, DeliverData(c)))
  {
    var e := |s.accepted|;
    if Accepts(s.recv, c) {
      ExpectedIsNext(s.buf, s.all, s.sentOnce, e, c);
      DataReceiver(s.recv, s.all, s.accepted, s.readOut, c);
      DataAcks(s.acks, s.all, e, e + 1);
    } else {
      DataAcks(s.acks, s.all, e, e);
    }
  }

  /** An acknowledgement in flight that is heeded is a boundary among the chunks in flight. */
  lemma HeededBoundary(s: State, n: nat) returns (j: nat)
    requires Inv(s) && n in s.acks && Heeds(s.buf, n)
    ensures |s.sentOnce| - s.buf.unAcked <= j <= |s.accepted| && n == Offset(s.all, j)
  {
    assert Boundary(s.all, |s.accepted|, n);
    j :| j <= |s.accepted| && n == Offset(s.all, j);
    HeadBelow(s.buf, s.all, s.sentOnce, j);
  }

  lemma HeadBelow(b: SendBuf, all: seq<seq<byte>>, sentOnce: seq<Chunk>, j: nat)
    requires SenderInv(b, all, sentOnce) && j <= |all| && b.chunks != [] && b.chunks[0].seqNum <= Offset(all, j)
    ensures |sentOnce| - b.unAcked <= j
  {
    var acked := |sentOnce| - b.unAcked;
    assert b.chunks[0] == ChunkAt(all, acked);
    if j < acked {
      OffsetMonotone(all, j, acked);
    }
  }

  lemma AckSender(b: SendBuf, all: seq<seq<byte>>, sentOnce: seq<Chunk>, j: nat)
    requires SenderInv(b, all, sentOnce) && |sentOnce| - b.unAcked <= j <= |sentOnce|
    ensures SenderInv(AfterAck(b, Offset(all, j)), all, sentOnce)
    ensures |sentOnce| - AfterAck(b, Offset(all, j)).unAcked == j
  {
    AckHolds(b, all, |sentOnce| - b.unAcked, j);
  }

  lemma AckKeepsInv(s: State, n: nat)
    requires Inv(s) && Enabled(s, DeliverAck(n))
    ensures Inv(Apply(s, DeliverAck(n)))
  {
    if Heeds(s.buf, n) {
      var j := HeededBoundary(s, n);
      AckSender(s.buf, s.all, s.sentOnce, j);
    }
  }

  lemma ReadKeepsInv(s: State, length: nat)
    requires Inv(s) && Enabled(s, Read(length))
    ensures Inv(Apply(s, Read(length)))
  {
    var s' := Apply(s, Read(length));
    assert s'.readOut + s'.recv.buf == s.readOut + s.recv.buf;
  }

  lemma StepKeepsInv(s: State, a: Action)
    requires Inv(s) && Enabled(s, a)
    ensures Inv(Apply(s, a))
  {
    match a
    case Queue(p) => QueueKeepsInv(s, p);
    case Send => SendKeepsInv(s);
    case Timeout => TimeoutKeepsInv(s);
    case DeliverData(c) => DataKeepsInv(s, c);
    case DeliverAck(n) => AckKeepsInv(s, n);
    case Read(length) => ReadKeepsInv(s, length);
  }

  lemma {:induction false} ExecKeepsInv(s: State, acts: seq<Action>)
    requires Inv(s) && Legal(s, acts)
    ensures Inv(Exec(s, acts))
  {
    if acts != [] {
      ExecKeepsInv(s, acts[..|acts| - 1]);
      StepKeepsInv(Exec(s, acts[..|acts| - 1]), acts[|acts| - 1]);
    }
  }

  /** Some run leads from the start to `s`. */
  ghost predicate Reachable(s: State) {
    exists acts :: Legal(INIT, acts) && Exec(INIT, acts) == s
  }

  lemma ReachableInit()
    ensures Reachable(INIT)
  {
    assert Legal(INIT, []) && Exec(INIT, []) == INIT;
  }

  lemma ReachableStep(s: State, a: Action)
    requires Reachable(s) && Enabled(s, a)
    ensures Reachable(Apply(s, a))
  {
    var acts :| Legal(INIT, acts) && Exec(INIT, acts) == s;
    assert (acts + [a])[..|acts + [a]| - 1] == acts;
    assert Legal(INIT, acts + [a]) && Exec(INIT, acts + [a]) == Apply(s, a);
  }

  lemma ReachableInv(s: State)
    requires Reachable(s)
    ensures Inv(s)
  {
    var acts :| Legal(INIT, acts) && Exec(INIT, acts) == s;
    InitInv();
    ExecKeepsInv(INIT, acts);
  }

  // ---------------------------------------------------------------- what every run guarantees

  lemma ReceivedBytes(r: Receiver, all: seq<seq<byte>>, accepted: seq<seq<byte>>, readOut: seq<byte>)
    requires ReceiverInv(r, all, accepted, readOut)
    ensures r.expected <= |Flatten(all)| && readOut + r.buf == Flatten(all)[..r.expected]
  {
    FlattenPrefix(all, |accepted|, |all|);
    assert all[..|all|] == all && all[..|accepted|] == accepted;
  }

  /** Reliability: what the application has read, followed by what waits in the buffer, is exactly
      the first `expected` bytes ever queued. */
  lemma Reliable(s: State)
    requires Reachable(s)
    ensures s.recv.expected <= |Flatten(s.all)|
    ensures s.readOut + s.recv.buf == Flatten(s.all)[..s.recv.expected]
    ensures |s.recv.buf| < RECEIVE_BUF_SIZE
  {
    ReachableInv(s);
    ReceivedBytes(s.recv, s.all, s.accepted, s.readOut);
  }

  /** The first byte not yet sent. */
  function Frontier(b: SendBuf): nat {
    if 0 <= b.unAcked < |b.chunks| then b.chunks[b.unAcked].seqNum else b.nextSeq
  }

  lemma FrontierOffset(b: SendBuf, all: seq<seq<byte>>, sentOnce: seq<Chunk>)
    requires SenderInv(b, all, sentOnce)
    ensures Frontier(b) == Offset(all, |sentOnce|)
    ensures if b.chunks != [] then b.chunks[0].seqNum == Offset(all, |sentOnce| - b.unAcked)
            else b.nextSeq == Offset(all, |sentOnce| - b.unAcked)
    ensures b.nextSeq == Offset(all, |all|) && Payloads(all)
  {
    assert all[..|all|] == all;
  }

  /** The byte the buffer's head starts at, or the next byte to be queued. */
  function Head(b: SendBuf): nat {
    if b.chunks != [] then b.chunks[0].seqNum else b.nextSeq
  }

  lemma SenderOrder(b: SendBuf, all: seq<seq<byte>>, sentOnce: seq<Chunk>, e: nat)
    requires SenderInv(b, all, sentOnce) && |sentOnce| - b.unAcked <= e <= |sentOnce|
    ensures Head(b) <= Offset(all, e) <= Frontier(b) <= b.nextSeq
  {
    FrontierOffset(b, all, sentOnce);
    OffsetMonotone(all, |sentOnce| - b.unAcked, e);
    OffsetMonotone(all, e, |sentOnce|);
    OffsetMonotone(all, |sentOnce|, |all|);
  }

  lemma AckOrder(s: State, ack: nat)
    requires Inv(s) && ack in s.acks
    ensures ack <= s.recv.expected && Boundary(s.all, |s.all|, ack)
  {
    assert Boundary(s.all, |s.accepted|, ack);
    var j: nat :| j <= |s.accepted| && ack == Offset(s.all, j);
    OffsetMonotone(s.all, j, |s.accepted|);
  }

  /** The Go-Back-N sandwich: the buffer's head never overtakes the receiver, the receiver never
      overtakes the sender, the sender never overtakes the queue; and acknowledgements under way never
      overtake the receiver and lie on segment boundaries. */
  lemma Sandwich(s: State)
    requires Reachable(s)
    ensures Head(s.buf) <= s.recv.expected <= Frontier(s.buf) <= s.buf.nextSeq
    ensures forall ack :: ack in s.acks ==> ack <= s.recv.expected && Boundary(s.all, |s.all|, ack)
  {
    ReachableInv(s);
    SenderOrder(s.buf, s.all, s.sentOnce, |s.accepted|);
    forall ack | ack in s.acks
      ensures ack <= s.recv.expected && Boundary(s.all, |s.all|, ack)
    {
      AckOrder(s, ack);
    }
  }

  ghost predicate AckIsSafe(b: SendBuf, ack: nat) {
    var b' := AfterAck(b, ack);
    && Below(b.chunks, ack) <= b.unAcked <= |b.chunks|
    && 0 <= b'.unAcked <= |b'.chunks|
    && Frontier(b') == Frontier(b) && b'.nextSeq == b.nextSeq
    && (if b'.chunks != [] then b'.chunks[0].seqNum == ack else b'.nextSeq == ack)
  }

  lemma BoundaryAckSafe(b: SendBuf, all: seq<seq<byte>>, sentOnce: seq<Chunk>, j: nat)
    requires SenderInv(b, all, sentOnce) && |sentOnce| - b.unAcked <= j <= |sentOnce|
    ensures AckIsSafe(b, Offset(all, j))
  {
    AckHolds(b, all, |sentOnce| - b.unAcked, j);
  }

  /** Acknowledgement handling is always defined: it never frees an unsent chunk, never takes the
      counter below zero, and leaves the head on the acknowledged byte. */
  lemma AckSafe(s: State, ack: nat)
    requires Reachable(s) && ack in s.acks && Heeds(s.buf, ack)
    ensures AckIsSafe(s.buf, ack)
  {
    ReachableInv(s);
    var j := HeededBoundary(s, ack);
    BoundaryAckSafe(s.buf, s.all, s.sentOnce, j);
  }

  /** Window discipline: at most ten chunks are in flight, after a send as many as possible are, a
      timeout and a send are always defined, and the chunks sent for the first time are those of the
      stream, each once and in order. */
  lemma WindowDiscipline(s: State)
    requires Reachable(s)
    ensures 0 <= s.buf.unAcked <= 10 && Enabled(s, Send) && Enabled(s, Timeout)
    ensures AfterSend(s.buf).unAcked == Min(10, |s.buf.chunks|)
    ensures |s.sentOnce| <= |s.all| && forall i :: 0 <= i < |s.sentOnce| ==> s.sentOnce[i] == ChunkAt(s.all, i)
  {
    ReachableInv(s);
  }
}
