/** The client's control block: the linked send buffer with its head, unsent and tail pointers. */
module ClientTcb {
  import opened Segments
  import opened SendBuffer
  import opened GoBackN
  import opened Endpoints

  /** A buffered segment. `pos` numbers the segments in the order they were queued. */
  class SegBuf {
    var seg: Segment
    var next: SegBuf?
    ghost var pos: int

    constructor (s: Segment)
      ensures seg == s && next == null
    {
      seg, next := s, null;
    }
  }

  /** Chunk `i` is nonempty and ends where the next one starts, or at the next number to be given. */
  ghost predicate Abuts(b: SendBuf, i: int)
    requires 0 <= i < |b.chunks|
  {
    && b.chunks[i].data != []
    && b.chunks[i].seqNum + |b.chunks[i].data| == (if i + 1 < |b.chunks| then b.chunks[i + 1].seqNum else b.nextSeq)
  }

  ghost predicate Contiguous(b: SendBuf) {
    forall i {:trigger Abuts(b, i)} :: 0 <= i < |b.chunks| ==> Abuts(b, i)
  }

  lemma {:induction false} ContiguousIncreasing(b: SendBuf, i: int, j: int)
    requires Contiguous(b) && 0 <= i < j < |b.chunks|
    ensures b.chunks[i].seqNum < b.chunks[j].seqNum
    decreases j - i
  {
    assert Abuts(b, i);
    if i + 1 < j {
      ContiguousIncreasing(b, i + 1, j);
    }
  }

  /** The protocol's buffers are contiguous. */
  lemma HoldsIsContiguous(b: SendBuf, all: seq<seq<byte>>, acked: nat)
    requires Holds(b, all, acked)
    ensures Contiguous(b)
  {
    forall i | 0 <= i < |b.chunks|
      ensures Abuts(b, i)
    {
      HoldsContiguous(b, all, acked, i);
    }
  }

  /** Segment `i` of a list is where it should be, holds its chunk, is addressed to the port that was the
      server's when it was queued, and points to the next. */
  ghost predicate NodeOk(nodes: seq<SegBuf>, chunks: seq<Chunk>, dests: seq<int>, first: int, port: int, i: int)
    requires 0 <= i < |nodes| == |chunks| == |dests|
    reads nodes[i]
  {
    var n := nodes[i];
    && n.pos == first + i
    && n.seg == ToSegment(chunks[i], port, dests[i])
    && n.next == if i + 1 < |nodes| then nodes[i + 1] else null
  }

  ghost predicate ListOk(nodes: seq<SegBuf>, chunks: seq<Chunk>, dests: seq<int>, first: int, port: int)
    reads nodes
  {
    && |nodes| == |chunks| == |dests|
    && forall i {:trigger NodeOk(nodes, chunks, dests, first, port, i)} :: 0 <= i < |nodes| ==>
         NodeOk(nodes, chunks, dests, first, port, i)
  }

  /** Dropping segments from the front leaves a list. */
  lemma ListSuffix(nodes: seq<SegBuf>, chunks: seq<Chunk>, dests: seq<int>, first: int, port: int, k: int)
    requires ListOk(nodes, chunks, dests, first, port) && 0 <= k <= |nodes|
    ensures ListOk(nodes[k..], chunks[k..], dests[k..], first + k, port)
  {
    var ns, cs, ds, f := nodes[k..], chunks[k..], dests[k..], first + k;
    forall i | 0 <= i < |ns|
      ensures NodeOk(ns, cs, ds, f, port, i)
    {
      assert NodeOk(nodes, chunks, dests, first, port, i + k);
    }
  }

  /** Chunks as the segments that carry them, each to its own port. */
  function SegmentsTo(port: int, dests: seq<int>, chunks: seq<Chunk>): seq<Segment>
    requires |dests| == |chunks|
  {
    seq(|chunks|, i requires 0 <= i < |chunks| => ToSegment(chunks[i], port, dests[i]))
  }

  /** If all of them are addressed to the present server, they are the protocol's data segments. */
  lemma SegmentsToServer(c: Client, dests: seq<int>, chunks: seq<Chunk>)
    requires |dests| == |chunks| && forall d :: d in dests ==> d == c.svrPort
    ensures SegmentsTo(c.port, dests, chunks) == DataSegments(c, chunks)
  {
    forall i | 0 <= i < |chunks|
      ensures SegmentsTo(c.port, dests, chunks)[i] == DataSegments(c, chunks)[i]
    {
      assert dests[i] in dests;
    }
  }

  class Tcb {
    var state: ClientState
    var clientPort: int
    var svrNode: int
    var svrPort: int
    var nextSeqNum: nat
    var sendBufHead: SegBuf?
    var sendBufunSent: SegBuf?
    var sendBufTail: SegBuf?
    /** Unsigned in the program: a value below zero stands for one above every window. */
    var unAckSegNum: int
    /** The abstract value. */
    ghost var view: Client
    /** The buffered segments, head first, and the ports they go to; `first` is the number of the head. */
    ghost var nodes: seq<SegBuf>
    ghost var dests: seq<int>
    ghost var first: int
    ghost var Repr: set<object>

    /** The fields stand for `v`: the list `ns` runs from head to tail without cycles; head and tail are
        null together; the unsent pointer is the segment right behind those in flight, or null. */
    ghost predicate StandsFor(v: Client, ns: seq<SegBuf>, ds: seq<int>, f: int)
      reads `state, `clientPort, `svrNode, `svrPort, `nextSeqNum
      reads `sendBufHead, `sendBufunSent, `sendBufTail, `unAckSegNum, ns
    {
      && v == Client(state, clientPort, svrNode, svrPort, v.buf)
      && v.buf.nextSeq == nextSeqNum && v.buf.unAcked == unAckSegNum
      && 0 <= unAckSegNum <= |ns|
      && ListOk(ns, v.buf.chunks, ds, f, clientPort)
      && sendBufHead == (if ns == [] then null else ns[0])
      && sendBufTail == (if ns == [] then null else ns[|ns| - 1])
      && sendBufunSent == (if unAckSegNum < |ns| then ns[unAckSegNum] else null)
      && Contiguous(v.buf)
    }

    ghost predicate Valid()
      reads this, Repr
      ensures Valid() ==> this in Repr
    {
      && this in Repr && (forall i :: 0 <= i < |nodes| ==> nodes[i] in Repr)
      && StandsFor(view, nodes, dests, first)
    }

    /** Takes on a new abstract value, with `more` segments added to the footprint. */
    ghost method Adopt(v: Client, ns: seq<SegBuf>, ds: seq<int>, f: int, more: set<SegBuf>)
      requires this in Repr && forall i :: 0 <= i < |ns| ==> ns[i] in Repr + more
      modifies `view, `nodes, `dests, `first, `Repr
      ensures view == v && nodes == ns && dests == ds && first == f && Repr == old(Repr) + more
      ensures Valid() <==> old(StandsFor(v, ns, ds, f))
    {
      view, nodes, dests, first, Repr := v, ns, ds, f, Repr + more;
      assert StandsFor(v, ns, ds, f) == old(StandsFor(v, ns, ds, f));
    }

    /** The facts about node `i` of a valid block. */
    lemma NodeFacts(i: int)
      requires Valid() && 0 <= i < |nodes|
      ensures |nodes| == |view.buf.chunks| == |dests|
      ensures nodes[i].pos == first + i
      ensures nodes[i].seg == ToSegment(view.buf.chunks[i], clientPort, dests[i])
      ensures nodes[i].next == if i + 1 < |nodes| then nodes[i + 1] else null
    {
      assert NodeOk(nodes, view.buf.chunks, dests, first, clientPort, i);
    }

    /** Only the last node is the tail. */
    lemma AtTail(i: int)
      requires Valid() && 0 <= i < |nodes|
      ensures nodes[i] == sendBufTail <==> i == |nodes| - 1
    {
      NodeFacts(i);
      NodeFacts(|nodes| - 1);
    }

    constructor (port: int)
      ensures Valid() && fresh(Repr)
      ensures view == Client(ClientClosed, port, -1, svrPort, EMPTY)
    {
      state, clientPort, svrNode := ClientClosed, port, -1;
      nextSeqNum, unAckSegNum := 0, 0;
      sendBufHead, sendBufunSent, sendBufTail := null, null, null;
      nodes, dests, first := [], [], 0;
      new;
      view := Client(ClientClosed, port, -1, svrPort, EMPTY);
      Repr := {this};
    }

    /** Starts connecting and returns the SYN to send; refused unless the socket is closed. Segments left
        over from a connection that was given up stay in the buffer, addressed as they were. */
    method StartConnect(node: int, port: int) returns (syn: Option<Segment>)
      requires Valid()
      modifies this
      ensures Valid() && Repr == old(Repr) && dests == old(dests)
      ensures old(state) == ClientClosed ==>
                view == old(view).(state := SynSent, svrNode := node, svrPort := port) && syn == Some(SynSegment(view))
      ensures old(state) != ClientClosed ==> view == old(view) && syn == None
    {
      if state != ClientClosed {
        return None;
      }
      svrNode, svrPort, state := node, port, SynSent;
      view := view.(state := SynSent, svrNode := node, svrPort := port);
      return Some(Segment(clientPort, svrPort, 0, 0, SYN, []));
    }

    /** Hangs a segment behind the tail, or makes it the whole list. */
    method Link(sb: SegBuf, ghost c: Chunk)
      requires Valid() && sb !in nodes && sb.next == null
      requires sb.seg == ToSegment(c, clientPort, svrPort)
      modifies `sendBufHead, `sendBufunSent, `sendBufTail, nodes, sb
      ensures ListOk(nodes + [sb], view.buf.chunks + [c], dests + [svrPort], first, clientPort)
      ensures sendBufHead == (nodes + [sb])[0] && sendBufTail == sb
      ensures sendBufunSent == (nodes + [sb])[unAckSegNum]
      ensures sb.seg == old(sb.seg)
    {
      forall i | 0 <= i < |nodes|
        ensures nodes[i] == sendBufTail <==> i == |nodes| - 1
      {
        AtTail(i);
      }
      if sendBufHead == null {
        sendBufHead, sendBufunSent, sendBufTail := sb, sb, sb;
      } else {
        sendBufTail.next := sb;
        sendBufTail := sb;
        if sendBufunSent == null {
          sendBufunSent := sb;
        }
      }
      sb.pos := first + |nodes|;
      ghost var ns, cs, ds := nodes + [sb], view.buf.chunks + [c], dests + [svrPort];
      forall i | 0 <= i < |ns|
        ensures NodeOk(ns, cs, ds, first, clientPort, i)
      {
        if i < |nodes| {
          assert old(NodeOk(nodes, view.buf.chunks, dests, first, clientPort, i));
        }
      }
    }

    /** Appends one segment at the tail and gives it the next sequence number. */
    method AppendSegment(sb: SegBuf)
      requires Valid() && sb !in Repr && sb.next == null && sb.seg.data != []
      requires sb.seg == Segment(clientPort, svrPort, sb.seg.seqNum, 0, DATA, sb.seg.data)
      modifies Repr, sb
      ensures Valid() && Repr == old(Repr) + {sb} && dests == old(dests) + [view.svrPort]
      ensures view == old(view).(buf := Append(old(view).buf, old(sb.seg.data)))
    {
      ghost var b, data := view.buf, sb.seg.data;
      AppendContiguous(b, data);
      sb.seg := sb.seg.(seqNum := nextSeqNum);
      Link(sb, Chunk(nextSeqNum, data));
      nextSeqNum := nextSeqNum + |sb.seg.data|;
      Adopt(view.(buf := Append(b, data)), nodes + [sb], dests + [svrPort], first, {sb});
    }

    /** Transmits the first unsent segment and moves the pointer on. */
    method SendOne() returns (seg: Segment)
      requires Valid() && sendBufunSent != null
      modifies `unAckSegNum, `sendBufunSent, `view
      ensures Valid() && unAckSegNum == old(unAckSegNum) + 1
      ensures view == old(view).(buf := old(view).buf.(unAcked := unAckSegNum))
      ensures old(unAckSegNum) < |nodes| == |view.buf.chunks| == |dests|
      ensures seg == ToSegment(view.buf.chunks[old(unAckSegNum)], view.port, dests[old(unAckSegNum)])
    {
      NodeFacts(unAckSegNum);
      AtTail(unAckSegNum);
      seg := sendBufunSent.seg;
      unAckSegNum := unAckSegNum + 1;
      if sendBufunSent != sendBufTail {
        sendBufunSent := sendBufunSent.next;
      } else {
        sendBufunSent := null;
      }
      view := view.(buf := view.buf.(unAcked := unAckSegNum));
      SuffixContiguous(old(view).buf, view.buf, 0);
    }

    /** Transmits unsent segments, in order, until the window is full or none is left. A counter that has
        gone below zero counts as a full window. */
    method Sending() returns (sent: seq<Segment>)
      requires Valid() || unAckSegNum < 0
      modifies this
      ensures Repr == old(Repr) && nodes == old(nodes) && dests == old(dests)
      ensures old(unAckSegNum) < 0 ==> view == old(view) && unAckSegNum == old(unAckSegNum) && sent == []
      ensures 0 <= old(unAckSegNum) ==>
                && Valid() && view == old(view).(buf := AfterSend(old(view).buf))
                && 0 <= old(view).buf.unAcked <= InFlightAfterSend(old(view).buf) <= |dests| == |view.buf.chunks|
                && sent == SegmentsTo(view.port, dests[old(view).buf.unAcked..InFlightAfterSend(old(view).buf)],
                                      Transmitted(old(view).buf))
    {
      sent := [];
      ghost var c := view;
      while 0 <= unAckSegNum < GBN_WINDOW && sendBufunSent != null
        invariant old(unAckSegNum) < 0 ==> unAckSegNum == old(unAckSegNum) && view == c && sent == []
        invariant 0 <= old(unAckSegNum) ==>
                    && c.buf.unAcked <= unAckSegNum <= |nodes| && unAckSegNum <= InFlightAfterSend(c.buf)
                    && Valid() && view == c.(buf := c.buf.(unAcked := unAckSegNum))
                    && sent == SegmentsTo(c.port, dests[c.buf.unAcked..unAckSegNum],
                                          c.buf.chunks[c.buf.unAcked..unAckSegNum])
        decreases |nodes| - unAckSegNum
        modifies `unAckSegNum, `sendBufunSent, `view
      {
        var seg := SendOne();
        sent := sent + [seg];
      }
    }

    /** Transmits every segment in flight again, in order; nothing changes. */
    method Timeout() returns (sent: seq<Segment>)
      requires Valid()
      ensures 0 <= view.buf.unAcked <= |dests| == |view.buf.chunks|
      ensures sent == SegmentsTo(view.port, dests[..view.buf.unAcked], Resent(view.buf))
    {
      sent := [];
      var buffer := sendBufHead;
      for i := 0 to unAckSegNum
        invariant buffer == if i < |nodes| then nodes[i] else null
        invariant sent == SegmentsTo(view.port, dests[..i], view.buf.chunks[..i])
      {
        NodeFacts(i);
        sent := sent + [buffer.seg];
        buffer := buffer.next;
      }
    }

    /** Moves the head past the segments below the acknowledgement, counting each of them down; the
        tail goes first if all of them do. */
    method DropBelow(ack: nat) returns (ghost k: int)
      requires Valid() && sendBufHead != null
      modifies `sendBufHead, `sendBufTail, `unAckSegNum
      ensures k == Below(view.buf.chunks, ack) && unAckSegNum == old(unAckSegNum) - k
      ensures sendBufHead == (if k < |nodes| then nodes[k] else null)
      ensures sendBufTail == (if k < |nodes| then nodes[|nodes| - 1] else null)
    {
      NodeFacts(|nodes| - 1);
      if ack > sendBufTail.seg.seqNum {
        AllBelow(view.buf, ack);
        sendBufTail := null;
      } else {
        NotAllBelow(view.buf, ack);
      }
      k := DropHeads(ack);
    }

    method DropHeads(ack: nat) returns (ghost k: int)
      requires |nodes| == |view.buf.chunks| && ListOk(nodes, view.buf.chunks, dests, first, clientPort)
      requires nodes != [] && sendBufHead == nodes[0]
      modifies `sendBufHead, `unAckSegNum
      ensures k == Below(view.buf.chunks, ack) && unAckSegNum == old(unAckSegNum) - k
      ensures sendBufHead == (if k < |nodes| then nodes[k] else null)
    {
      ghost var chunks := view.buf.chunks;
      k := 0;
      var bufferHead := sendBufHead;
      while bufferHead != null && bufferHead.seg.seqNum < ack
        invariant 0 <= k <= |nodes| && unAckSegNum == old(unAckSegNum) - k
        invariant bufferHead == sendBufHead == if k < |nodes| then nodes[k] else null
        invariant Below(chunks, ack) == k + Below(chunks[k..], ack)
        decreases |nodes| - k
        modifies `sendBufHead, `unAckSegNum
      {
        assert NodeOk(nodes, chunks, dests, first, clientPort, k);
        assert chunks[k..][1..] == chunks[k + 1..];
        sendBufHead := bufferHead.next;
        bufferHead := bufferHead.next;
        unAckSegNum := unAckSegNum - 1;
        k := k + 1;
      }
      if bufferHead != null {
        assert NodeOk(nodes, chunks, dests, first, clientPort, k);
      }
    }

    /** With `k` segments gone from the front, the rest stands for the shorter buffer exactly when the
        counter has not gone below zero. */
    lemma Dropped(b': SendBuf, k: int)
      requires view == Client(state, clientPort, svrNode, svrPort, view.buf) && view.buf.nextSeq == nextSeqNum
      requires 0 <= k <= |nodes| == |view.buf.chunks| == |dests| && 0 <= view.buf.unAcked <= |nodes|
      requires unAckSegNum == view.buf.unAcked - k
      requires b' == view.buf.(chunks := view.buf.chunks[k..], unAcked := unAckSegNum) && Contiguous(b')
      requires ListOk(nodes[k..], b'.chunks, dests[k..], first + k, clientPort)
      requires sendBufHead == (if k < |nodes| then nodes[k] else null)
      requires sendBufTail == (if k < |nodes| then nodes[|nodes| - 1] else null)
      requires sendBufunSent == (if view.buf.unAcked < |nodes| then nodes[view.buf.unAcked] else null)
      ensures StandsFor(view.(buf := b'), nodes[k..], dests[k..], first + k) <==> k <= view.buf.unAcked
    {
    }

    /** Removes the segments below the acknowledgement. The block stays in order exactly when all of them
        are in flight; otherwise the counter goes below zero and the unsent pointer is left on a segment
        that is gone. */
    method RecvAck(ack: nat)
      requires Valid() && sendBufHead != null
      modifies this
      ensures Repr == old(Repr) && view == old(view).(buf := AfterAck(old(view).buf, ack))
      ensures var k := Below(old(view).buf.chunks, ack);
              && k <= |old(nodes)| == |old(dests)| && nodes == old(nodes)[k..] && dests == old(dests)[k..]
              && sendBufHead == (if nodes == [] then null else nodes[0])
              && unAckSegNum == old(view).buf.unAcked - k && sendBufunSent == old(sendBufunSent)
      ensures Valid() <==> Below(old(view).buf.chunks, ack) <= old(view).buf.unAcked
    {
      ghost var b, b' := view.buf, AfterAck(view.buf, ack);
      SuffixContiguous(b, b', Below(b.chunks, ack));
      ListSuffix(nodes, b.chunks, dests, first, clientPort, Below(b.chunks, ack));
      ghost var k := DropBelow(ack);
      Dropped(b', k);
      Adopt(view.(buf := b'), nodes[k..], dests[k..], first + k, {});
    }

    /** Frees the whole buffer, from the head to the tail; the sequence number is left as it is. */
    method Destroy() returns (ghost freed: seq<SegBuf>)
      requires Valid()
      modifies this
      ensures Valid() && Repr == old(Repr)
      ensures view == old(view).(buf := Destroyed(old(view).buf))
      ensures freed == old(nodes)
    {
      freed := FreeAll();
      sendBufunSent, sendBufHead, sendBufTail, unAckSegNum := null, null, null, 0;
      Adopt(view.(buf := Destroyed(view.buf)), [], [], first, {});
    }

    /** Walks from the head to the tail. */
    method FreeAll() returns (ghost freed: seq<SegBuf>)
      requires Valid()
      ensures freed == nodes
    {
      freed := [];
      var bufer := sendBufHead;
      while bufer != sendBufTail
        invariant |freed| <= |nodes| && freed == nodes[..|freed|]
        invariant nodes == [] ==> bufer == null && freed == []
        invariant nodes != [] ==> |freed| < |nodes| && bufer == nodes[|freed|]
        decreases |nodes| - |freed|
      {
        NodeFacts(|freed|);
        AtTail(|freed|);
        freed := freed + [bufer];
        bufer := bufer.next;
      }
      if sendBufTail != null {
        AtTail(|freed|);
        freed := freed + [bufer];
      }
    }

    /** Queues the full-length pieces of the data, then sends what the window allows. */
    method SendData(data: seq<byte>) returns (ok: bool, sent: seq<Segment>)
      requires Valid()
      modifies Repr
      ensures Valid() && fresh(Repr - old(Repr))
      ensures ok == (old(state) == ClientConnected)
      ensures !ok ==> view == old(view) && dests == old(dests) && sent == []
      ensures ok ==>
                var b := AppendAll(old(view).buf, FullPieces(data));
                && view == old(view).(buf := AfterSend(b))
                && dests == old(dests) + Repeated(view.svrPort, |FullPieces(data)|)
                && 0 <= b.unAcked <= InFlightAfterSend(b) <= |dests| == |b.chunks|
                && sent == SegmentsTo(view.port, dests[b.unAcked..InFlightAfterSend(b)], Transmitted(b))
    {
      if state != ClientConnected {
        return false, [];
      }
      QueuePieces(data);
      sent := Sending();
      ok := true;
    }

    /** Puts one piece into a segment of its own and appends it. */
    method QueuePiece(piece: seq<byte>)
      requires Valid() && piece != []
      modifies Repr
      ensures Valid() && fresh(Repr - old(Repr)) && dests == old(dests) + [view.svrPort]
      ensures view == old(view).(buf := Append(old(view).buf, piece))
    {
      var sb := new SegBuf(Segment(clientPort, svrPort, 0, 0, DATA, piece));
      AppendSegment(sb);
    }

    /** The loop over the pieces. The last one is sized but never filled or queued. */
    method QueuePieces(data: seq<byte>)
      requires Valid()
      modifies Repr
      ensures Valid() && fresh(Repr - old(Repr))
      ensures view == old(view).(buf := AppendAll(old(view).buf, FullPieces(data)))
      ensures dests == old(dests) + Repeated(view.svrPort, |FullPieces(data)|)
    {
      var segmentNumber := |data| / MAX_SEG_LEN + 1;
      ghost var b, ds, pieces := view.buf, dests, FullPieces(data);
      var i := 0;
      while i < segmentNumber
        invariant 0 <= i <= segmentNumber
        invariant Valid() && fresh(Repr - old(Repr))
        invariant view == old(view).(buf := AppendAll(b, pieces[..if i < segmentNumber then i else i - 1]))
        invariant dests == ds + Repeated(view.svrPort, if i < segmentNumber then i else i - 1)
      {
        if i != segmentNumber - 1 {
          OnePieceMore(b, ds, pieces, i, view.svrPort);
          QueuePiece(data[i * MAX_SEG_LEN..(i + 1) * MAX_SEG_LEN]);
        }
        i := i + 1;
      }
      assert pieces[..segmentNumber - 1] == pieces;
    }

    method SetState(s: ClientState)
      requires Valid()
      modifies `state, `view
      ensures Valid() && view == old(view).(state := s)
    {
      state := s;
      view := view.(state := s);
    }

    /** Reacts to a segment from node `src`, as the protocol's client does. The block stays in order
        exactly when no heeded acknowledgement reaches beyond the segments in flight; after one that
        does, nothing is sent. */
    method HandleSegment(src: int, seg: Segment) returns (sent: seq<Segment>)
      requires Valid()
      modifies this
      ensures Repr == old(Repr)
      ensures Valid() <==> !TooFar(old(view), src, seg)
      ensures old(view).state != FinWait && (src != old(view).svrNode || seg.srcPort != old(view).svrPort) ==>
                view == old(view) && sent == []
      ensures if IsHeededAck(old(view), src, seg) && !TooFar(old(view), src, seg) then
                var c := ClientOnSegment(old(view), src, seg);
                && view == c.(buf := AfterSend(c.buf))
                && 0 <= c.buf.unAcked <= InFlightAfterSend(c.buf) <= |dests| == |c.buf.chunks|
                && sent == SegmentsTo(c.port, dests[c.buf.unAcked..InFlightAfterSend(c.buf)], Transmitted(c.buf))
              else
                view == ClientOnSegment(old(view), src, seg) && sent == []
    {
      sent := [];
      if sendBufHead != null {
        NodeFacts(0);
      }
      match state {
        case ClientConnected =>
          if svrNode == src && svrPort == seg.srcPort && seg.kind == DATAACK {
            if sendBufHead != null && seg.ackNum >= sendBufHead.seg.seqNum {
              RecvAck(seg.ackNum);
              sent := Sending();
            }
          }
        case SynSent =>
          if seg.kind == SYNACK && svrPort == seg.srcPort && svrNode == src {
            SetState(ClientConnected);
          }
        case FinWait =>
          if seg.kind == FINACK && svrPort == src && svrPort == seg.srcPort {
            SetState(ClientClosed);
          }
        case ClientClosed =>
      }
    }
  }

  function Repeated(x: int, n: nat): seq<int> {
    seq(n, i => x)
  }

  lemma OnePieceMore(b: SendBuf, dests: seq<int>, pieces: seq<seq<byte>>, i: nat, port: int)
    requires i < |pieces|
    ensures AppendAll(b, pieces[..i + 1]) == Append(AppendAll(b, pieces[..i]), pieces[i])
    ensures dests + Repeated(port, i + 1) == dests + Repeated(port, i) + [port]
  {
    assert pieces[..i + 1][..i] == pieces[..i];
  }

  lemma AppendContiguous(b: SendBuf, data: seq<byte>)
    requires Contiguous(b) && data != []
    ensures Contiguous(Append(b, data))
  {
    forall i | 0 <= i < |Append(b, data).chunks|
      ensures Abuts(Append(b, data), i)
    {
      if i < |b.chunks| {
        assert Abuts(b, i);
      }
    }
  }

  lemma SuffixContiguous(b: SendBuf, b': SendBuf, k: int)
    requires Contiguous(b) && 0 <= k <= |b.chunks| && b'.chunks == b.chunks[k..] && b'.nextSeq == b.nextSeq
    ensures Contiguous(b')
  {
    forall i | 0 <= i < |b'.chunks|
      ensures Abuts(b', i)
    {
      assert Abuts(b, i + k);
    }
  }

  lemma AllBelow(b: SendBuf, ack: nat)
    requires Contiguous(b) && b.chunks != [] && b.chunks[|b.chunks| - 1].seqNum < ack
    ensures Below(b.chunks, ack) == |b.chunks|
  {
    BelowBounds(b.chunks, ack);
    var k := Below(b.chunks, ack);
    if k < |b.chunks| - 1 {
      ContiguousIncreasing(b, k, |b.chunks| - 1);
    }
  }

  lemma NotAllBelow(b: SendBuf, ack: nat)
    requires b.chunks != [] && ack <= b.chunks[|b.chunks| - 1].seqNum
    ensures Below(b.chunks, ack) < |b.chunks|
  {
    BelowBounds(b.chunks, ack);
  }
}
