/** The server's control block: connection state, expected number and the receive buffer in place. */
module ServerTcb {
  import opened Segments
  import opened ReceiveBuffer
  import opened Endpoints

  class Tcb {
    var state: ServerState
    var svrPort: int
    var clientNode: int
    var clientPort: int
    var expectedSeqNum: nat
    var usedBufLen: nat
    const recvBuf: array<byte>
    /** The abstract value. */
    ghost var view: Server
    ghost var Repr: set<object>

    ghost predicate Valid()
      reads this, Repr
      ensures Valid() ==> this in Repr
    {
      && Repr == {this, recvBuf}
      && recvBuf.Length == RECEIVE_BUF_SIZE && usedBufLen < RECEIVE_BUF_SIZE
      && view == Server(state, svrPort, clientNode, clientPort, Receiver(expectedSeqNum, recvBuf[..usedBufLen]))
    }

    /** A closed socket; its peer and expected number are whatever the memory holds. */
    constructor (port: int)
      ensures Valid() && fresh(Repr)
      ensures view == Server(ServerClosed, port, clientNode, clientPort, Receiver(expectedSeqNum, []))
    {
      state, svrPort, usedBufLen := ServerClosed, port, 0;
      recvBuf := new byte[RECEIVE_BUF_SIZE];
      new;
      Repr := {this, recvBuf};
      view := Server(ServerClosed, port, clientNode, clientPort, Receiver(expectedSeqNum, []));
    }

    /** Copies a payload behind the bytes already there, if the guard lets it through. */
    method SaveToBuffer(seg: Segment) returns (ok: bool)
      requires Valid()
      modifies Repr
      ensures Valid() && Repr == old(Repr)
      ensures ok == Fits(old(view).recv, |seg.data|)
      ensures view == old(view).(recv := AfterSave(old(view).recv, ChunkOf(seg)))
    {
      if RECEIVE_BUF_SIZE > |seg.data| + usedBufLen {
        var i := 0;
        while i < |seg.data|
          invariant 0 <= i <= |seg.data|
          invariant recvBuf[..usedBufLen + i] == old(recvBuf[..usedBufLen]) + seg.data[..i]
          modifies recvBuf
        {
          recvBuf[usedBufLen + i] := seg.data[i];
          i := i + 1;
        }
        usedBufLen := usedBufLen + |seg.data|;
        expectedSeqNum := |seg.data| + seg.seqNum;
        view := view.(recv := Receiver(expectedSeqNum, recvBuf[..usedBufLen]));
        return true;
      }
      return false;
    }

    /** Handles a data segment; the answer carries the expected number, and a refusal has none. */
    method DataReceived(seg: Segment) returns (reply: Option<Segment>)
      requires Valid()
      modifies Repr
      ensures Valid() && Repr == old(Repr)
      ensures view == old(view).(recv := AfterData(old(view).recv, ChunkOf(seg)))
      ensures reply == if Refused(old(view).recv, ChunkOf(seg)) then None
                       else Some(ReplyTo(view, DATAACK, view.recv.expected))
    {
      if seg.seqNum == expectedSeqNum {
        var ok := SaveToBuffer(seg);
        if !ok {
          return None;
        }
      }
      return Some(Segment(svrPort, clientPort, 0, expectedSeqNum, DATAACK, []));
    }

    /** Handles a SYN or a FIN. */
    method SegmentRecv(seg: Segment) returns (reply: Option<Segment>)
      requires Valid()
      modifies this
      ensures Valid() && Repr == old(Repr)
      ensures view == AfterControl(old(view), seg) && reply == ControlReply(old(view), seg)
    {
      reply := None;
      if seg.kind == SYN {
        expectedSeqNum := seg.seqNum;
        view := view.(recv := view.recv.(expected := seg.seqNum));
        reply := Some(Segment(svrPort, clientPort, 0, 0, SYNACK, []));
      } else if seg.kind == FIN {
        reply := Some(Segment(svrPort, clientPort, 0, 0, FINACK, []));
      }
    }

    /** Reacts to a segment from node `src`. */
    method HandleSegment(src: int, seg: Segment) returns (reply: Option<Segment>)
      requires Valid()
      modifies Repr
      ensures Valid() && Repr == old(Repr)
      ensures view == ServerOnSegment(old(view), src, seg)
      ensures reply == ServerReply(old(view), src, seg)
      ensures old(view).state == ServerConnected
              && (src != old(view).clientNode || seg.srcPort != old(view).clientPort) ==>
                view == old(view) && reply == None
      ensures old(view).state in {ServerConnected, CloseWait} && src == old(view).clientNode
              && seg.srcPort == old(view).clientPort && seg.kind == FIN ==>
                reply == Some(Segment(svrPort, clientPort, 0, 0, FINACK, [])) && view.state == CloseWait
      ensures old(view).state == ServerConnected && src == old(view).clientNode
              && seg.srcPort == old(view).clientPort && seg.kind == SYN ==>
                reply == Some(Segment(svrPort, clientPort, 0, 0, SYNACK, []))
    {
      reply := None;
      match state {
        case Listening =>
          clientNode, clientPort := src, seg.srcPort;
          view := view.(clientNode := src, clientPort := seg.srcPort);
          reply := SegmentRecv(seg);
          state := ServerConnected;
          view := view.(state := ServerConnected);
        case ServerConnected =>
          if clientPort == seg.srcPort && clientNode == src {
            if seg.kind == SYN {
              reply := SegmentRecv(seg);
            } else if seg.kind == DATA {
              reply := DataReceived(seg);
            } else if seg.kind == FIN {
              state := CloseWait;
              view := view.(state := CloseWait);
              reply := SegmentRecv(seg);
            }
          }
        case CloseWait =>
          if seg.kind == FIN {
            reply := SegmentRecv(seg);
          }
        case ServerClosed =>
      }
    }

    /** What a receive call comes to when it looks at the buffer. */
    method Recv(length: nat) returns (r: RecvOutcome)
      requires Valid()
      modifies Repr
      ensures Valid() && Repr == old(Repr)
      ensures old(state) != ServerConnected ==> r == NotConnected && view == old(view)
      ensures old(state) == ServerConnected && |old(view).recv.buf| < length ==> r == StillWaiting && view == old(view)
      ensures old(state) == ServerConnected && length <= |old(view).recv.buf| ==>
                && r == Bytes(old(view).recv.buf[..length])
                && view == old(view).(recv := AfterRead(old(view).recv, length))
    {
      if state != ServerConnected {
        return NotConnected;
      }
      if length > usedBufLen {
        return StillWaiting;
      }
      r := Bytes(recvBuf[..length]);
      ghost var b := recvBuf[..usedBufLen];
      var i := 0;
      while i < usedBufLen - length
        invariant 0 <= i <= usedBufLen - length
        invariant recvBuf[..i] == b[length..length + i]
        invariant forall k :: length + i <= k < usedBufLen ==> recvBuf[k] == b[k]
        modifies recvBuf
      {
        recvBuf[i] := recvBuf[i + length];
        i := i + 1;
      }
      usedBufLen := usedBufLen - length;
      view := view.(recv := view.recv.(buf := recvBuf[..usedBufLen]));
      assert b[length..length + usedBufLen] == b[length..];
    }

    /** The end of the close-wait period. */
    method CloseWaitEnds()
      requires Valid()
      modifies this
      ensures Valid() && Repr == old(Repr)
      ensures view == old(view).(state := ServerClosed, recv := old(view).recv.(buf := []))
    {
      usedBufLen := 0;
      state := ServerClosed;
      view := view.(state := ServerClosed, recv := view.recv.(buf := []));
    }
  }

  datatype RecvOutcome = NotConnected | StillWaiting | Bytes(data: seq<byte>)
}
