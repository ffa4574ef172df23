/** The send call as a stretch of a connection's run, and what becomes of the messages. */
module Sending {
  import opened Sequences
  import opened Segments
  import opened SendBuffer
  import opened Endpoints
  import opened Connection
  import G = GoBackN

  /** The steps one send call takes: each piece appended under the lock, then one round of sending. */
  function QueueSteps(pieces: seq<seq<byte>>): seq<Action> {
    seq(|pieces|, i requires 0 <= i < |pieces| => Queue(pieces[i]))
  }

  lemma {:induction false} QueueRun(p: Peers, s: Sys, pieces: seq<seq<byte>>)
    requires s.phase == Ready && s.client.state == ClientConnected && Payloads(pieces)
    ensures Legal(p, s, QueueSteps(pieces))
    ensures Exec(p, s, QueueSteps(pieces)) ==
              s.(client := s.client.(buf := AppendAll(s.client.buf, pieces)), all := s.all + pieces)
  {
    if pieces == [] {
      assert s.all + [] == s.all;
    } else {
      var init, last := pieces[..|pieces| - 1], pieces[|pieces| - 1];
      QueueRun(p, s, init);
      assert QueueSteps(pieces)[..|pieces| - 1] == QueueSteps(init);
      assert s.all + init + [last] == s.all + pieces;
    }
  }

  lemma QueueAndSend(p: Peers, s: Sys, pieces: seq<seq<byte>>, acked: nat)
    requires s.phase == Ready && s.client.state == ClientConnected && Payloads(pieces)
    requires Holds(s.client.buf, s.all, acked)
    ensures Legal(p, s, QueueSteps(pieces) + [Send])
    ensures var s' := Exec(p, s, QueueSteps(pieces) + [Send]);
            && s'.all == s.all + pieces
            && s'.client == s.client.(buf := AfterSend(AppendAll(s.client.buf, pieces)))
            && s'.client.buf.unAcked == Min(GBN_WINDOW, |s'.client.buf.chunks|)
            && s'.client.buf.nextSeq == s.client.buf.nextSeq + |Flatten(pieces)|
  {
    QueueRun(p, s, pieces);
    AppendAllHolds(s.client.buf, s.all, acked, pieces);
    SendHolds(AppendAll(s.client.buf, pieces), s.all + pieces, acked);
    Extend(p, s, QueueSteps(pieces), Send);
  }

  /** A send call on a connected socket is this run: it queues the full pieces of the data, extends
      the stream by exactly the truncated message, and fills the window. */
  lemma SendCall(p: Peers, s0: Sys, acts: seq<Action>, s: Sys, data: seq<byte>)
    requires Initial(p, s0) && Legal(p, s0, acts) && s == Exec(p, s0, acts)
    requires s.phase == Ready && s.client.state == ClientConnected
    ensures Legal(p, s, QueueSteps(FullPieces(data)) + [Send])
    ensures var s' := Exec(p, s, QueueSteps(FullPieces(data)) + [Send]);
            && Flatten(s'.all) == Flatten(s.all) + data[..|data| - |data| % MAX_SEG_LEN]
            && s'.client.buf.nextSeq == s.client.buf.nextSeq + (|data| - |data| % MAX_SEG_LEN)
            && s'.client.buf.unAcked == Min(GBN_WINDOW, |s'.client.buf.chunks|)
  {
    var g := RunRefines(p, s0, acts);
    G.ReachableInv(g);
    QueuedIsTruncated(data);
    QueueAndSend(p, s, FullPieces(data), |g.sentOnce| - g.buf.unAcked);
    FlattenConcat(s.all, FullPieces(data));
  }

  // ---------------------------------------------------------------- several messages

  /** The payloads queued for a list of messages, one send call each. */
  function QueuedFor(ms: seq<seq<byte>>): seq<seq<byte>> {
    if ms == [] then [] else QueuedFor(ms[..|ms| - 1]) + FullPieces(ms[|ms| - 1])
  }

  lemma {:induction false} QueuedLength(ms: seq<seq<byte>>)
    ensures |Flatten(QueuedFor(ms))| <= |Flatten(ms)|
    ensures |Flatten(QueuedFor(ms))| == |Flatten(ms)| ==> forall i :: 0 <= i < |ms| ==> |ms[i]| % MAX_SEG_LEN == 0
    ensures (forall i :: 0 <= i < |ms| ==> |ms[i]| % MAX_SEG_LEN == 0) ==> Flatten(QueuedFor(ms)) == Flatten(ms)
  {
    if ms != [] {
      var init, last := ms[..|ms| - 1], ms[|ms| - 1];
      QueuedLength(init);
      QueuedIsTruncated(last);
      FlattenConcat(QueuedFor(init), FullPieces(last));
      if forall i :: 0 <= i < |ms| ==> |ms[i]| % MAX_SEG_LEN == 0 {
        assert forall i :: 0 <= i < |init| ==> init[i] == ms[i];
      }
    }
  }

  /** What is queued for a list of messages is the messages themselves exactly when the length of
      every one of them is a multiple of the segment length. */
  lemma MessagesQueuedIff(ms: seq<seq<byte>>)
    ensures Flatten(QueuedFor(ms)) == Flatten(ms) <==> forall i :: 0 <= i < |ms| ==> |ms[i]| % 1464 == 0
  {
    QueuedLength(ms);
  }

  /** End to end: if the client queued what its send calls queue for `ms`, then as long as every
      message is a multiple of the segment length, what the server's application has read is at all
      times a prefix of the messages, run together. */
  lemma MessagesArrive(p: Peers, s0: Sys, acts: seq<Action>, ms: seq<seq<byte>>)
    requires Initial(p, s0) && Legal(p, s0, acts) && Exec(p, s0, acts).all == QueuedFor(ms)
    requires forall i :: 0 <= i < |ms| ==> |ms[i]| % 1464 == 0
    ensures Exec(p, s0, acts).readOut <= Flatten(ms)
  {
    MessagesQueuedIff(ms);
    ConnectionReliable(p, s0, acts);
  }
}
