/** The client's send buffer as a value, and its five operations. */
module SendBuffer {
  import opened Sequences
  import opened Segments

  /** Buffered chunks from the head on, how many of them are sent and unacknowledged, and the
      sequence number the next byte queued will get. */
  datatype SendBuf = SendBuf(chunks: seq<Chunk>, unAcked: int, nextSeq: nat)

  const EMPTY := SendBuf([], 0, 0)

  function Min(a: int, b: int): int {
    if a < b then a else b
  }

  function Append(s: SendBuf, data: seq<byte>): SendBuf {
    SendBuf(s.chunks + [Chunk(s.nextSeq, data)], s.unAcked, s.nextSeq + |data|)
  }

  function AppendAll(s: SendBuf, pieces: seq<seq<byte>>): SendBuf {
    if pieces == [] then s
    else Append(AppendAll(s, pieces[..|pieces| - 1]), pieces[|pieces| - 1])
  }

  /** How many chunks are in flight once sending stops: the window is full or nothing is unsent. */
  function InFlightAfterSend(s: SendBuf): int {
    if s.unAcked < GBN_WINDOW then Min(GBN_WINDOW, |s.chunks|) else s.unAcked
  }

  function AfterSend(s: SendBuf): SendBuf {
    s.(unAcked := InFlightAfterSend(s))
  }

  /** The chunks a send transmits, in order. */
  function Transmitted(s: SendBuf): seq<Chunk>
    requires 0 <= s.unAcked <= |s.chunks|
  {
    s.chunks[s.unAcked..InFlightAfterSend(s)]
  }

  /** The chunks a timeout transmits again, in order. */
  function Resent(s: SendBuf): seq<Chunk>
    requires 0 <= s.unAcked <= |s.chunks|
  {
    s.chunks[..s.unAcked]
  }

  /** How many leading chunks start below the acknowledgement. */
  function Below(chunks: seq<Chunk>, ack: nat): (k: nat)
    ensures k <= |chunks|
  {
    if chunks == [] || ack <= chunks[0].seqNum then 0 else 1 + Below(chunks[1..], ack)
  }

  lemma {:induction false} BelowBounds(chunks: seq<Chunk>, ack: nat)
    ensures forall i :: 0 <= i < Below(chunks, ack) ==> chunks[i].seqNum < ack
    ensures Below(chunks, ack) < |chunks| ==> ack <= chunks[Below(chunks, ack)].seqNum
  {
    if chunks != [] && chunks[0].seqNum < ack {
      BelowBounds(chunks[1..], ack);
    }
  }

  /** Drop the chunks below the acknowledgement; the counter goes down once for each. */
  function AfterAck(s: SendBuf, ack: nat): SendBuf {
    var k := Below(s.chunks, ack);
    s.(chunks := s.chunks[k..], unAcked := s.unAcked - k)
  }

  function Destroyed(s: SendBuf): SendBuf {
    s.(chunks := [], unAcked := 0)
  }

  // ---------------------------------------------------------------- the buffer holds a stretch of the stream

  /** The buffer holds exactly payloads `acked` onwards of the stream `all`. */
  ghost predicate Holds(s: SendBuf, all: seq<seq<byte>>, acked: nat) {
    && Payloads(all)
    && acked <= |all| && |s.chunks| == |all| - acked
    && (forall i :: 0 <= i < |s.chunks| ==> s.chunks[i] == ChunkAt(all, acked + i))
    && 0 <= s.unAcked <= GBN_WINDOW && s.unAcked <= |s.chunks|
    && s.nextSeq == |Flatten(all)|
  }

  /** Neighbouring chunks are contiguous and the last one ends at the next sequence number. */
  lemma HoldsContiguous(s: SendBuf, all: seq<seq<byte>>, acked: nat, i: nat)
    requires Holds(s, all, acked) && i < |s.chunks|
    ensures s.chunks[i].seqNum + |s.chunks[i].data| ==
              if i + 1 < |s.chunks| then s.chunks[i + 1].seqNum else s.nextSeq
  {
    OffsetStep(all, acked + i);
    assert all[..|all|] == all;
  }

  lemma AppendHolds(s: SendBuf, all: seq<seq<byte>>, acked: nat, data: seq<byte>)
    requires Holds(s, all, acked) && 1 <= |data| <= MAX_SEG_LEN
    ensures Holds(Append(s, data), all + [data], acked)
  {
    var all' := all + [data];
    FlattenSnoc(all, data);
    assert all'[..|all|] == all;
    forall i | 0 <= i < |s.chunks|
      ensures s.chunks[i] == ChunkAt(all', acked + i)
    {
      OffsetExtend(all, data, acked + i);
    }
  }

  lemma {:induction false} AppendAllHolds(s: SendBuf, all: seq<seq<byte>>, acked: nat, pieces: seq<seq<byte>>)
    requires Holds(s, all, acked) && Payloads(pieces)
    ensures Holds(AppendAll(s, pieces), all + pieces, acked)
    ensures AppendAll(s, pieces).nextSeq == s.nextSeq + |Flatten(pieces)|
  {
    if pieces == [] {
      assert all + pieces == all;
    } else {
      var init, last := pieces[..|pieces| - 1], pieces[|pieces| - 1];
      AppendAllHolds(s, all, acked, init);
      AppendHolds(AppendAll(s, init), all + init, acked, last);
      assert all + init + [last] == all + pieces;
    }
  }

  lemma SendHolds(s: SendBuf, all: seq<seq<byte>>, acked: nat)
    requires Holds(s, all, acked)
    ensures Holds(AfterSend(s), all, acked)
    ensures AfterSend(s).unAcked == Min(GBN_WINDOW, |s.chunks|)
  {
  }

  /** An acknowledgement on boundary `j` counts exactly the chunks before it. */
  lemma {:induction false} BelowBoundary(chunks: seq<Chunk>, all: seq<seq<byte>>, acked: nat, j: nat)
    requires Payloads(all) && acked <= j <= |all| && |chunks| == |all| - acked
    requires forall i :: 0 <= i < |chunks| ==> chunks[i] == ChunkAt(all, acked + i)
    ensures Below(chunks, Offset(all, j)) == j - acked
    decreases |chunks|
  {
    if acked < j {
      OffsetMonotone(all, acked, j);
      assert chunks[0] == ChunkAt(all, acked);
      forall i | 0 <= i < |chunks[1..]|
        ensures chunks[1..][i] == ChunkAt(all, acked + 1 + i)
      {
        assert chunks[1..][i] == chunks[i + 1];
      }
      BelowBoundary(chunks[1..], all, acked + 1, j);
    } else if acked < |all| {
      assert chunks[0] == ChunkAt(all, acked);
    }
  }

  /** A boundary acknowledgement of sent data removes exactly the payloads before it, keeps the rest
      and never takes the counter below zero. */
  lemma AckHolds(s: SendBuf, all: seq<seq<byte>>, acked: nat, j: nat)
    requires Holds(s, all, acked) && acked <= j <= acked + s.unAcked
    ensures var s' := AfterAck(s, Offset(all, j));
            && Holds(s', all, j)
            && Below(s.chunks, Offset(all, j)) == j - acked
            && s'.chunks == s.chunks[j - acked..] && s'.unAcked == s.unAcked - (j - acked)
            && (s'.chunks != [] ==> s'.chunks[0].seqNum == Offset(all, j))
            && (s'.chunks == [] ==> s'.nextSeq == Offset(all, j))
  {
    BelowBoundary(s.chunks, all, acked, j);
    var s' := AfterAck(s, Offset(all, j));
    assert s'.chunks == s.chunks[j - acked..];
    assert forall i :: 0 <= i < |s'.chunks| ==> s'.chunks[i] == s.chunks[j - acked + i];
    assert all[..|all|] == all;
  }
}
