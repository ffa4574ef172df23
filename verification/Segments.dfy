/** Segments and how a buffer of application data is cut into them. */
module Segments {
  import opened Sequences

  newtype byte = b: int | 0 <= b < 256

  /** Largest payload of a segment. */
  const MAX_SEG_LEN := 1464
  /** Most segments sent and not yet acknowledged. */
  const GBN_WINDOW := 10
  /** Size the receive buffer is meant to have. */
  const RECEIVE_BUF_SIZE := 1000000

  datatype Kind = SYN | SYNACK | FIN | FINACK | DATA | DATAACK

  datatype Segment = Segment(srcPort: int, destPort: int, seqNum: nat, ackNum: nat, kind: Kind, data: seq<byte>)

  /** A payload with its place in the byte stream. */
  datatype Chunk = Chunk(seqNum: nat, data: seq<byte>)

  function ToSegment(c: Chunk, srcPort: int, destPort: int): Segment {
    Segment(srcPort, destPort, c.seqNum, 0, DATA, c.data)
  }

  /** Payload `i` of `all`, placed after everything before it. */
  function ChunkAt(all: seq<seq<byte>>, i: nat): Chunk
    requires i < |all|
  {
    Chunk(Offset(all, i), all[i])
  }

  /** How many bytes come before payload `i`. */
  function Offset(all: seq<seq<byte>>, i: nat): nat
    requires i <= |all|
  {
    |Flatten(all[..i])|
  }

  /** Payloads as the client may queue them: never empty, never longer than a segment. */
  ghost predicate Payloads(all: seq<seq<byte>>) {
    forall i :: 0 <= i < |all| ==> 1 <= |all[i]| <= MAX_SEG_LEN
  }

  lemma OffsetStep(all: seq<seq<byte>>, i: nat)
    requires i < |all|
    ensures Flatten(all[..i + 1]) == Flatten(all[..i]) + all[i]
    ensures Offset(all, i + 1) == Offset(all, i) + |all[i]|
  {
    assert all[..i + 1][..i] == all[..i];
  }

  /** Boundaries of nonempty payloads are strictly increasing. */
  lemma {:induction false} OffsetMonotone(all: seq<seq<byte>>, i: nat, j: nat)
    requires Payloads(all) && i <= j <= |all|
    ensures Offset(all, i) + (j - i) <= Offset(all, j)
  {
    if i < j {
      OffsetMonotone(all, i, j - 1);
      OffsetStep(all, j - 1);
    }
  }

  lemma OffsetInjective(all: seq<seq<byte>>, i: nat, j: nat)
    requires Payloads(all) && i <= |all| && j <= |all| && Offset(all, i) == Offset(all, j)
    ensures i == j
  {
    if i < j {
      OffsetMonotone(all, i, j);
    } else {
      OffsetMonotone(all, j, i);
    }
  }

  lemma OffsetExtend(all: seq<seq<byte>>, p: seq<byte>, i: nat)
    requires i <= |all|
    ensures Offset(all + [p], i) == Offset(all, i)
    ensures Flatten((all + [p])[..i]) == Flatten(all[..i])
    ensures i < |all| ==> ChunkAt(all + [p], i) == ChunkAt(all, i)
  {
    assert (all + [p])[..i] == all[..i];
  }

  // ---------------------------------------------------------------- segmentation

  /** The payloads the send call queues: every full-length piece of the data, and nothing else. */
  function FullPieces(data: seq<byte>): seq<seq<byte>> {
    seq(|data| / MAX_SEG_LEN, i requires 0 <= i < |data| / MAX_SEG_LEN =>
      data[i * MAX_SEG_LEN..(i + 1) * MAX_SEG_LEN])
  }

  /** The payloads it is meant to queue: the remainder too, unless that is empty. */
  function AllPieces(data: seq<byte>): seq<seq<byte>> {
    var rest := data[|data| / MAX_SEG_LEN * MAX_SEG_LEN..];
    if rest == [] then FullPieces(data) else FullPieces(data) + [rest]
  }

  lemma {:induction false} FullPiecesPrefix(data: seq<byte>, k: nat)
    requires k <= |FullPieces(data)|
    ensures Flatten(FullPieces(data)[..k]) == data[..k * MAX_SEG_LEN]
  {
    if k > 0 {
      FullPiecesPrefix(data, k - 1);
      assert FullPieces(data)[..k][..k - 1] == FullPieces(data)[..k - 1];
      assert data[..(k - 1) * MAX_SEG_LEN] + data[(k - 1) * MAX_SEG_LEN..k * MAX_SEG_LEN] == data[..k * MAX_SEG_LEN];
    }
  }

  /** What is queued is the data cut off at the last full segment, so it is the whole data exactly
      when the length is a multiple of the segment length. */
  lemma QueuedIsTruncated(data: seq<byte>)
    ensures Payloads(FullPieces(data))
    ensures Flatten(FullPieces(data)) == data[..|data| - |data| % MAX_SEG_LEN]
    ensures Flatten(FullPieces(data)) == data <==> |data| % MAX_SEG_LEN == 0
    ensures FullPieces(data) == AllPieces(data) <==> |data| % MAX_SEG_LEN == 0
  {
    var k := |FullPieces(data)|;
    FullPiecesPrefix(data, k);
    assert FullPieces(data)[..k] == FullPieces(data);
    assert k * MAX_SEG_LEN == |data| - |data| % MAX_SEG_LEN;
  }

  /** The intended pieces make up the data, each of them 1 to 1464 bytes long. */
  lemma AllPiecesConcat(data: seq<byte>)
    ensures Flatten(AllPieces(data)) == data && Payloads(AllPieces(data))
    ensures |AllPieces(data)| == (|data| + MAX_SEG_LEN - 1) / MAX_SEG_LEN
  {
    QueuedIsTruncated(data);
    var rest := data[|data| / MAX_SEG_LEN * MAX_SEG_LEN..];
    if rest != [] {
      FlattenSnoc(FullPieces(data), rest);
    }
  }

  /** The shortest message that loses data: one byte is never queued at all. */
  lemma OneByteNotQueued(b: byte)
    ensures FullPieces([b]) == [] && Flatten(FullPieces([b])) != [b]
  {
    QueuedIsTruncated([b]);
  }
}
