/** When a connection's own segments get through the framing below it. */
module SegmentsOnWire {
  import opened Segments
  import opened Framing
  import opened Wire
  import opened Connection
  import opened Endpoints
  import G = GoBackN

  /** A number whose bytes do not contain `!#`, and whose last byte is too small to begin one. */
  predicate CleanNumber(n: int) {
    0 <= n < 0x2100_0000 && !StopIn32(n)
  }

  ghost predicate CleanPeers(p: Peers) {
    CleanNumber(p.clientNode) && CleanNumber(p.clientPort) && CleanNumber(p.serverNode) && CleanNumber(p.serverPort)
  }

  /** No payload contains `!#`, and no payload ends at a place whose number does. */
  ghost predicate CleanStream(all: seq<seq<byte>>) {
    && (forall i :: 0 <= i < |all| ==> !HasStop(all[i]))
    && (forall j: nat :: j <= |all| ==> CleanNumber(Offset(all, j)))
  }

  lemma CleanSegment(node: int, seg: Segment)
    requires CleanNumber(node) && CleanNumber(seg.srcPort) && CleanNumber(seg.destPort)
    requires CleanNumber(seg.seqNum) && CleanNumber(seg.ackNum)
    requires |seg.data| <= MAX_SEG_LEN && !HasStop(seg.data)
    ensures Encodable(Addressed(node, seg)) && !HasStop(Encode(Addressed(node, seg)))
  {
    StopIff(Addressed(node, seg));
  }

  lemma DataSegmentClean(g: G.State, c: Chunk)
    requires G.Reachable(g) && c in g.data && CleanStream(g.all)
    ensures CleanNumber(c.seqNum) && |c.data| <= MAX_SEG_LEN && !HasStop(c.data)
  {
    G.ReachableInv(g);
    var i :| 0 <= i < |g.sentOnce| && g.sentOnce[i] == c;
    assert c == ChunkAt(g.all, i);
  }

  lemma AckClean(g: G.State, n: nat)
    requires G.Reachable(g) && n in g.acks && CleanStream(g.all)
    ensures CleanNumber(n)
  {
    G.Sandwich(g);
    assert G.Boundary(g.all, |g.all|, n);
    var j: nat :| j <= |g.all| && n == Offset(g.all, j);
  }

  /** All segments under way in a connection between clean peers, over a clean stream, get through the
      framing, whichever node ID is in front of them. */
  lemma ConnectionClean(p: Peers, s0: Sys, acts: seq<Action>, s: Sys, node: int, seg: Segment)
    requires Initial(p, s0) && Legal(p, s0, acts) && s == Exec(p, s0, acts)
    requires CleanPeers(p) && CleanStream(s.all) && CleanNumber(node)
    requires seg in s.toServer || seg in s.toClient
    ensures Encodable(Addressed(node, seg)) && !HasStop(Encode(Addressed(node, seg)))
  {
    var g := RunRefines(p, s0, acts);
    if seg in s.toServer {
      assert ToServerSegment(p, seg);
      if seg.kind == DATA {
        DataSegmentClean(g, ChunkOf(seg));
      }
    } else {
      assert ToClientSegment(p, seg);
      if seg.kind == DATAACK {
        AckClean(g, seg.ackNum);
      }
    }
    CleanSegment(node, seg);
  }

  /** The channel to the server as the bytes that carry it. */
  function Carried(q: seq<Segment>, node: int): seq<Addressed> {
    seq(|q|, i requires 0 <= i < |q| => Addressed(node, q[i]))
  }

  /** So the framed stream is the lossy channel the connection is proved over: what the receiving
      process reads of the segments under way is exactly those the loss test keeps, in order. */
  lemma ChannelCarried(p: Peers, s0: Sys, acts: seq<Action>, s: Sys, lost: nat -> bool, k: nat)
    requires Initial(p, s0) && Legal(p, s0, acts) && s == Exec(p, s0, acts)
    requires CleanPeers(p) && CleanStream(s.all)
    ensures var xs := Carried(s.toServer, p.clientNode);
            Clean(xs) && Arrives(xs, lost, k)
    ensures var xs := Carried(s.toClient, p.serverNode);
            Clean(xs) && Arrives(xs, lost, k)
  {
    CarriedClean(p, s0, acts, s, s.toServer, p.clientNode);
    CarriedClean(p, s0, acts, s, s.toClient, p.serverNode);
    SegmentChannelIsLossyFifo(Carried(s.toServer, p.clientNode), lost, k);
    SegmentChannelIsLossyFifo(Carried(s.toClient, p.serverNode), lost, k);
  }

  lemma CarriedClean(p: Peers, s0: Sys, acts: seq<Action>, s: Sys, q: seq<Segment>, node: int)
    requires Initial(p, s0) && Legal(p, s0, acts) && s == Exec(p, s0, acts)
    requires CleanPeers(p) && CleanStream(s.all) && CleanNumber(node)
    requires q == s.toServer || q == s.toClient
    ensures Clean(Carried(q, node))
  {
    forall a | a in Carried(q, node)
      ensures Encodable(a) && !HasStop(Encode(a))
    {
      ConnectionClean(p, s0, acts, s, node, a.seg);
    }
  }
}
