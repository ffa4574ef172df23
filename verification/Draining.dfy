/** Progress of a whole connection: as long as both ends are connected, nothing that has happened to it
    keeps it from delivering every queued byte, through its own two channels and without a loss. */
module Draining {
  import opened Sequences
  import opened Segments
  import opened SendBuffer
  import opened ReceiveBuffer
  import opened Endpoints
  import opened Connection
  import opened Settling
  import G = GoBackN
  import R = Recovery

  // ---------------------------------------------------------------- a window goes through

  /** The whole window, and nothing else, is on its way to the server. */
  ghost predicate WindowUnderWay(s: Sys, g: G.State) {
    && 0 < s.client.buf.unAcked <= |s.client.buf.chunks|
    && s.toServer == DataSegments(s.client, Resent(s.client.buf))
    && forall c :: c in Resent(s.client.buf) ==> c in g.data
  }

  /** Sending, or the timer, puts it there. */
  lemma SendWindow(p: Peers, s: Sys, g: G.State) returns (acts: seq<Action>, s': Sys, g': G.State)
    requires Live(p, s, g) && s.toServer == [] && s.client.buf.chunks != []
    ensures Leads(p, s, acts, s') && Live(p, s', g') && WindowUnderWay(s', g')
    ensures s'.all == s.all && s'.server == s.server && s'.toClient == s.toClient
    ensures s'.client == s.client.(buf := s'.client.buf)
    ensures s'.client.buf.chunks == s.client.buf.chunks && s'.client.buf.nextSeq == s.client.buf.nextSeq
  {
    G.WindowDiscipline(g);
    if s.client.buf.unAcked == 0 {
      acts, s', g' := FirstSend(p, s, g);
    } else {
      acts, s', g' := SendAgain(p, s, g);
    }
  }

  lemma FirstSend(p: Peers, s: Sys, g: G.State) returns (acts: seq<Action>, s': Sys, g': G.State)
    requires Live(p, s, g) && s.toServer == [] && s.client.buf.chunks != [] && s.client.buf.unAcked == 0
    ensures Leads(p, s, acts, s') && Live(p, s', g') && WindowUnderWay(s', g')
    ensures s'.all == s.all && s'.server == s.server && s'.toClient == s.toClient
    ensures s'.client == s.client.(buf := AfterSend(s.client.buf))
  {
    SendStep(p, s, g);
    s', g' := Apply(p, s, Send), G.Apply(g, G.Send);
    acts := [Send];
    LeadsOne(p, s, Send);
    assert Transmitted(s.client.buf) == Resent(s'.client.buf);
    WindowSent(s, s');
  }

  lemma SendAgain(p: Peers, s: Sys, g: G.State) returns (acts: seq<Action>, s': Sys, g': G.State)
    requires Live(p, s, g) && s.toServer == [] && s.client.buf.chunks != []
    requires 0 < s.client.buf.unAcked <= |s.client.buf.chunks|
    ensures Leads(p, s, acts, s') && Live(p, s', g') && WindowUnderWay(s', g')
    ensures s'.all == s.all && s'.server == s.server && s'.toClient == s.toClient && s'.client == s.client
  {
    TimeoutStep(p, s, g);
    s', g' := Apply(p, s, Timeout), G.Apply(g, G.Timeout);
    acts := [Timeout];
    LeadsOne(p, s, Timeout);
    WindowSent(s, s');
  }

  /** With an empty channel before, the window's segments are all there is in it. */
  lemma WindowSent(s: Sys, s': Sys)
    requires s.toServer == [] && 0 <= s'.client.buf.unAcked <= |s'.client.buf.chunks|
    requires s'.toServer == s.toServer + DataSegments(s.client, Resent(s'.client.buf))
    requires s'.client == s.client.(buf := s'.client.buf)
    ensures s'.toServer == DataSegments(s'.client, Resent(s'.client.buf))
  {
  }

  /** `k` segments of the window have been taken, as in the data phase alone. */
  ghost predicate Taken(p: Peers, s: Sys, g: G.State, s': Sys, g': G.State, k: nat) {
    && Live(p, s', g') && R.DeliveredFirst(g, g', k)
    && s'.client == s.client && s'.all == s.all
    && k <= |s.toServer| && s'.toServer == s.toServer[k..]
    && (0 < k ==> Acknowledges(s'.toClient, g'.recv.expected))
  }

  lemma TakeOne(p: Peers, s: Sys, g: G.State, s': Sys, g': G.State, k: nat) returns (g'': G.State)
    requires Live(p, s, g) && WindowUnderWay(s, g) && R.HasRoom(g) && Taken(p, s, g, s', g', k)
    requires k < s.client.buf.unAcked
    ensures Enabled(s', ServerReceives) && Taken(p, s, g, Apply(p, s', ServerReceives), g'', k + 1)
  {
    var c := g.buf.chunks[k];
    assert s'.toServer[0] == s.toServer[k] == ToSegment(Resent(g.buf)[k], s.client.port, s.client.svrPort);
    assert ChunkOf(s'.toServer[0]) == c && c in Resent(g.buf);
    R.DeliverOne(g, g', k);
    NotRefused(g, g', k);
    g'' := ServerTakes(p, s', g');
  }

  /** A window segment that is due is accepted, and any other is not refused. */
  lemma NotRefused(g: G.State, g': G.State, k: nat)
    requires G.Reachable(g) && R.HasRoom(g) && k < g.buf.unAcked <= |g.buf.chunks| && R.DeliveredFirst(g, g', k)
    ensures !Refused(g'.recv, g.buf.chunks[k])
  {
    G.ReachableInv(g);
    G.ReachableInv(g');
    var i := |g.sentOnce| - g.buf.unAcked + k;
    assert g.buf.chunks[k] == ChunkAt(g.all, i);
    if i == |g'.accepted| {
      R.AcceptedFits(g, g', g.buf.chunks[k]);
    } else if g.buf.chunks[k].seqNum == g'.recv.expected {
      OffsetInjective(g.all, i, |g'.accepted|);
    }
  }

  lemma {:induction false} TakeWindow(p: Peers, s: Sys, g: G.State, k: nat)
    returns (acts: seq<Action>, s': Sys, g': G.State)
    requires Live(p, s, g) && WindowUnderWay(s, g) && R.HasRoom(g) && k <= s.client.buf.unAcked
    ensures Leads(p, s, acts, s') && Taken(p, s, g, s', g', k)
  {
    if k == 0 {
      acts, s', g' := [], s, g;
      LeadsNowhere(p, s);
      R.DeliveredNone(g);
      assert s.toServer[0..] == s.toServer;
    } else {
      var before, s1, g1 := TakeWindow(p, s, g, k - 1);
      g' := TakeOne(p, s, g, s1, g1, k - 1);
      s' := Apply(p, s1, ServerReceives);
      LeadsOne(p, s1, ServerReceives);
      LeadsOn(p, s, before, s1, [ServerReceives], s');
      acts := before + [ServerReceives];
    }
  }

  /** With all of the window taken, the server waits for what comes after it. */
  lemma WindowTaken(g: G.State, g': G.State)
    requires G.Reachable(g) && 0 < g.buf.unAcked <= |g.buf.chunks| && R.DeliveredFirst(g, g', g.buf.unAcked)
    ensures g'.recv.expected == G.Frontier(g.buf)
  {
    G.ReachableInv(g);
    G.ReachableInv(g');
    assert |g'.accepted| == |g'.sentOnce|;
    R.AllAccepted(g');
  }

  /** A window is not empty. */
  lemma WindowHasBytes(g: G.State)
    requires G.Reachable(g) && 0 < g.buf.unAcked
    ensures G.Head(g.buf) < G.Frontier(g.buf)
  {
    G.ReachableInv(g);
    SentAhead(g.buf, g.all, g.sentOnce);
  }

  lemma SentAhead(b: SendBuf, all: seq<seq<byte>>, sentOnce: seq<Chunk>)
    requires G.SenderInv(b, all, sentOnce) && 0 < b.unAcked
    ensures G.Head(b) < G.Frontier(b)
  {
    G.FrontierOffset(b, all, sentOnce);
    OffsetMonotone(all, |sentOnce| - b.unAcked, |sentOnce|);
  }

  /** One round: the window goes out, arrives, is acknowledged, and is gone from the buffer. */
  lemma Advance(p: Peers, s: Sys, g: G.State) returns (acts: seq<Action>, s': Sys, g': G.State)
    requires Live(p, s, g) && s.client.buf.chunks != []
    requires s.toServer == [] && s.server.recv.buf == []
    ensures Leads(p, s, acts, s') && Live(p, s', g') && Onward(s, s')
    ensures G.Head(s.client.buf) < G.Head(s'.client.buf)
  {
    var a1, s1, g1 := SendWindow(p, s, g);
    R.WindowFits(g1);
    var a2, s2, g2 := TakeWindow(p, s1, g1, s1.client.buf.unAcked);
    WindowTaken(g1, g2);
    WindowHasBytes(g1);
    var a3, s3, g3 := EmptyToClient(p, s2, g2);
    assert s2.toClient[|s2.toClient| - 1] in s2.toClient;
    LeadsOn(p, s, a1, s1, a2, s2);
    LeadsOn(p, s, a1 + a2, s2, a3, s3);
    acts, s', g' := a1 + a2 + a3, s3, g3;
  }

  // ---------------------------------------------------------------- all of them do

  /** Everything queued has been acknowledged and read. */
  predicate AllDelivered(s: Sys) {
    s.client.buf.chunks == [] && s.server.recv.buf == [] && s.readOut == Flatten(s.all)
  }

  lemma HeadBelowNext(g: G.State)
    requires G.Reachable(g)
    ensures G.Head(g.buf) <= g.buf.nextSeq
  {
    G.Sandwich(g);
  }

  lemma {:induction false} Drain(p: Peers, s: Sys, g: G.State) returns (acts: seq<Action>, s': Sys, g': G.State)
    requires Live(p, s, g)
    ensures Leads(p, s, acts, s') && Live(p, s', g') && s'.all == s.all && AllDelivered(s')
    decreases s.client.buf.nextSeq - G.Head(s.client.buf)
  {
    var a1, s1, g1 := Settle(p, s, g);
    if s1.client.buf.chunks == [] {
      R.EmptyMeansDrained(g1);
      acts, s', g' := a1, s1, g1;
    } else {
      var a2, s2, g2 := Advance(p, s1, g1);
      HeadBelowNext(g2);
      var a3, s3, g3 := Drain(p, s2, g2);
      LeadsOn(p, s, a1, s1, a2, s2);
      LeadsOn(p, s, a1 + a2, s2, a3, s3);
      acts, s', g' := a1 + a2 + a3, s3, g3;
    }
  }

  /** Progress: whatever has happened to a connection, while both ends are connected some further run,
      without any loss, hands every byte queued so far to the server's application, in order. */
  lemma ConnectionCanDrain(p: Peers, s0: Sys, acts: seq<Action>) returns (more: seq<Action>)
    requires Initial(p, s0) && Legal(p, s0, acts) && BothConnected(Exec(p, s0, acts))
    ensures Lossless(more) && Legal(p, s0, acts + more)
    ensures var s, s' := Exec(p, s0, acts), Exec(p, s0, acts + more);
            BothConnected(s') && s'.all == s.all && AllDelivered(s')
  {
    var g := RunRefines(p, s0, acts);
    FinsAlwaysLate(p, s0, acts);
    var s := Exec(p, s0, acts);
    var s', g';
    more, s', g' := Drain(p, s, g);
    Chain(p, s0, acts, more);
  }
}
