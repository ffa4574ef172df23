/** Progress: a lost window is always recovered by one good timeout, and no reachable state is stuck. */
module Recovery {
  import opened Sequences
  import opened Segments
  import opened SendBuffer
  import opened ReceiveBuffer
  import opened GoBackN

  lemma {:induction false} Chain(s: State, u: seq<Action>, v: seq<Action>)
    requires Legal(s, u) && Legal(Exec(s, u), v)
    ensures Legal(s, u + v) && Exec(s, u + v) == Exec(Exec(s, u), v)
    decreases |v|
  {
    if v == [] {
      assert u + v == u;
    } else {
      var init, last := v[..|v| - 1], v[|v| - 1];
      Chain(s, u, init);
      assert v == init + [last];
      assert u + v == (u + init) + [last];
      Snoc(s, u + init, last);
      Snoc(Exec(s, u), init, last);
    }
  }

  lemma Snoc(s: State, acts: seq<Action>, a: Action)
    requires Legal(s, acts) && Enabled(Exec(s, acts), a)
    ensures Legal(s, acts + [a]) && Exec(s, acts + [a]) == Apply(Exec(s, acts), a)
  {
    assert (acts + [a])[..|acts + [a]| - 1] == acts;
  }

  lemma One(s: State, a: Action)
    requires Enabled(s, a)
    ensures Legal(s, [a]) && Exec(s, [a]) == Apply(s, a)
  {
    assert Legal(s, []);
    Snoc(s, [], a);
    assert [] + [a] == [a];
  }

  /** The deliveries, in order, of the first `k` chunks of the window. */
  function DeliverFirst(b: SendBuf, k: nat): seq<Action>
    requires k <= |b.chunks|
  {
    seq(k, i requires 0 <= i < k => DeliverData(b.chunks[i]))
  }

  /** One good round: the timer fires, the whole window arrives in order, the last acknowledgement
      comes back, and the client sends on. */
  function GoodRound(b: SendBuf): seq<Action>
    requires 0 <= b.unAcked <= |b.chunks|
  {
    [Timeout] + DeliverFirst(b, b.unAcked) + [DeliverAck(Frontier(b)), Send]
  }

  /** The receiver can take everything in flight that it has not taken yet. */
  predicate HasRoom(s: State) {
    |s.recv.buf| + Frontier(s.buf) - s.recv.expected < RECEIVE_BUF_SIZE
  }

  /** What delivering the first `k` window chunks in order has achieved. */
  ghost predicate DeliveredFirst(s: State, s': State, k: nat) {
    && Reachable(s')
    && s'.buf == s.buf && s'.all == s.all && s'.sentOnce == s.sentOnce && s'.data == s.data
    && s'.readOut == s.readOut
    && |s'.accepted| == Max(|s.accepted|, |s.sentOnce| - s.buf.unAcked + k)
    && (0 < k ==> s'.recv.expected in s'.acks)
  }

  function Max(a: int, b: int): int {
    if a < b then b else a
  }

  lemma AcceptedFits(s: State, s': State, c: Chunk)
    requires Inv(s) && Inv(s') && HasRoom(s)
    requires s'.all == s.all && s'.sentOnce == s.sentOnce && s'.buf == s.buf && s'.readOut == s.readOut
    requires |s'.accepted| < |s'.sentOnce| && c == ChunkAt(s.all, |s'.accepted|)
    ensures Accepts(s'.recv, c)
  {
    var e := |s'.accepted|;
    FrontierOffset(s.buf, s.all, s.sentOnce);
    OffsetStep(s.all, e);
    OffsetMonotone(s.all, e + 1, |s.sentOnce|);
    ReceivedBytes(s.recv, s.all, s.accepted, s.readOut);
    ReceivedBytes(s'.recv, s'.all, s'.accepted, s'.readOut);
    assert |s.readOut| + |s.recv.buf| == s.recv.expected;
    assert |s'.readOut| + |s'.recv.buf| == s'.recv.expected;
  }

  lemma DeliverOne(s: State, s': State, k: nat)
    requires Reachable(s) && HasRoom(s) && 0 <= k < s.buf.unAcked <= |s.buf.chunks| && DeliveredFirst(s, s', k)
    requires s.buf.chunks[k] in s.data
    ensures Enabled(s', DeliverData(s.buf.chunks[k]))
    ensures DeliveredFirst(s, Apply(s', DeliverData(s.buf.chunks[k])), k + 1)
  {
    ReachableInv(s);
    ReachableInv(s');
    var c := s.buf.chunks[k];
    var i := |s.sentOnce| - s.buf.unAcked + k;
    assert c == ChunkAt(s.all, i);
    ReachableStep(s', DeliverData(c));
    if i == |s'.accepted| {
      AcceptedFits(s, s', c);
    } else if c.seqNum == s'.recv.expected {
      OffsetInjective(s.all, i, |s'.accepted|);
    }
  }

  lemma {:induction false} DeliverWindow(s: State, k: nat)
    requires Reachable(s) && HasRoom(s) && k <= s.buf.unAcked <= |s.buf.chunks|
    requires forall c :: c in Resent(s.buf) ==> c in s.data
    ensures Legal(s, DeliverFirst(s.buf, k)) && DeliveredFirst(s, Exec(s, DeliverFirst(s.buf, k)), k)
  {
    if k == 0 {
      assert DeliverFirst(s.buf, 0) == [];
      DeliveredNone(s);
    } else {
      DeliverWindow(s, k - 1);
      var acts := DeliverFirst(s.buf, k - 1);
      var c := s.buf.chunks[k - 1];
      assert DeliverFirst(s.buf, k) == acts + [DeliverData(c)];
      assert c == Resent(s.buf)[k - 1];
      DeliverOne(s, Exec(s, acts), k - 1);
      Snoc(s, acts, DeliverData(c));
    }
  }

  lemma DeliveredNone(s: State)
    requires Reachable(s)
    ensures DeliveredFirst(s, s, 0)
  {
    ReachableInv(s);
  }

  /** Bytes queued and not yet acknowledged. */
  function Outstanding(b: SendBuf): int {
    if b.chunks == [] then 0 else b.nextSeq - b.chunks[0].seqNum
  }

  /** The window went through: it is empty of its old chunks and full of new ones. */
  ghost predicate Recovered(s: State, s': State) {
    && Reachable(s')
    && s'.all == s.all && s'.readOut == s.readOut
    && s'.recv.expected == Frontier(s.buf)
    && CounterDefined(s)
    && s'.buf.chunks == s.buf.chunks[s.buf.unAcked..]
    && s'.buf.unAcked == Min(GBN_WINDOW, |s'.buf.chunks|)
    && Outstanding(s'.buf) < Outstanding(s.buf)
  }

  /** Acknowledging everything in flight leaves exactly the unsent chunks. */
  lemma AckFrontier(b: SendBuf, all: seq<seq<byte>>, sentOnce: seq<Chunk>)
    requires SenderInv(b, all, sentOnce) && 0 < b.unAcked
    ensures Heeds(b, Frontier(b))
    ensures AfterAck(b, Frontier(b)) == b.(chunks := b.chunks[b.unAcked..], unAcked := 0)
    ensures Outstanding(AfterAck(b, Frontier(b))) < Outstanding(b)
  {
    var acked := |sentOnce| - b.unAcked;
    FrontierOffset(b, all, sentOnce);
    OffsetMonotone(all, acked, |sentOnce|);
    OffsetMonotone(all, acked, |all|);
    AckHolds(b, all, acked, |sentOnce|);
  }

  /** Once everything sent is accepted, the receiver waits at the frontier. */
  lemma AllAccepted(s: State)
    requires Reachable(s) && |s.accepted| == |s.sentOnce|
    ensures s.recv.expected == Frontier(s.buf)
  {
    ReachableInv(s);
    FrontierOffset(s.buf, s.all, s.sentOnce);
  }

  lemma FrontierAck(s: State)
    requires Reachable(s) && 0 < s.buf.unAcked
    ensures CounterDefined(s) && Heeds(s.buf, Frontier(s.buf)) && |s.accepted| <= |s.sentOnce|
    ensures AfterAck(s.buf, Frontier(s.buf)) == s.buf.(chunks := s.buf.chunks[s.buf.unAcked..], unAcked := 0)
    ensures Outstanding(AfterAck(s.buf, Frontier(s.buf))) < Outstanding(s.buf)
  {
    ReachableInv(s);
    AckFrontier(s.buf, s.all, s.sentOnce);
  }

  lemma AckEmptiesWindow(s: State, s': State)
    requires Reachable(s) && 0 < s.buf.unAcked && DeliveredFirst(s, s', s.buf.unAcked)
    ensures Enabled(s', DeliverAck(Frontier(s.buf))) && CounterDefined(s)
    ensures Apply(s', DeliverAck(Frontier(s.buf))) ==
              s'.(buf := s.buf.(chunks := s.buf.chunks[s.buf.unAcked..], unAcked := 0))
    ensures s'.recv.expected == Frontier(s.buf)
    ensures Outstanding(Apply(s', DeliverAck(Frontier(s.buf))).buf) < Outstanding(s.buf)
  {
    FrontierAck(s);
    AllAccepted(s');
  }

  lemma AckAndSend(s: State, s': State)
    requires Reachable(s) && 0 < s.buf.unAcked && DeliveredFirst(s, s', s.buf.unAcked)
    ensures Legal(s', [DeliverAck(Frontier(s.buf)), Send])
    ensures Recovered(s, Exec(s', [DeliverAck(Frontier(s.buf)), Send]))
  {
    AckEmptiesWindow(s, s');
    var ack := DeliverAck(Frontier(s.buf));
    var s1 := Apply(s', ack);
    ReachableStep(s', ack);
    ReachableStep(s1, Send);
    One(s', ack);
    Snoc(s', [ack], Send);
    assert [ack] + [Send] == [ack, Send];
  }

  /** Recovery: from any reachable state with chunks in flight and room for them, one good round
      empties the window, refills it, and leaves strictly fewer bytes outstanding. */
  lemma GoodRoundRecovers(s: State)
    requires Reachable(s) && 0 < s.buf.unAcked && HasRoom(s)
    ensures CounterDefined(s)
    ensures Legal(s, GoodRound(s.buf)) && Recovered(s, Exec(s, GoodRound(s.buf)))
  {
    var b := s.buf;
    WindowDiscipline(s);
    ReachableStep(s, Timeout);
    One(s, Timeout);
    var s1 := Apply(s, Timeout);
    DeliverWindow(s1, b.unAcked);
    AckAndSend(s1, Exec(s1, DeliverFirst(b, b.unAcked)));
    Chain(s, [Timeout], DeliverFirst(b, b.unAcked));
    Chain(s, [Timeout] + DeliverFirst(b, b.unAcked), [DeliverAck(Frontier(b)), Send]);
  }

  /** Everything queued has been sent, acknowledged and read. */
  predicate Drained(s: State) {
    s.buf.chunks == [] && s.recv.buf == [] && s.readOut == Flatten(s.all)
  }

  lemma ReadAll(s: State) returns (acts: seq<Action>)
    requires Reachable(s)
    ensures Legal(s, acts) && Reachable(Exec(s, acts))
    ensures Exec(s, acts) == s.(recv := s.recv.(buf := []), readOut := s.readOut + s.recv.buf)
  {
    acts := [Read(|s.recv.buf|)];
    One(s, acts[0]);
    ReachableStep(s, acts[0]);
    assert s.recv.buf[..|s.recv.buf|] == s.recv.buf;
  }

  lemma EmptyMeansDrained(s: State)
    requires Reachable(s) && s.buf.chunks == [] && s.recv.buf == []
    ensures Drained(s)
  {
    ReachableInv(s);
    assert s.readOut + [] == s.readOut;
    assert s.accepted == s.all;
  }

  lemma {:induction false} WindowBytes(all: seq<seq<byte>>, i: nat, j: nat)
    requires Payloads(all) && i <= j <= |all|
    ensures Offset(all, j) - Offset(all, i) <= (j - i) * MAX_SEG_LEN
  {
    if i < j {
      WindowBytes(all, i, j - 1);
      OffsetStep(all, j - 1);
    }
  }

  /** With an empty receive buffer a whole window always fits. */
  lemma WindowFits(s: State)
    requires Reachable(s) && s.recv.buf == []
    ensures HasRoom(s)
  {
    ReachableInv(s);
    FrontierOffset(s.buf, s.all, s.sentOnce);
    WindowBytes(s.all, |s.accepted|, |s.sentOnce|);
  }

  /** Send, then one good round: what was buffered gets shorter. */
  lemma SendRound(s: State) returns (acts: seq<Action>)
    requires Reachable(s) && s.recv.buf == [] && s.buf.chunks != []
    ensures Legal(s, acts) && Reachable(Exec(s, acts))
    ensures Exec(s, acts).all == s.all && |Exec(s, acts).buf.chunks| < |s.buf.chunks|
  {
    WindowDiscipline(s);
    ReachableStep(s, Send);
    One(s, Send);
    var s1 := Apply(s, Send);
    WindowFits(s1);
    GoodRoundRecovers(s1);
    Chain(s, [Send], GoodRound(s1.buf));
    acts := [Send] + GoodRound(s1.buf);
  }

  /** No reachable state is stuck: from each one some further run delivers every queued byte to the
      application, in order. */
  lemma {:induction false} CanDrain(s: State) returns (acts: seq<Action>)
    requires Reachable(s)
    ensures Legal(s, acts) && Drained(Exec(s, acts)) && Exec(s, acts).all == s.all
    decreases |s.buf.chunks|
  {
    var first := ReadAll(s);
    var s1 := Exec(s, first);
    if s1.buf.chunks == [] {
      EmptyMeansDrained(s1);
      acts := first;
    } else {
      var round := SendRound(s1);
      var rest := CanDrain(Exec(s1, round));
      Chain(s1, round, rest);
      Chain(s, first, round + rest);
      acts := first + (round + rest);
    }
  }
}
