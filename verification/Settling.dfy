/** Two connected ends take in everything that is under way between them. */
module Settling {
  import opened Sequences
  import opened Segments
  import opened SendBuffer
  import opened ReceiveBuffer
  import opened Endpoints
  import opened Connection
  import G = GoBackN

  // ---------------------------------------------------------------- no FIN while connected

  ghost predicate NoFin(q: seq<Segment>) {
    forall seg :: seg in q ==> seg.kind != FIN
  }

  /** No FIN has been sent before the client disconnects. */
  ghost predicate FinsLate(s: Sys) {
    s.phase in {Fresh, Connecting, Ready} ==> NoFin(s.toServer)
  }

  lemma FinsLateStep(p: Peers, s: Sys, a: Action)
    requires FinsLate(s) && Enabled(s, a)
    ensures FinsLate(Apply(p, s, a))
  {
    match a
    case LoseToServer(i) => DropKeeps(s.toServer, i);
    case _ =>
  }

  lemma {:induction false} FinsAlwaysLate(p: Peers, s0: Sys, acts: seq<Action>)
    requires Initial(p, s0) && Legal(p, s0, acts)
    ensures FinsLate(Exec(p, s0, acts))
  {
    if acts != [] {
      FinsAlwaysLate(p, s0, acts[..|acts| - 1]);
      FinsLateStep(p, Exec(p, s0, acts[..|acts| - 1]), acts[|acts| - 1]);
    }
  }

  // ---------------------------------------------------------------- single steps

  predicate BothConnected(s: Sys) {
    s.client.state == ClientConnected && s.server.state == ServerConnected
  }

  /** Both ends are connected, and the data phase `g` explains the state. */
  ghost predicate Live(p: Peers, s: Sys, g: G.State) {
    Inv(p, s, g) && BothConnected(s) && NoFin(s.toServer)
  }

  /** The same stream, the same client, or one whose buffer has only got shorter. */
  ghost predicate Onward(s: Sys, s': Sys) {
    s'.all == s.all && s'.client.buf.nextSeq == s.client.buf.nextSeq && G.Head(s.client.buf) <= G.Head(s'.client.buf)
  }

  /** The acknowledgement a segment draws. */
  ghost predicate Acknowledges(q: seq<Segment>, n: nat) {
    q != [] && q[|q| - 1].kind == DATAACK && q[|q| - 1].ackNum == n
  }

  lemma ServerTakes(p: Peers, s: Sys, g: G.State) returns (g': G.State)
    requires Live(p, s, g) && s.toServer != []
    ensures Enabled(s, ServerReceives) && Live(p, Apply(p, s, ServerReceives), g')
    ensures var s' := Apply(p, s, ServerReceives);
            s'.toServer == s.toServer[1..] && s'.client == s.client && s'.all == s.all
    ensures s.toServer[0].kind == DATA ==>
              var d := G.DeliverData(ChunkOf(s.toServer[0]));
              && G.Enabled(g, d) && g' == G.Apply(g, d)
              && (!Refused(g.recv, ChunkOf(s.toServer[0])) ==>
                    Acknowledges(Apply(p, s, ServerReceives).toClient, g'.recv.expected))
  {
    assert ToServerSegment(p, s.toServer[0]);
    if s.toServer[0].kind == SYN {
      ServerReceivesSyn(p, s, g);
      g' := g;
    } else {
      g' := ServerReceivesData(p, s, g);
    }
  }

  /** After an acknowledgement the head is at least there. */
  lemma HeadAfterAck(g: G.State, n: nat)
    requires G.Reachable(g) && n in g.acks
    ensures var b := if G.Heeds(g.buf, n) then AfterAck(g.buf, n) else g.buf;
            && b.nextSeq == g.buf.nextSeq
            && G.Head(g.buf) <= G.Head(b) && n <= G.Head(b)
  {
    G.Sandwich(g);
    if G.Heeds(g.buf, n) {
      G.AckSafe(g, n);
    }
  }

  lemma ClientTakes(p: Peers, s: Sys, g: G.State) returns (g': G.State)
    requires Live(p, s, g) && s.toClient != []
    ensures Enabled(s, ClientReceives) && Live(p, Apply(p, s, ClientReceives), g')
    ensures var s' := Apply(p, s, ClientReceives);
            && s'.toClient == s.toClient[1..] && s'.toServer == s.toServer && s'.server == s.server
            && Onward(s, s')
            && (s.toClient[0].kind == DATAACK ==> s.toClient[0].ackNum <= G.Head(s'.client.buf))
  {
    g' := ClientReceivesStep(p, s, g);
    assert ToClientSegment(p, s.toClient[0]);
    if s.toClient[0].kind == DATAACK {
      HeadAfterAck(g, s.toClient[0].ackNum);
    }
  }

  // ---------------------------------------------------------------- emptying the channels

  ghost predicate Lossless(acts: seq<Action>) {
    forall a :: a in acts ==> !a.LoseToServer? && !a.LoseToClient?
  }

  /** A lossless run leads from `s` to `s'`. */
  ghost predicate Leads(p: Peers, s: Sys, acts: seq<Action>, s': Sys) {
    Legal(p, s, acts) && Exec(p, s, acts) == s' && Lossless(acts)
  }

  lemma LeadsNowhere(p: Peers, s: Sys)
    ensures Leads(p, s, [], s)
  {
  }

  lemma LeadsOne(p: Peers, s: Sys, a: Action)
    requires Enabled(s, a) && !a.LoseToServer? && !a.LoseToClient?
    ensures Leads(p, s, [a], Apply(p, s, a))
  {
    assert [a][..0] == [];
  }

  lemma LeadsOn(p: Peers, s: Sys, u: seq<Action>, s': Sys, v: seq<Action>, s'': Sys)
    requires Leads(p, s, u, s') && Leads(p, s', v, s'')
    ensures Leads(p, s, u + v, s'')
  {
    Chain(p, s, u, v);
  }

  lemma {:induction false} EmptyToServer(p: Peers, s: Sys, g: G.State)
    returns (acts: seq<Action>, s': Sys, g': G.State)
    requires Live(p, s, g)
    ensures Leads(p, s, acts, s') && Live(p, s', g')
    ensures s'.toServer == [] && s'.client == s.client && s'.all == s.all
    decreases |s.toServer|
  {
    if s.toServer == [] {
      acts, s', g' := [], s, g;
      LeadsNowhere(p, s);
    } else {
      var g1 := ServerTakes(p, s, g);
      var s1 := Apply(p, s, ServerReceives);
      LeadsOne(p, s, ServerReceives);
      acts, s', g' := EmptyToServer(p, s1, g1);
      LeadsOn(p, s, [ServerReceives], s1, acts, s');
      acts := [ServerReceives] + acts;
    }
  }

  /** The client works through everything under way to it; its head ends up at or behind no
      acknowledgement among it. */
  lemma {:induction false} EmptyToClient(p: Peers, s: Sys, g: G.State)
    returns (acts: seq<Action>, s': Sys, g': G.State)
    requires Live(p, s, g)
    ensures Leads(p, s, acts, s') && Live(p, s', g')
    ensures s'.toClient == [] && s'.toServer == s.toServer && s'.server == s.server && Onward(s, s')
    ensures forall seg :: seg in s.toClient && seg.kind == DATAACK ==> seg.ackNum <= G.Head(s'.client.buf)
    decreases |s.toClient|
  {
    if s.toClient == [] {
      acts, s', g' := [], s, g;
      LeadsNowhere(p, s);
    } else {
      var g1 := ClientTakes(p, s, g);
      var s1 := Apply(p, s, ClientReceives);
      LeadsOne(p, s, ClientReceives);
      acts, s', g' := EmptyToClient(p, s1, g1);
      LeadsOn(p, s, [ClientReceives], s1, acts, s');
      acts := [ClientReceives] + acts;
      assert forall seg :: seg in s.toClient ==> seg == s.toClient[0] || seg in s1.toClient;
    }
  }

  lemma ReadEverything(p: Peers, s: Sys, g: G.State) returns (acts: seq<Action>, s': Sys, g': G.State)
    requires Live(p, s, g)
    ensures Leads(p, s, acts, s') && Live(p, s', g')
    ensures s'.server.recv.buf == [] && s'.client == s.client && s'.all == s.all
    ensures s'.toServer == s.toServer && s'.toClient == s.toClient
  {
    var length := |s.server.recv.buf|;
    g' := ReadStep(p, s, g, length);
    s' := Apply(p, s, Read(length));
    acts := [Read(length)];
    LeadsOne(p, s, Read(length));
  }

  /** Everything under way arrives and everything that has arrived is read. */
  lemma Settle(p: Peers, s: Sys, g: G.State) returns (acts: seq<Action>, s': Sys, g': G.State)
    requires Live(p, s, g)
    ensures Leads(p, s, acts, s') && Live(p, s', g') && Onward(s, s')
    ensures s'.toServer == [] && s'.toClient == [] && s'.server.recv.buf == []
  {
    var a1, s1, g1 := EmptyToServer(p, s, g);
    var a2, s2, g2 := EmptyToClient(p, s1, g1);
    var a3, s3, g3 := ReadEverything(p, s2, g2);
    LeadsOn(p, s, a1, s1, a2, s2);
    LeadsOn(p, s, a1 + a2, s2, a3, s3);
    acts, s', g' := a1 + a2 + a3, s3, g3;
  }
}
