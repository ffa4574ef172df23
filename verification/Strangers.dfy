/** A connection that is not alone: other nodes, and other ports of the same nodes, may send anything to
    either end at any time. Exactly the ones that reach a listening server do harm. */
module Strangers {
  import opened Sequences
  import opened Segments
  import opened SendBuffer
  import opened ReceiveBuffer
  import opened Endpoints
  import opened Connection
  import opened Settling
  import G = GoBackN

  /** A step of the connection itself, or a segment that reaches one of its ends from somewhere else. */
  datatype Event = Own(a: Action) | ToServer(src: int, seg: Segment) | ToClient(src: int, seg: Segment)

  predicate Possible(p: Peers, s: Sys, e: Event) {
    match e
    case Own(a) => Enabled(s, a)
    case ToServer(src, seg) => src != p.clientNode || seg.srcPort != p.clientPort
    case ToClient(src, seg) => src != p.serverNode || seg.srcPort != p.serverPort
  }

  /** A segment reaches the server. The answer goes to the client on record, whoever that is. */
  function AfterArrival(p: Peers, s: Sys, src: int, seg: Segment): Sys {
    var server := ServerOnSegment(s.server, src, seg);
    var reply := ServerReply(s.server, src, seg);
    s.(server := server,
       toClient := if reply.Some? && server.clientNode == p.clientNode && server.clientPort == p.clientPort
                   then s.toClient + [reply.value] else s.toClient)
  }

  function Step(p: Peers, s: Sys, e: Event): Sys
    requires Possible(p, s, e)
  {
    match e
    case Own(a) =>
      if a == ServerReceives then AfterArrival(p, s.(toServer := s.toServer[1..]), p.clientNode, s.toServer[0])
      else Apply(p, s, a)
    case ToServer(src, seg) => AfterArrival(p, s, src, seg)
    case ToClient(src, seg) => s.(client := ClientOnSegment(s.client, src, seg))
  }

  ghost predicate Admits(p: Peers, s: Sys, es: seq<Event>)
    decreases |es|, 0
  {
    es == [] || (Admits(p, s, es[..|es| - 1]) && Possible(p, After(p, s, es[..|es| - 1]), es[|es| - 1]))
  }

  ghost function After(p: Peers, s: Sys, es: seq<Event>): Sys
    requires Admits(p, s, es)
    decreases |es|, 1
  {
    if es == [] then s else Step(p, After(p, s, es[..|es| - 1]), es[|es| - 1])
  }

  /** No stranger has reached the server while it was listening. */
  ghost predicate Spared(p: Peers, s: Sys, es: seq<Event>)
    requires Admits(p, s, es)
  {
    es == [] ||
    (Spared(p, s, es[..|es| - 1]) &&
     (es[|es| - 1].ToServer? ==> After(p, s, es[..|es| - 1]).server.state != Listening))
  }

  // ---------------------------------------------------------------- spared connections

  /** What its own client sends a server answers into the client's channel. */
  lemma OwnArrival(p: Peers, s: Sys, g: G.State)
    requires Inv(p, s, g) && s.toServer != []
    ensures Step(p, s, Own(ServerReceives)) == Apply(p, s, ServerReceives)
  {
    assert ToServerSegment(p, s.toServer[0]);
  }

  /** At most, a stranger draws one more FINACK out of a server in its close wait. */
  lemma StrangerAtServer(p: Peers, s: Sys, g: G.State, src: int, seg: Segment)
    requires Inv(p, s, g) && Possible(p, s, ToServer(src, seg)) && s.server.state != Listening
    ensures Inv(p, AfterArrival(p, s, src, seg), g)
    ensures AfterArrival(p, s, src, seg) == s.(toClient := AfterArrival(p, s, src, seg).toClient)
  {
    if Unheard(s) {
      assert s.server.state == ServerClosed;
    } else {
      assert FromOtherClient(s.server, src, seg);
      ServerIgnoresStrangersIff(s.server, src, seg);
      AnswersIff(s.server, src, seg);
      assert forall x :: x in AfterArrival(p, s, src, seg).toClient ==> x in s.toClient || x.kind == FINACK;
    }
  }

  /** At most, a stranger passes for the server with a FINACK. */
  lemma StrangerAtClient(p: Peers, s: Sys, g: G.State, src: int, seg: Segment)
    requires Inv(p, s, g) && Possible(p, s, ToClient(src, seg))
    ensures Inv(p, Step(p, s, ToClient(src, seg)), g)
    ensures Step(p, s, ToClient(src, seg)) == s || s.client.state == FinWait
  {
    if s.client.state in {SynSent, ClientConnected} {
      ClientIgnoresStrangersIff(s.client, src, seg);
    }
  }

  lemma SparedStep(p: Peers, s: Sys, g: G.State, e: Event) returns (g': G.State)
    requires Inv(p, s, g) && Possible(p, s, e) && (e.ToServer? ==> s.server.state != Listening)
    ensures Inv(p, Step(p, s, e), g')
  {
    match e
    case Own(a) =>
      g' := StepRefines(p, s, g, a);
      if a == ServerReceives {
        OwnArrival(p, s, g);
      }
    case ToServer(src, seg) =>
      StrangerAtServer(p, s, g, src, seg);
      g' := g;
    case ToClient(src, seg) =>
      StrangerAtClient(p, s, g, src, seg);
      g' := g;
  }

  lemma {:induction false} SparedRefines(p: Peers, s0: Sys, es: seq<Event>) returns (g: G.State)
    requires Initial(p, s0) && Admits(p, s0, es) && Spared(p, s0, es)
    ensures Inv(p, After(p, s0, es), g)
  {
    if es == [] {
      g := G.INIT;
      InitialInv(p, s0);
    } else {
      g := SparedRefines(p, s0, es[..|es| - 1]);
      g := SparedStep(p, After(p, s0, es[..|es| - 1]), g, es[|es| - 1]);
    }
  }

  /** Reliability among strangers: unless one of them has reached the server while it was listening, what the
      application has read is a prefix of the bytes the client queued, and while the connection is open
      those bytes and the ones in the receive buffer are the first `expected` of them. */
  lemma StrangersReliable(p: Peers, s0: Sys, es: seq<Event>)
    requires Initial(p, s0) && Admits(p, s0, es) && Spared(p, s0, es)
    ensures var s := After(p, s0, es);
            && s.readOut <= Flatten(s.all)
            && (Open(s) ==>
                  && s.server.recv.expected <= |Flatten(s.all)|
                  && s.readOut + s.server.recv.buf == Flatten(s.all)[..s.server.recv.expected])
  {
    var g := SparedRefines(p, s0, es);
    G.Reliable(g);
    assert g.readOut <= g.readOut + g.recv.buf;
  }

  // ---------------------------------------------------------------- captured servers

  /** The server has a stranger on record, and the client cannot get through. */
  ghost predicate Captured(p: Peers, s: Sys) {
    && s.served && s.server.state != Listening
    && (s.server.clientNode != p.clientNode || s.server.clientPort != p.clientPort)
    && s.toClient == [] && s.phase in {Fresh, Connecting, Ready}
    && (s.client.state == ClientClosed ||
        (s.client.state == SynSent && s.client.svrNode == p.serverNode && s.client.svrPort == p.serverPort))
  }

  lemma CapturedStep(p: Peers, s: Sys, e: Event)
    requires Captured(p, s) && Possible(p, s, e)
    ensures Captured(p, Step(p, s, e))
  {
    match e
    case Own(a) =>
    case ToServer(src, seg) =>
    case ToClient(src, seg) =>
      if s.client.state == SynSent {
        ClientIgnoresStrangersIff(s.client, src, seg);
      }
  }

  lemma CaptureStep(p: Peers, s: Sys, g: G.State, src: int, seg: Segment)
    requires Inv(p, s, g) && Possible(p, s, ToServer(src, seg)) && s.server.state == Listening
    ensures Captured(p, AfterArrival(p, s, src, seg))
  {
    FirstHeard(s.server, src, seg);
  }

  lemma {:induction false} NotSparedCaptured(p: Peers, s0: Sys, es: seq<Event>)
    requires Initial(p, s0) && Admits(p, s0, es) && !Spared(p, s0, es)
    ensures Captured(p, After(p, s0, es))
  {
    var init, e := es[..|es| - 1], es[|es| - 1];
    var s := After(p, s0, init);
    if Spared(p, s0, init) {
      var g := SparedRefines(p, s0, init);
      CaptureStep(p, s, g, e.src, e.seg);
    } else {
      NotSparedCaptured(p, s0, init);
      CapturedStep(p, s, e);
    }
  }

  /** A server that has heard anyone has its own client on record exactly when no stranger reached it while it
      was listening; and a client that is ever connected was spared. */
  lemma RecordedIffSpared(p: Peers, s0: Sys, es: seq<Event>)
    requires Initial(p, s0) && Admits(p, s0, es)
    ensures var s := After(p, s0, es);
            && (s.served && s.server.state != Listening ==>
                  (s.server.clientNode == p.clientNode && s.server.clientPort == p.clientPort <==> Spared(p, s0, es)))
            && (s.client.state in {ClientConnected, FinWait} ==> Spared(p, s0, es))
  {
    if Spared(p, s0, es) {
      var g := SparedRefines(p, s0, es);
    } else {
      NotSparedCaptured(p, s0, es);
    }
  }
}
