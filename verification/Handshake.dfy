/** Progress of the handshake: a client that keeps asking is connected in the end, whatever was lost. */
module Handshake {
  import opened Segments
  import opened SendBuffer
  import opened ReceiveBuffer
  import opened Endpoints
  import opened Connection
  import opened Settling
  import G = GoBackN

  /** Until the client disconnects, the server has heard nothing or is connected. */
  ghost predicate NotClosing(s: Sys) {
    s.phase in {Fresh, Connecting, Ready} ==> Unheard(s) || s.server.state == ServerConnected
  }

  lemma NotClosingStep(p: Peers, s: Sys, a: Action)
    requires FinsLate(s) && NotClosing(s) && Enabled(s, a)
    ensures NotClosing(Apply(p, s, a))
  {
  }

  lemma {:induction false} AlwaysNotClosing(p: Peers, s0: Sys, acts: seq<Action>)
    requires Initial(p, s0) && Legal(p, s0, acts)
    ensures FinsLate(Exec(p, s0, acts)) && NotClosing(Exec(p, s0, acts))
  {
    FinsAlwaysLate(p, s0, acts);
    if acts != [] {
      AlwaysNotClosing(p, s0, acts[..|acts| - 1]);
      NotClosingStep(p, Exec(p, s0, acts[..|acts| - 1]), acts[|acts| - 1]);
    }
  }

  /** The client is asking and the server has started listening, or has heard it already. */
  ghost predicate Asking(p: Peers, s: Sys, g: G.State) {
    && Inv(p, s, g) && s.phase == Connecting
    && (s.server.state == Listening || s.server.state == ServerConnected)
  }

  ghost predicate HasSynAck(q: seq<Segment>) {
    exists seg :: seg in q && seg.kind == SYNACK
  }

  /** The server has heard the client, and has an answer on its way. */
  ghost predicate Answered(s: Sys) {
    s.server.state == ServerConnected && HasSynAck(s.toClient)
  }

  /** One SYN is taken, and answered, whether it is the first or not. */
  lemma TakeSyn(p: Peers, s: Sys, g: G.State)
    requires Asking(p, s, g) && s.toServer != []
    ensures Enabled(s, ServerReceives)
    ensures var s' := Apply(p, s, ServerReceives);
            && Asking(p, s', g) && Answered(s')
            && s'.toServer == s.toServer[1..] && s'.client == s.client
  {
    assert s.toServer[0] in s.toServer && ToServerSegment(p, s.toServer[0]);
    ServerReceivesSyn(p, s, g);
    var s' := Apply(p, s, ServerReceives);
    assert s'.toClient[|s'.toClient| - 1].kind == SYNACK;
  }

  lemma {:induction false} TakeSyns(p: Peers, s: Sys, g: G.State) returns (acts: seq<Action>, s': Sys)
    requires Asking(p, s, g)
    ensures Leads(p, s, acts, s') && Asking(p, s', g) && s'.toServer == [] && s'.client == s.client
    ensures s.toServer != [] || Answered(s) ==> Answered(s')
    decreases |s.toServer|
  {
    if s.toServer == [] {
      acts, s' := [], s;
      LeadsNowhere(p, s);
    } else {
      TakeSyn(p, s, g);
      var s1 := Apply(p, s, ServerReceives);
      LeadsOne(p, s, ServerReceives);
      acts, s' := TakeSyns(p, s1, g);
      LeadsOn(p, s, [ServerReceives], s1, acts, s');
      acts := [ServerReceives] + acts;
    }
  }

  /** The client works through the replies; one SYNACK among them connects it. */
  lemma {:induction false} TakeReplies(p: Peers, s: Sys, g: G.State)
    returns (acts: seq<Action>, s': Sys, g': G.State)
    requires Asking(p, s, g) && s.server.state == ServerConnected
    ensures Leads(p, s, acts, s') && Asking(p, s', g') && s'.server == s.server
    ensures s.client.state == ClientConnected || HasSynAck(s.toClient) ==> s'.client.state == ClientConnected
    decreases |s.toClient|
  {
    if s.toClient == [] {
      acts, s', g' := [], s, g;
      LeadsNowhere(p, s);
    } else {
      var g1 := ClientReceivesStep(p, s, g);
      var s1 := Apply(p, s, ClientReceives);
      assert ToClientSegment(p, s.toClient[0]);
      assert forall seg :: seg in s.toClient ==> seg == s.toClient[0] || seg in s1.toClient;
      LeadsOne(p, s, ClientReceives);
      acts, s', g' := TakeReplies(p, s1, g1);
      LeadsOn(p, s, [ClientReceives], s1, acts, s');
      acts := [ClientReceives] + acts;
    }
  }

  /** The server starts listening, if it has not done so yet. */
  lemma StartListening(p: Peers, s: Sys, g: G.State) returns (acts: seq<Action>, s': Sys)
    requires Inv(p, s, g) && NotClosing(s) && s.phase == Connecting
    ensures Leads(p, s, acts, s') && Asking(p, s', g)
  {
    if s.server.state == ServerClosed {
      ServerOwnStep(p, s, g, Accept);
      acts, s' := [Accept], Apply(p, s, Accept);
      LeadsOne(p, s, Accept);
    } else {
      acts, s' := [], s;
      LeadsNowhere(p, s);
    }
  }

  lemma AskAgain(p: Peers, s: Sys, g: G.State) returns (acts: seq<Action>, s': Sys)
    requires Asking(p, s, g)
    ensures Leads(p, s, acts, s') && Asking(p, s', g) && s'.toServer != []
  {
    SynStep(p, s, g, ResendSyn);
    acts, s' := [ResendSyn], Apply(p, s, ResendSyn);
    LeadsOne(p, s, ResendSyn);
  }

  /** Whatever has been lost so far, as long as the client is still asking some further run without any loss
      connects both ends. */
  lemma CanConnect(p: Peers, s0: Sys, acts: seq<Action>) returns (more: seq<Action>)
    requires Initial(p, s0) && Legal(p, s0, acts) && Exec(p, s0, acts).phase == Connecting
    ensures Lossless(more) && Legal(p, s0, acts + more)
    ensures BothConnected(Exec(p, s0, acts + more)) && Exec(p, s0, acts + more).phase == Connecting
  {
    var g := RunRefines(p, s0, acts);
    AlwaysNotClosing(p, s0, acts);
    var s := Exec(p, s0, acts);
    var a1, s1 := StartListening(p, s, g);
    var a2, s2 := AskAgain(p, s1, g);
    var a3, s3 := TakeSyns(p, s2, g);
    var a4, s4, g4 := TakeReplies(p, s3, g);
    LeadsOn(p, s, a1, s1, a2, s2);
    LeadsOn(p, s, a1 + a2, s2, a3, s3);
    LeadsOn(p, s, a1 + a2 + a3, s3, a4, s4);
    more := a1 + a2 + a3 + a4;
    Chain(p, s0, acts, more);
  }
}
