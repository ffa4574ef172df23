/** Progress of the close: exactly when a client that is waiting for its FINACK can still get one. */
module Completion {
  import opened Segments
  import opened SendBuffer
  import opened ReceiveBuffer
  import opened Endpoints
  import opened Connection
  import opened Settling
  import opened CloseDown
  import G = GoBackN

  ghost predicate HasFinAck(q: seq<Segment>) {
    exists seg :: seg in q && seg.kind == FINACK
  }

  /** The client waits for the answer to its FIN. */
  ghost predicate Waiting(p: Peers, s: Sys, g: G.State) {
    Inv(p, s, g) && s.phase == Closing && s.client.state == FinWait
  }

  // ---------------------------------------------------------------- it can

  /** A server that has not closed takes a segment and stays so; a FIN it answers, whether the first or not. */
  lemma OpenTakes(p: Peers, s: Sys, g: G.State) returns (g': G.State)
    requires Waiting(p, s, g) && Open(s) && s.toServer != []
    ensures Enabled(s, ServerReceives)
    ensures var s' := Apply(p, s, ServerReceives);
            && Waiting(p, s', g') && Open(s') && s'.toServer == s.toServer[1..]
            && (HasFinAck(s.toClient) || s.toServer[0].kind == FIN ==> HasFinAck(s'.toClient))
  {
    g' := StepRefines(p, s, g, ServerReceives);
    assert ToServerSegment(p, s.toServer[0]);
    var s' := Apply(p, s, ServerReceives);
    assert forall seg :: seg in s.toClient ==> seg in s'.toClient;
    if s.toServer[0].kind == FIN {
      assert s'.toClient[|s'.toClient| - 1].kind == FINACK;
    }
  }

  lemma {:induction false} OpenTakesAll(p: Peers, s: Sys, g: G.State)
    returns (acts: seq<Action>, s': Sys, g': G.State)
    requires Waiting(p, s, g) && Open(s)
    ensures Leads(p, s, acts, s') && Waiting(p, s', g')
    ensures HasFinAck(s.toClient) || (exists seg :: seg in s.toServer && seg.kind == FIN) ==> HasFinAck(s'.toClient)
    decreases |s.toServer|
  {
    if s.toServer == [] {
      acts, s', g' := [], s, g;
      LeadsNowhere(p, s);
    } else {
      var g1 := OpenTakes(p, s, g);
      var s1 := Apply(p, s, ServerReceives);
      assert forall seg :: seg in s.toServer ==> seg == s.toServer[0] || seg in s1.toServer;
      LeadsOne(p, s, ServerReceives);
      acts, s', g' := OpenTakesAll(p, s1, g1);
      LeadsOn(p, s, [ServerReceives], s1, acts, s');
      acts := [ServerReceives] + acts;
    }
  }

  /** A FINACK on its way reaches the client and completes the close. */
  lemma {:induction false} FinAckCompletes(p: Peers, s: Sys, g: G.State) returns (acts: seq<Action>, s': Sys)
    requires p.serverPort == p.serverNode && Waiting(p, s, g) && HasFinAck(s.toClient)
    ensures Leads(p, s, acts, s') && s'.phase == TornDown
    decreases |s.toClient|
  {
    var g1 := ClientReceivesStep(p, s, g);
    var s1 := Apply(p, s, ClientReceives);
    LeadsOne(p, s, ClientReceives);
    assert ToClientSegment(p, s.toClient[0]);
    if s.toClient[0].kind == FINACK {
      s' := Apply(p, s1, Finish);
      LeadsOne(p, s1, Finish);
      LeadsOn(p, s, [ClientReceives], s1, [Finish], s');
      acts := [ClientReceives] + [Finish];
    } else {
      assert forall seg :: seg in s.toClient ==> seg == s.toClient[0] || seg in s1.toClient;
      acts, s' := FinAckCompletes(p, s1, g1);
      LeadsOn(p, s, [ClientReceives], s1, acts, s');
      acts := [ClientReceives] + acts;
    }
  }

  lemma AskToClose(p: Peers, s: Sys, g: G.State) returns (acts: seq<Action>, s': Sys, g': G.State)
    requires Waiting(p, s, g) && Open(s)
    ensures Leads(p, s, acts, s') && Waiting(p, s', g') && HasFinAck(s'.toClient)
  {
    ClosingStep(p, s, g, ResendFin);
    var s1 := Apply(p, s, ResendFin);
    LeadsOne(p, s, ResendFin);
    assert s1.toServer[|s1.toServer| - 1].kind == FIN;
    acts, s', g' := OpenTakesAll(p, s1, g);
    LeadsOn(p, s, [ResendFin], s1, acts, s');
    acts := [ResendFin] + acts;
  }

  lemma CompletesFrom(p: Peers, s: Sys, g: G.State) returns (acts: seq<Action>, s': Sys)
    requires p.serverPort == p.serverNode && Waiting(p, s, g) && (Open(s) || HasFinAck(s.toClient))
    ensures Leads(p, s, acts, s') && s'.phase == TornDown
  {
    if HasFinAck(s.toClient) {
      acts, s' := FinAckCompletes(p, s, g);
    } else {
      var a1, s1, g1 := AskToClose(p, s, g);
      var a2, s2 := FinAckCompletes(p, s1, g1);
      LeadsOn(p, s, a1, s1, a2, s2);
      acts, s' := a1 + a2, s2;
    }
  }

  // ---------------------------------------------------------------- it cannot

  /** The server is gone, no answer is on its way, and the client waits or has given up. */
  ghost predicate TooLate(s: Sys) {
    && s.served && s.server.state == ServerClosed && !HasFinAck(s.toClient)
    && ((s.phase == Closing && s.client.state == FinWait) || (s.phase == GaveUp && s.client.state == ClientClosed))
  }

  lemma TooLateStep(p: Peers, s: Sys, a: Action)
    requires TooLate(s) && Enabled(s, a)
    ensures TooLate(Apply(p, s, a))
  {
    match a
    case LoseToClient(i) => DropKeeps(s.toClient, i);
    case ClientReceives =>
      assert s.toClient[0] in s.toClient;
      assert forall seg :: seg in s.toClient[1..] ==> seg in s.toClient;
    case _ =>
  }

  lemma {:induction false} StaysTooLate(p: Peers, s: Sys, acts: seq<Action>)
    requires TooLate(s) && Legal(p, s, acts)
    ensures TooLate(Exec(p, s, acts))
  {
    if acts != [] {
      StaysTooLate(p, s, acts[..|acts| - 1]);
      TooLateStep(p, Exec(p, s, acts[..|acts| - 1]), acts[|acts| - 1]);
    }
  }

  /** Some further run completes the close. */
  ghost predicate CanComplete(p: Peers, s: Sys) {
    exists more :: Legal(p, s, more) && Exec(p, s, more).phase == TornDown
  }

  /** While a client waits for its FINACK, the close can still complete exactly when the server's port is its
      node ID and the server has not closed or has an answer under way. */
  lemma CanCompleteIff(p: Peers, s0: Sys, acts: seq<Action>)
    requires Initial(p, s0) && Legal(p, s0, acts)
    requires Exec(p, s0, acts).phase == Closing && Exec(p, s0, acts).client.state == FinWait
    ensures var s := Exec(p, s0, acts);
            CanComplete(p, s) <==> p.serverPort == p.serverNode && (Open(s) || HasFinAck(s.toClient))
  {
    var g := RunRefines(p, s0, acts);
    var s := Exec(p, s0, acts);
    if p.serverPort != p.serverNode {
      forall more | Legal(p, s, more)
        ensures Exec(p, s, more).phase != TornDown
      {
        Chain(p, s0, acts, more);
        NeverCloses(p, s0, acts + more);
      }
    } else if Open(s) || HasFinAck(s.toClient) {
      var more, s' := CompletesFrom(p, s, g);
      assert Exec(p, s, more).phase == TornDown;
    } else {
      forall more | Legal(p, s, more)
        ensures Exec(p, s, more).phase != TornDown
      {
        StaysTooLate(p, s, more);
      }
    }
  }

  /** And if it can, it can without any loss. */
  lemma CompletesLosslessly(p: Peers, s0: Sys, acts: seq<Action>) returns (more: seq<Action>)
    requires Initial(p, s0) && Legal(p, s0, acts)
    requires Exec(p, s0, acts).phase == Closing && Exec(p, s0, acts).client.state == FinWait
    requires p.serverPort == p.serverNode
    requires Open(Exec(p, s0, acts)) || HasFinAck(Exec(p, s0, acts).toClient)
    ensures Lossless(more) && Legal(p, s0, acts + more) && Exec(p, s0, acts + more).phase == TornDown
  {
    var g := RunRefines(p, s0, acts);
    var s';
    more, s' := CompletesFrom(p, Exec(p, s0, acts), g);
    Chain(p, s0, acts, more);
  }
}
