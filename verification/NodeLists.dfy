/** What the list of nodes does to routing. A node that keeps no cost for a destination cannot improve
    on one either: it takes every offer for it, and the last one heard decides the next hop. */
module NodeLists {
  import opened Topology
  import opened DistanceVector
  import opened RoutingProtocol
  import opened Quiescence
  import opened Convergence
  import opened RoundsExist
  import opened Forwarding

  // ---------------------------------------------------------------- when rows can be optimal

  /** Any two nodes that are within reach of each other are neighbours: a check on the topology alone. */
  ghost predicate ReachIsLink(t: Topology) {
    forall n, x, w :: WalkBetween(t, w, n, x) && WalkCost(t, w) < INFINITE_COST ==> n == x || Linked(t, n, x)
  }

  /** Where reach is linkage, a walk within reach is a way, whatever the node list. */
  lemma {:induction false} ReachIsWay(t: Topology, w: seq<int>, n: int, x: int)
    requires ValidTopology(t) && ReachIsLink(t) && WalkBetween(t, w, n, x) && WalkCost(t, w) < INFINITE_COST
    ensures Way(t, w, n, x)
  {
    WalkNodes(t, w);
    if |w| > 1 {
      var m := WalkStep(t, w, n, x);
      ReachIsWay(t, w[1..], m, x);
      assert w == [n] + w[1..];
    }
  }

  lemma RowsOptimalIsOptimal(t: Topology, s: Net)
    requires ValidTopology(t) && Inv(t, s) && RowsOptimal(t, s) && ReachIsLink(t)
    ensures Optimal(t, s)
  {
    forall n, x | n in t.nodes && x in t.nodes
      ensures IsDistance(t, n, x, Held(s.nodes[n], x))
    {
      if Lists(t, n, x) {
        assert IsWayDistance(t, n, x, s.nodes[n].own[x]);
      }
      forall w | WalkBetween(t, w, n, x)
        ensures Held(s.nodes[n], x) <= WalkCost(t, w)
      {
        if WalkCost(t, w) < INFINITE_COST {
          ReachIsWay(t, w, n, x);
        }
      }
    }
  }

  lemma OptimalMeansLinks(t: Topology, s: Net)
    requires ValidTopology(t) && !t.listsAll && Shape(t, s) && Optimal(t, s)
    ensures ReachIsLink(t)
  {
    forall n, x, w | WalkBetween(t, w, n, x) && WalkCost(t, w) < INFINITE_COST
      ensures n == x || Linked(t, n, x)
    {
      WalkNodes(t, w);
      assert n in t.nodes && x in t.nodes;
      assert IsDistance(t, n, x, Held(s.nodes[n], x));
    }
  }

  /** Some run makes every node hold its shortest-path distances. */
  ghost predicate CanBeOptimal(b: Build, t: Topology) {
    exists acts :: Legal(b, t, acts) && Optimal(t, Exec(b, t, acts))
  }

  /** Some run makes every node hold its shortest-path distances exactly when all nodes are listed or
      no two nodes within reach of each other need a third. */
  lemma OptimalReachableIff(b: Build, t: Topology)
    requires b.readsOwnRow && ValidTopology(t)
    ensures CanBeOptimal(b, t) <==> t.listsAll || ReachIsLink(t)
  {
    if t.listsAll || ReachIsLink(t) {
      var acts := CanConverge(b, t, []);
      if !t.listsAll {
        RowsOptimalIsOptimal(t, Exec(b, t, acts));
      }
      assert Optimal(t, Exec(b, t, acts));
    } else {
      forall acts | Legal(b, t, acts)
        ensures !Optimal(t, Exec(b, t, acts))
      {
        ReachableInv(b, t, acts);
        if Optimal(t, Exec(b, t, acts)) {
          OptimalMeansLinks(t, Exec(b, t, acts));
        }
      }
    }
  }

  // ---------------------------------------------------------------- the last offer wins

  /** `a` offers node `n` a finite way to `x`. */
  ghost predicate OffersUnder(t: Topology, n: int, a: Advert, x: int) {
    Linked(t, n, a.src) && exists e :: e in a.entries && e.dest == x && LinkCost(t, n, a.src) + e.cost < INFINITE_COST
  }

  /** The sender of the last vector delivered to `n` that offered it `x`, or -1. */
  ghost function LastOffer(t: Topology, acts: seq<Action>, n: int, x: int): int {
    if acts == [] then -1 else
    match acts[|acts| - 1]
    case Deliver(a, to) =>
      if to == n && OffersUnder(t, n, a, x) then a.src else LastOffer(t, acts[..|acts| - 1], n, x)
    case Broadcast(_) => LastOffer(t, acts[..|acts| - 1], n, x)
  }

  /** An update sets the next hop to a destination without an entry whatever was there before. */
  lemma {:induction false} RelaxAllUnlisted(b: Build, n: Node, src: int, link: int, es: seq<Entry>, x: int)
    requires b.replacesHop && 0 < src && 0 < x && x !in n.own
    ensures var r := RelaxAll(b, n, src, link, es);
            && x !in r.own
            && NextHop(r, x) == if exists e :: e in es && e.dest == x && link + e.cost < INFINITE_COST
                                then src else NextHop(n, x)
  {
    if es != [] {
      var init, last := es[..|es| - 1], es[|es| - 1];
      RelaxAllUnlisted(b, n, src, link, init, x);
      assert es == init + [last];
      assert last in es && forall e :: e in es <==> e in init || e == last;
    }
  }

  lemma HearUnlisted(b: Build, t: Topology, s: Net, a: Advert, n: int, x: int)
    requires b.readsOwnRow && b.replacesHop && ValidTopology(t) && Inv(t, s)
    requires n in t.nodes && x in t.nodes && !Lists(t, n, x) && Enabled(t, s, Deliver(a, n))
    ensures NextHop(Hear(b, t, s, n, a), x) ==
              if OffersUnder(t, n, a, x) then a.src else NextHop(s.nodes[n], x)
  {
    assert a.src in t.nodes;
    RelaxAllUnlisted(b, s.nodes[n], a.src, LinkCost(t, n, a.src), a.entries, x);
  }

  /** After any run, the next hop to a destination that is not listed is the sender of the last offer,
      however dear that was and however cheap an earlier one. */
  lemma {:induction false} LastOfferWins(b: Build, t: Topology, acts: seq<Action>, n: int, x: int)
    requires b.readsOwnRow && b.replacesHop && ValidTopology(t) && Legal(b, t, acts)
    requires n in t.nodes && x in t.nodes && !Lists(t, n, x)
    ensures n in Exec(b, t, acts).nodes && NextHop(Exec(b, t, acts).nodes[n], x) == LastOffer(t, acts, n, x)
  {
    if acts == [] {
      assert Init(t).nodes[n] == InitialNode(t, n);
    } else {
      var init := acts[..|acts| - 1];
      LastOfferWins(b, t, init, n, x);
      ReachableInv(b, t, init);
      match acts[|acts| - 1]
      case Broadcast(_) =>
      case Deliver(a, to) =>
        if to == n {
          HearUnlisted(b, t, Exec(b, t, init), a, n, x);
        }
    }
  }

  // ---------------------------------------------------------------- who can be reached

  /** A walk from `n` to `x` within reach on which every node but perhaps `n` keeps costs for `x`. */
  ghost predicate Passage(t: Topology, w: seq<int>, n: int, x: int) {
    && WalkBetween(t, w, n, x) && WalkCost(t, w) < INFINITE_COST
    && forall i :: 1 <= i < |w| ==> Lists(t, w[i], x)
  }

  ghost predicate InReach(t: Topology, n: int, x: int) {
    exists w :: Passage(t, w, n, x)
  }

  /** Whatever a node has a next hop to is reachable from it. */
  ghost predicate HopsReach(t: Topology, s: Net) {
    forall n, x :: n in s.nodes && x in s.nodes[n].next && x in t.nodes ==> InReach(t, n, x)
  }

  lemma WayReaches(t: Topology, n: int, m: int, x: int, c: int)
    requires ValidTopology(t) && Linked(t, n, m) && Backed(t, m, x, c) && LinkCost(t, n, m) + c < INFINITE_COST
    ensures InReach(t, n, x)
  {
    var w :| Way(t, w, m, x) && WalkCost(t, w) == c;
    WalkExtend(t, n, w);
    assert Passage(t, [n] + w, n, x);
  }

  lemma InitHopsReach(t: Topology)
    requires ValidTopology(t)
    ensures HopsReach(t, Init(t))
  {
    forall n, x | n in t.nodes && x in Init(t).nodes[n].next
      ensures InReach(t, n, x)
    {
      assert Init(t).nodes[n] == InitialNode(t, n);
      var w := DirectWalk(t, n, x);
      assert Lists(t, n, x);
      assert forall m :: m in w ==> Lists(t, m, x);
      assert Passage(t, w, n, x);
    }
  }

  ghost predicate Capped(own: map<int, int>) {
    forall y :: y in own ==> own[y] <= INFINITE_COST
  }

  /** A next hop is set only on an offer below infinity. */
  lemma {:induction false} RelaxAllOffered(b: Build, n: Node, src: int, link: int, es: seq<Entry>, x: int)
    requires Capped(n.own)
    ensures Capped(RelaxAll(b, n, src, link, es).own)
    ensures x in RelaxAll(b, n, src, link, es).next && x !in n.next ==>
              exists e :: e in es && e.dest == x && link + e.cost < INFINITE_COST
  {
    if es != [] {
      var init, last := es[..|es| - 1], es[|es| - 1];
      RelaxAllOffered(b, n, src, link, init, x);
      var m := RelaxAll(b, n, src, link, init);
      assert last in es && forall e :: e in init ==> e in es;
      assert OwnCost(b, m.own, last.dest) <= INFINITE_COST;
      assert RelaxAll(b, n, src, link, es) == RelaxEntry(b, m, src, link, last);
    }
  }

  lemma DeliverKeepsHopsReach(b: Build, t: Topology, s: Net, a: Advert, n: int)
    requires b.readsOwnRow && ValidTopology(t) && Inv(t, s) && HopsReach(t, s) && Enabled(t, s, Deliver(a, n))
    ensures HopsReach(t, Apply(b, t, s, Deliver(a, n)))
  {
    forall x | x in Hear(b, t, s, n, a).next && x in t.nodes
      ensures InReach(t, n, x)
    {
      assert RowShape(t, n, s.nodes[n].own);
      if x !in s.nodes[n].next {
        RelaxAllOffered(b, s.nodes[n], a.src, LinkCost(t, n, a.src), a.entries, x);
        var e :| e in a.entries && e.dest == x && LinkCost(t, n, a.src) + e.cost < INFINITE_COST;
        assert Lags(t, s, a.src, e) && Backed(t, a.src, e.dest, e.cost);
        WayReaches(t, n, a.src, x, e.cost);
      }
    }
  }

  lemma StepKeepsHopsReach(b: Build, t: Topology, s: Net, a: Action)
    requires b.readsOwnRow && ValidTopology(t) && Inv(t, s) && HopsReach(t, s) && Enabled(t, s, a)
    ensures HopsReach(t, Apply(b, t, s, a))
  {
    match a
    case Broadcast(n) =>
    case Deliver(ad, n) => DeliverKeepsHopsReach(b, t, s, ad, n);
  }

  lemma {:induction false} AlwaysHopsReach(b: Build, t: Topology, acts: seq<Action>)
    requires b.readsOwnRow && ValidTopology(t) && Legal(b, t, acts)
    ensures Inv(t, Exec(b, t, acts)) && HopsReach(t, Exec(b, t, acts))
  {
    ReachableInv(b, t, acts);
    if acts == [] {
      InitHopsReach(t);
    } else {
      var init := acts[..|acts| - 1];
      AlwaysHopsReach(b, t, init);
      StepKeepsHopsReach(b, t, Exec(b, t, init), acts[|acts| - 1]);
    }
  }

  /** A packet whose destination is not reachable stays where it is. */
  lemma {:induction false} StaysPut(b: Build, t: Topology, j: Journey, es: seq<Event>)
    requires b.readsOwnRow && ValidTopology(t) && Inv(t, j.net) && HopsReach(t, j.net) && Legs(b, t, j, es)
    requires j.dest in t.nodes && !InReach(t, j.at, j.dest)
    ensures var j' := Travel(b, t, j, es);
            Inv(t, j'.net) && HopsReach(t, j'.net) && j'.at == j.at && j'.dest == j.dest
  {
    if es != [] {
      StaysPut(b, t, j, es[..|es| - 1]);
      var mid := Travel(b, t, j, es[..|es| - 1]);
      assert !Linked(t, j.at, -1);
      match es[|es| - 1]
      case Route(a) =>
        StepKeepsInv(b, t, mid.net, a);
        StepKeepsHopsReach(b, t, mid.net, a);
      case Hop =>
        assert false;
    }
  }

  /** A packet at a node that keeps a finite cost for its destination gets there. */
  lemma ListedArrives(t: Topology, acts: seq<Action>, n: int, x: int)
    requires ValidTopology(t) && Legal(DOCUMENTED, t, acts) && n in Exec(DOCUMENTED, t, acts).nodes
    requires var own := Exec(DOCUMENTED, t, acts).nodes[n].own; x in own && own[x] < INFINITE_COST
    ensures CanArrive(DOCUMENTED, t, Journey(Exec(DOCUMENTED, t, acts), n, x, 0, 0))
  {
    ReachableHopsNearer(t, acts);
    var s := Exec(DOCUMENTED, t, acts);
    HopsArrive(t, Journey(s, n, x, 0, 0), s.nodes[n].own[x]);
  }

  /** Telling a node of a destination it does not list turns its next hop to the teller. */
  lemma OfferTurnsHop(t: Topology, s: Net, s1: Net, s2: Net, n: int, m: int, x: int)
    requires ValidTopology(t) && Inv(t, s) && Linked(t, n, m) && m in t.nodes && n in t.nodes && x in t.nodes
    requires s1 == Apply(DOCUMENTED, t, s, Broadcast(m)) && Inv(t, s1)
    requires s2 == Apply(DOCUMENTED, t, s1, Deliver(FreshAdvert(DOCUMENTED, t, s, m), n))
    requires !Lists(t, n, x) && Lists(t, m, x) && LinkCost(t, n, m) + s.nodes[m].own[x] < INFINITE_COST
    ensures n in s2.nodes && NextHop(s2.nodes[n], x) == m
    ensures m in s2.nodes && s2.nodes[m] == s.nodes[m]
  {
    FreshHas(DOCUMENTED, t, s, m, x);
    HearUnlisted(DOCUMENTED, t, s1, FreshAdvert(DOCUMENTED, t, s, m), n, x);
  }

  /** A packet at a node that has just heard an offer for a destination it does not list gets there too. */
  lemma UnlistedArrives(t: Topology, acts: seq<Action>, s: Net, n: int, m: int, x: int)
    returns (acts': seq<Action>)
    requires ValidTopology(t) && Legal(DOCUMENTED, t, acts) && s == Exec(DOCUMENTED, t, acts) && Inv(t, s)
    requires Linked(t, n, m) && m in t.nodes && n in t.nodes && x in t.nodes
    requires !Lists(t, n, x) && Lists(t, m, x) && LinkCost(t, n, m) + s.nodes[m].own[x] < INFINITE_COST
    ensures acts <= acts' && Legal(DOCUMENTED, t, acts')
    ensures CanArrive(DOCUMENTED, t, Journey(Exec(DOCUMENTED, t, acts'), n, x, 0, 0))
  {
    acts' := TellRun(DOCUMENTED, t, acts, s, n, m);
    ReachableHopsNearer(t, acts');
    var s2 := Exec(DOCUMENTED, t, acts');
    OfferTurnsHop(t, s, Apply(DOCUMENTED, t, s, Broadcast(m)), s2, n, m, x);
    HopThenArrive(t, Journey(s2, n, x, 0, 0), m, LinkCost(t, n, m) + s.nodes[m].own[x]);
  }

  lemma HopThenArrive(t: Topology, j: Journey, m: int, budget: int)
    requires ValidTopology(t) && Inv(t, j.net) && HopsNearer(t, j.net) && j.hops == 0 && j.spent == 0
    requires j.at in j.net.nodes && j.at != j.dest && NextHop(j.net.nodes[j.at], j.dest) == m && Linked(t, j.at, m)
    requires Lists(t, m, j.dest) && m in t.nodes
    requires LinkCost(t, j.at, m) + j.net.nodes[m].own[j.dest] <= budget < INFINITE_COST
    ensures CanArrive(DOCUMENTED, t, j)
  {
    OneLeg(DOCUMENTED, t, j, Hop);
    var j' := Move(DOCUMENTED, t, j, Hop);
    HopsArrive(t, j', budget);
    var es :| Legs(DOCUMENTED, t, j', es) && Travel(DOCUMENTED, t, j', es).at == j'.dest;
    LegsChain(DOCUMENTED, t, j, [Hop], es);
  }

  /** Routing may go on for a while before the packet moves. */
  lemma LaterArrives(t: Topology, acts: seq<Action>, acts': seq<Action>, n: int, x: int)
    requires acts <= acts' && Legal(DOCUMENTED, t, acts) && Legal(DOCUMENTED, t, acts')
    requires CanArrive(DOCUMENTED, t, Journey(Exec(DOCUMENTED, t, acts'), n, x, 0, 0))
    ensures CanArrive(DOCUMENTED, t, Journey(Exec(DOCUMENTED, t, acts), n, x, 0, 0))
  {
    var j := Journey(Exec(DOCUMENTED, t, acts), n, x, 0, 0);
    var j' := Journey(Exec(DOCUMENTED, t, acts'), n, x, 0, 0);
    assert acts'[..|acts|] == acts;
    RouteFirst(DOCUMENTED, t, acts', |acts|, j);
    var u := RouteEvents(acts'[|acts|..]);
    var v :| Legs(DOCUMENTED, t, j', v) && Travel(DOCUMENTED, t, j', v).at == x;
    LegsChain(DOCUMENTED, t, j, u, v);
    assert Legs(DOCUMENTED, t, j, u + v) && Travel(DOCUMENTED, t, j, u + v).at == j.dest;
  }

  /** A passage from `n` is a link and a way from there; if `n` lists its end too, it is a way itself. */
  lemma PassageStep(t: Topology, w: seq<int>, n: int, x: int) returns (m: int)
    requires Passage(t, w, n, x) && n != x
    ensures n in t.nodes && m in t.nodes && x in t.nodes && Linked(t, n, m)
    ensures Way(t, w[1..], m, x) && WalkCost(t, w) == LinkCost(t, n, m) + WalkCost(t, w[1..])
    ensures Lists(t, n, x) ==> Way(t, w, n, x)
  {
    m := WalkStep(t, w, n, x);
    WalkNodes(t, w);
    assert w == [n] + w[1..];
  }

  /** An optimal row is at most the cost of any way. */
  lemma OptimalBelowWay(t: Topology, s: Net, w: seq<int>, n: int, x: int)
    requires Shape(t, s) && RowsOptimal(t, s) && Way(t, w, n, x)
    ensures n in t.nodes && Lists(t, n, x) && s.nodes[n].own[x] <= WalkCost(t, w)
  {
    assert n in w;
    assert IsWayDistance(t, n, x, s.nodes[n].own[x]);
  }

  /** What optimal rows say about the first link of a passage. */
  lemma PassageCosts(t: Topology, s: Net, w: seq<int>, n: int, x: int) returns (m: int)
    requires Shape(t, s) && RowsOptimal(t, s) && Passage(t, w, n, x) && n != x
    ensures n in t.nodes && m in t.nodes && x in t.nodes && Linked(t, n, m) && Lists(t, m, x)
    ensures LinkCost(t, n, m) + s.nodes[m].own[x] < INFINITE_COST
    ensures Lists(t, n, x) ==> s.nodes[n].own[x] < INFINITE_COST
  {
    m := PassageStep(t, w, n, x);
    OptimalBelowWay(t, s, w[1..], m, x);
    if Lists(t, n, x) {
      OptimalBelowWay(t, s, w, n, x);
    }
  }

  lemma InReachArrives(t: Topology, acts: seq<Action>, n: int, x: int)
    requires ValidTopology(t) && Legal(DOCUMENTED, t, acts) && n != x && InReach(t, n, x)
    ensures CanArrive(DOCUMENTED, t, Journey(Exec(DOCUMENTED, t, acts), n, x, 0, 0))
  {
    var w :| Passage(t, w, n, x);
    var acts' := CanConverge(DOCUMENTED, t, acts);
    var s := Exec(DOCUMENTED, t, acts');
    var m := PassageCosts(t, s, w, n, x);
    if Lists(t, n, x) {
      ListedArrives(t, acts', n, x);
    } else {
      acts' := UnlistedArrives(t, acts', s, n, m, x);
    }
    LaterArrives(t, acts, acts', n, x);
  }

  /** With the documented tables a packet can get from `n` to `x`, starting at any reachable moment,
      exactly when some walk within reach leads there along nodes that all keep costs for `x`, not
      counting `n`. If all nodes are listed that is any walk within reach. */
  lemma ArrivesIff(t: Topology, acts: seq<Action>, n: int, x: int)
    requires ValidTopology(t) && Legal(DOCUMENTED, t, acts) && n in t.nodes && x in t.nodes
    ensures CanArrive(DOCUMENTED, t, Journey(Exec(DOCUMENTED, t, acts), n, x, 0, 0)) <==> InReach(t, n, x)
  {
    var j := Journey(Exec(DOCUMENTED, t, acts), n, x, 0, 0);
    if n == x {
      var none: seq<Event> := [];
      assert Legs(DOCUMENTED, t, j, none) && Travel(DOCUMENTED, t, j, none).at == j.dest;
      assert Passage(t, [n], n, x);
    } else if InReach(t, n, x) {
      InReachArrives(t, acts, n, x);
    } else {
      AlwaysHopsReach(DOCUMENTED, t, acts);
      forall es | Legs(DOCUMENTED, t, j, es)
        ensures Travel(DOCUMENTED, t, j, es).at != j.dest
      {
        StaysPut(DOCUMENTED, t, j, es);
      }
    }
  }
}
