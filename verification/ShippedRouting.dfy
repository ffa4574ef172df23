/** What the tables as they stand do to routing: a node that never finds its own row. */
module ShippedRouting {
  import opened Topology
  import opened DistanceVector
  import opened RoutingProtocol
  import opened Quiescence
  import opened Forwarding

  /** Every vector in flight says "infinite" to everyone. */
  ghost predicate Mute(s: Net) {
    forall a, e :: a in s.adverts && e in a.entries ==> e.cost == INFINITE_COST
  }

  lemma MuteHear(b: Build, t: Topology, s: Net, a: Advert, n: int)
    requires !b.readsOwnRow && ValidTopology(t) && Mute(s) && Enabled(t, s, Deliver(a, n))
    ensures Hear(b, t, s, n, a) == s.nodes[n]
  {
    RelaxAllUnchanged(b, s.nodes[n], a.src, LinkCost(t, n, a.src), a.entries);
  }

  lemma MuteBroadcast(b: Build, t: Topology, s: Net, n: int)
    requires !b.readsOwnRow && Mute(s) && n in s.nodes
    ensures Mute(Apply(b, t, s, Broadcast(n)))
  {
    forall e | e in FreshAdvert(b, t, s, n).entries
      ensures e.cost == INFINITE_COST
    {
      SnapshotEntries(b, NodeList(t, n), s.nodes[n].own, e);
    }
  }

  lemma MuteStep(b: Build, t: Topology, s: Net, a: Action)
    requires !b.readsOwnRow && ValidTopology(t) && Mute(s) && Enabled(t, s, a)
    ensures Mute(Apply(b, t, s, a)) && Apply(b, t, s, a).nodes == s.nodes
  {
    match a
    case Broadcast(n) => MuteBroadcast(b, t, s, n);
    case Deliver(ad, n) => MuteHear(b, t, s, ad, n);
  }

  /** If a node cannot read its own row, no run ever changes any node. */
  lemma {:induction false} NeverLearns(b: Build, t: Topology, acts: seq<Action>)
    requires !b.readsOwnRow && ValidTopology(t) && Legal(b, t, acts)
    ensures Exec(b, t, acts).nodes == Init(t).nodes && Mute(Exec(b, t, acts))
  {
    if acts != [] {
      NeverLearns(b, t, acts[..|acts| - 1]);
      MuteStep(b, t, Exec(b, t, acts[..|acts| - 1]), acts[|acts| - 1]);
    }
  }

  /** No two-link detour beats, or makes up for, a direct link: a check on the topology file alone. */
  ghost predicate NoDetours(t: Topology) {
    forall n, m, x | n in t.nodes && m in t.nodes && x in t.nodes && Linked(t, n, m) ::
      DirectCost(t, n, x) <= LinkCost(t, n, m) + DirectCost(t, m, x)
  }

  lemma {:induction false} DirectBelowWalk(t: Topology, w: seq<int>, n: int, x: int)
    requires ValidTopology(t) && NoDetours(t) && WalkBetween(t, w, n, x) && n in t.nodes && x in t.nodes
    ensures DirectCost(t, n, x) <= WalkCost(t, w)
  {
    if |w| > 1 {
      var m := WalkStep(t, w, n, x);
      DirectBelowWalk(t, w[1..], m, x);
    }
  }

  lemma DirectIsDistance(t: Topology, n: int, x: int)
    requires ValidTopology(t) && NoDetours(t) && n in t.nodes && x in t.nodes
    ensures IsDistance(t, n, x, DirectCost(t, n, x))
  {
    if DirectCost(t, n, x) < INFINITE_COST {
      var w := DirectWalk(t, n, x);
    }
    forall w | WalkBetween(t, w, n, x)
      ensures DirectCost(t, n, x) <= WalkCost(t, w)
    {
      DirectBelowWalk(t, w, n, x);
    }
  }

  lemma DistanceBelowDetour(t: Topology, n: int, m: int, x: int)
    requires ValidTopology(t) && n in t.nodes && m in t.nodes && x in t.nodes && Linked(t, n, m)
    requires IsDistance(t, n, x, DirectCost(t, n, x))
    ensures DirectCost(t, n, x) <= LinkCost(t, n, m) + DirectCost(t, m, x)
  {
    if DirectCost(t, m, x) < INFINITE_COST {
      var w := DirectWalk(t, m, x);
      WalkExtend(t, n, w);
      assert WalkBetween(t, [n] + w, n, x);
    }
  }

  /** Whatever the node list, a node that has learnt nothing holds the direct costs. */
  lemma HeldAtFirst(t: Topology, n: int, x: int)
    requires n in t.nodes && x in t.nodes
    ensures n in Init(t).nodes && Held(Init(t).nodes[n], x) == DirectCost(t, n, x)
  {
    assert Init(t).nodes[n] == InitialNode(t, n);
  }

  /** The shipped tables hold shortest paths, after any run, exactly when no detour ever pays. */
  lemma ShippedOptimalIff(t: Topology, acts: seq<Action>)
    requires ValidTopology(t) && Legal(SHIPPED, t, acts)
    ensures Optimal(t, Exec(SHIPPED, t, acts)) <==> NoDetours(t)
  {
    NeverLearns(SHIPPED, t, acts);
    DirectOptimalIff(t, Exec(SHIPPED, t, acts));
  }

  lemma DirectOptimalIff(t: Topology, s: Net)
    requires ValidTopology(t) && s.nodes == Init(t).nodes
    ensures Optimal(t, s) <==> NoDetours(t)
  {
    if NoDetours(t) {
      forall n, x | n in t.nodes && x in t.nodes
        ensures n in s.nodes && IsDistance(t, n, x, Held(s.nodes[n], x))
      {
        HeldAtFirst(t, n, x);
        DirectIsDistance(t, n, x);
      }
    }
    if Optimal(t, s) {
      forall n, m, x | n in t.nodes && m in t.nodes && x in t.nodes && Linked(t, n, m)
        ensures DirectCost(t, n, x) <= LinkCost(t, n, m) + DirectCost(t, m, x)
      {
        HeldAtFirst(t, n, x);
        DistanceBelowDetour(t, n, m, x);
      }
    }
  }

  /** Wherever a detour pays, the shipped tables keep the dearer direct entry for good. */
  lemma ShippedKeepsDirect(t: Topology, acts: seq<Action>, n: int, m: int, x: int)
    requires ValidTopology(t) && Legal(SHIPPED, t, acts)
    requires n in t.nodes && m in t.nodes && x in t.nodes && Linked(t, n, m)
    requires LinkCost(t, n, m) + DirectCost(t, m, x) < DirectCost(t, n, x)
    ensures !Optimal(t, Exec(SHIPPED, t, acts))
    ensures n in Exec(SHIPPED, t, acts).nodes && Exec(SHIPPED, t, acts).nodes[n] == InitialNode(t, n)
  {
    ShippedOptimalIff(t, acts);
    NeverLearns(SHIPPED, t, acts);
  }

  // ---------------------------------------------------------------- packets

  /** The packet is where it started, and no node has learnt anything. */
  ghost predicate StillAt(t: Topology, j: Journey, n: int, x: int) {
    j.net.nodes == Init(t).nodes && Mute(j.net) && j.at == n && j.dest == x
  }

  /** Without a link to its destination a packet never leaves. */
  lemma {:induction false} NeverLeaves(t: Topology, j: Journey, es: seq<Event>, n: int, x: int)
    requires ValidTopology(t) && StillAt(t, j, n, x) && n in t.nodes && !Linked(t, n, x)
    requires Legs(SHIPPED, t, j, es)
    ensures StillAt(t, Travel(SHIPPED, t, j, es), n, x)
  {
    if es != [] {
      NeverLeaves(t, j, es[..|es| - 1], n, x);
      var mid := Travel(SHIPPED, t, j, es[..|es| - 1]);
      assert mid.net.nodes[n] == InitialNode(t, n) && !Linked(t, n, -1);
      match es[|es| - 1]
      case Route(a) => MuteStep(SHIPPED, t, mid.net, a);
      case Hop => assert false;
    }
  }

  lemma OneHop(t: Topology, j: Journey, n: int, x: int)
    requires ValidTopology(t) && StillAt(t, j, n, x) && n != x && Linked(t, n, x)
    ensures Legs(SHIPPED, t, j, [Hop]) && Travel(SHIPPED, t, j, [Hop]).at == x
  {
    assert n in t.nodes && x in t.nodes;
    assert j.net.nodes[n] == InitialNode(t, n);
    assert [Hop][..0] == [];
  }

  /** With the shipped tables a packet can get from `n` to `x`, at any time and by any course of
      events, exactly when the two are the same node or neighbours. */
  lemma ShippedArrivesIff(t: Topology, acts: seq<Action>, n: int, x: int)
    requires ValidTopology(t) && Legal(SHIPPED, t, acts) && n in t.nodes && x in t.nodes
    ensures CanArrive(SHIPPED, t, Journey(Exec(SHIPPED, t, acts), n, x, 0, 0)) <==> n == x || Linked(t, n, x)
  {
    NeverLearns(SHIPPED, t, acts);
    var j := Journey(Exec(SHIPPED, t, acts), n, x, 0, 0);
    if n == x {
      var none: seq<Event> := [];
      assert Legs(SHIPPED, t, j, none) && Travel(SHIPPED, t, j, none).at == j.dest;
    } else if Linked(t, n, x) {
      OneHop(t, j, n, x);
      assert Travel(SHIPPED, t, j, [Hop]).at == j.dest;
    } else {
      forall es | Legs(SHIPPED, t, j, es)
        ensures Travel(SHIPPED, t, j, es).at != j.dest
      {
        NeverLeaves(t, j, es, n, x);
      }
    }
  }

  /** The shipped tables are loop free as well: every finite cost is a link its next hop takes. */
  lemma ShippedHopsNearer(t: Topology, acts: seq<Action>)
    requires ValidTopology(t) && Legal(SHIPPED, t, acts)
    ensures Shape(t, Exec(SHIPPED, t, acts)) && HopsNearer(t, Exec(SHIPPED, t, acts))
  {
    NeverLearns(SHIPPED, t, acts);
    InitInv(t);
    SameHops(t, Init(t), Exec(SHIPPED, t, acts));
  }

  lemma SameHops(t: Topology, s: Net, s': Net)
    requires s'.nodes == s.nodes && Shape(t, s) && HopsNearer(t, s)
    ensures Shape(t, s') && HopsNearer(t, s')
  {
    forall n, x | n in t.nodes && Lists(t, n, x) && n != x && s.nodes[n].own[x] < INFINITE_COST
      ensures HopNearer(t, s', n, x)
    {
      assert HopNearer(t, s, n, x);
    }
  }
}
