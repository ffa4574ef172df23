/** When the network has nothing left to say: quiet rows are optimal rows. */
module Quiescence {
  import opened Topology
  import opened DistanceVector
  import opened RoutingProtocol

  /** No vector in flight and no fresh broadcast would change any node. */
  ghost predicate Quiescent(b: Build, t: Topology, s: Net)
    requires Shape(t, s)
  {
    forall n, a: Advert | n in t.nodes && Linked(t, n, a.src) && Pending(b, t, s, a) ::
      Hear(b, t, s, n, a) == s.nodes[n]
  }

  /** None would change any cost. */
  ghost predicate RowsQuiet(b: Build, t: Topology, s: Net)
    requires Shape(t, s)
  {
    forall n, a: Advert | n in t.nodes && Linked(t, n, a.src) && Pending(b, t, s, a) ::
      Hear(b, t, s, n, a).own == s.nodes[n].own
  }

  ghost predicate Pending(b: Build, t: Topology, s: Net, a: Advert)
    requires Shape(t, s)
  {
    a.src in t.nodes && (a in s.adverts || a == FreshAdvert(b, t, s, a.src))
  }

  /** Every cost kept is the length of a shortest way. */
  ghost predicate RowsOptimal(t: Topology, s: Net)
    requires Shape(t, s)
  {
    forall n, x :: n in t.nodes && Lists(t, n, x) ==> IsWayDistance(t, n, x, s.nodes[n].own[x])
  }

  /** The cost a node holds for another; one that it keeps no entry for is out of reach. */
  function Held(n: Node, x: int): int {
    if x in n.own then n.own[x] else INFINITE_COST
  }

  /** Every node holds the shortest-path distance to every other. */
  ghost predicate Optimal(t: Topology, s: Net) {
    forall n, x :: n in t.nodes && x in t.nodes ==> n in s.nodes && IsDistance(t, n, x, Held(s.nodes[n], x))
  }

  /** If no fresh broadcast helps, no way beats the row. */
  lemma {:induction false} QuietBelowWay(b: Build, t: Topology, s: Net, w: seq<int>, n: int, x: int)
    requires b.readsOwnRow && ValidTopology(t) && Inv(t, s) && RowsQuiet(b, t, s)
    requires Way(t, w, n, x) && n in t.nodes && Lists(t, n, x)
    ensures s.nodes[n].own[x] <= WalkCost(t, w)
  {
    if |w| > 1 {
      var m := WayStep(t, w, n, x);
      QuietBelowWay(b, t, s, w[1..], m, x);
      QuietBelowNeighbour(b, t, s, n, m, x);
    }
  }

  lemma QuietBelowNeighbour(b: Build, t: Topology, s: Net, n: int, m: int, x: int)
    requires b.readsOwnRow && ValidTopology(t) && Inv(t, s) && RowsQuiet(b, t, s)
    requires n in t.nodes && m in t.nodes && Lists(t, n, x) && Lists(t, m, x) && Linked(t, n, m)
    ensures s.nodes[n].own[x] <= LinkCost(t, n, m) + s.nodes[m].own[x]
  {
    var a := FreshAdvert(b, t, s, m);
    assert Hear(b, t, s, n, a).own == s.nodes[n].own;
    RelaxAllIsMinimum(b, s.nodes[n], m, LinkCost(t, n, m), a.entries, x);
    FreshHas(b, t, s, m, x);
  }

  /** A network that keeps the invariant has quiet rows exactly when every row is optimal. */
  lemma RowsQuietIffOptimal(b: Build, t: Topology, s: Net)
    requires b.readsOwnRow && ValidTopology(t) && Inv(t, s)
    ensures RowsQuiet(b, t, s) <==> RowsOptimal(t, s)
  {
    if RowsQuiet(b, t, s) {
      forall n, x | n in t.nodes && Lists(t, n, x)
        ensures IsWayDistance(t, n, x, s.nodes[n].own[x])
      {
        assert Backed(t, n, x, s.nodes[n].own[x]);
        forall w | Way(t, w, n, x)
          ensures s.nodes[n].own[x] <= WalkCost(t, w)
        {
          QuietBelowWay(b, t, s, w, n, x);
        }
      }
    }
    if RowsOptimal(t, s) {
      forall n, a: Advert | n in t.nodes && Linked(t, n, a.src) && Pending(b, t, s, a)
        ensures Hear(b, t, s, n, a).own == s.nodes[n].own
      {
        OptimalRowKept(b, t, s, n, a);
      }
    }
  }

  lemma OptimalRowKept(b: Build, t: Topology, s: Net, n: int, a: Advert)
    requires b.readsOwnRow && ValidTopology(t) && Inv(t, s) && RowsOptimal(t, s)
    requires n in t.nodes && Linked(t, n, a.src) && Pending(b, t, s, a)
    ensures Hear(b, t, s, n, a).own == s.nodes[n].own
  {
    var row, row' := s.nodes[n].own, Hear(b, t, s, n, a).own;
    HearEntry(b, t, s, n, a, n);
    assert RowShape(t, n, row);
    forall x | x in row
      ensures row'[x] == row[x]
    {
      HearEntry(b, t, s, n, a, x);
      assert IsWayDistance(t, n, x, row[x]);
    }
  }

  /** If all nodes are listed, optimal rows are shortest paths and leave nothing to change. */
  lemma ListingAll(b: Build, t: Topology, s: Net)
    requires b.readsOwnRow && ValidTopology(t) && Inv(t, s) && t.listsAll
    ensures RowsOptimal(t, s) <==> Optimal(t, s)
    ensures RowsOptimal(t, s) <==> Quiescent(b, t, s)
  {
    forall n, x | n in t.nodes && x in t.nodes
      ensures IsWayDistance(t, n, x, s.nodes[n].own[x]) <==> IsDistance(t, n, x, Held(s.nodes[n], x))
    {
      AllWalksAreWays(t, n, x, s.nodes[n].own[x]);
    }
    RowsQuietIffOptimal(b, t, s);
    if RowsOptimal(t, s) {
      forall n, a: Advert | n in t.nodes && Linked(t, n, a.src) && Pending(b, t, s, a)
        ensures Hear(b, t, s, n, a) == s.nodes[n]
      {
        OptimalIsDeaf(b, t, s, n, a);
      }
    }
  }

  lemma OptimalIsDeaf(b: Build, t: Topology, s: Net, n: int, a: Advert)
    requires b.readsOwnRow && ValidTopology(t) && Inv(t, s) && RowsOptimal(t, s) && t.listsAll
    requires n in t.nodes && Linked(t, n, a.src) && Pending(b, t, s, a)
    ensures Hear(b, t, s, n, a) == s.nodes[n]
  {
    forall e | e in a.entries
      ensures OwnCost(b, s.nodes[n].own, e.dest) <= LinkCost(t, n, a.src) + e.cost
    {
      if a !in s.adverts {
        FreshEntry(b, t, s, a.src, e);
      }
      assert Lags(t, s, a.src, e) && Backed(t, a.src, e.dest, e.cost);
      assert IsWayDistance(t, n, e.dest, s.nodes[n].own[e.dest]);
      BackedThroughLink(t, n, a.src, e.dest, e.cost);
    }
    RelaxAllUnchanged(b, s.nodes[n], a.src, LinkCost(t, n, a.src), a.entries);
  }

  /** After any run: no pending vector would change a cost exactly when every row is optimal; and if
      all nodes are listed, none would change anything exactly when every row is a shortest path. */
  lemma QuietRunIffOptimal(b: Build, t: Topology, acts: seq<Action>)
    requires b.readsOwnRow && ValidTopology(t) && Legal(b, t, acts)
    ensures Inv(t, Exec(b, t, acts))
    ensures RowsQuiet(b, t, Exec(b, t, acts)) <==> RowsOptimal(t, Exec(b, t, acts))
    ensures t.listsAll ==> (Quiescent(b, t, Exec(b, t, acts)) <==> Optimal(t, Exec(b, t, acts)))
  {
    ReachableInv(b, t, acts);
    RowsQuietIffOptimal(b, t, Exec(b, t, acts));
    if t.listsAll {
      ListingAll(b, t, Exec(b, t, acts));
    }
  }
}
