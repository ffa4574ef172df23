/** The overlay's topology: nodes, symmetric link costs, walks and shortest distances. */
module Topology {
  import opened Sequences

  /** Cost standing for "not connected". */
  const INFINITE_COST := 999

  /** `listsAll` says what the list of nodes is that each node builds its rows from: all nodes of the
      overlay, as the distance-vector table asks for, or only its neighbours and itself, as the
      topology code collects it. */
  datatype Topology = Topology(nodes: seq<int>, links: map<(int, int), int>, listsAll: bool)

  /** Positive, pairwise distinct node IDs; links join two different nodes of the overlay,
      are listed in both directions at one cost, and cost more than 0 and less than infinity. */
  ghost predicate ValidTopology(t: Topology) {
    && Distinct(t.nodes)
    && (forall n :: n in t.nodes ==> 0 < n)
    && (forall a, b :: (a, b) in t.links ==>
          && a in t.nodes && b in t.nodes && a != b
          && 0 < t.links[(a, b)] < INFINITE_COST
          && (b, a) in t.links && t.links[(b, a)] == t.links[(a, b)])
  }

  predicate Linked(t: Topology, a: int, b: int) {
    (a, b) in t.links
  }

  function LinkCost(t: Topology, a: int, b: int): int
    requires Linked(t, a, b)
  {
    t.links[(a, b)]
  }

  /** The direct cost between two nodes, as read from the topology file. */
  function DirectCost(t: Topology, a: int, b: int): int {
    if a == b then 0 else if Linked(t, a, b) then LinkCost(t, a, b) else INFINITE_COST
  }

  /** Node `n` keeps costs for node `x`. */
  predicate Lists(t: Topology, n: int, x: int) {
    x in t.nodes && (t.listsAll || x == n || Linked(t, n, x))
  }

  /** The nodes among `nodes` that `n` keeps costs for, in order. */
  function ListedAmong(t: Topology, n: int, nodes: seq<int>): (r: seq<int>)
    ensures forall x :: x in r <==> x in nodes && Lists(t, n, x)
    ensures Distinct(nodes) ==> Distinct(r)
  {
    if nodes == [] then []
    else ListedAmong(t, n, nodes[..|nodes| - 1]) +
         (if Lists(t, n, nodes[|nodes| - 1]) then [nodes[|nodes| - 1]] else [])
  }

  /** The list of nodes that `n` works with. */
  function NodeList(t: Topology, n: int): (r: seq<int>)
    ensures forall x :: x in r <==> Lists(t, n, x)
    ensures ValidTopology(t) ==> Distinct(r)
  {
    ListedAmong(t, n, t.nodes)
  }

  /** A walk is a nonempty list of nodes, each linked to the next. */
  ghost predicate IsWalk(t: Topology, w: seq<int>) {
    w != [] && w[0] in t.nodes && (|w| > 1 ==> Linked(t, w[0], w[1]) && IsWalk(t, w[1..]))
  }

  lemma {:induction false} WalkNodes(t: Topology, w: seq<int>)
    requires IsWalk(t, w)
    ensures forall x :: x in w ==> x in t.nodes
  {
    if |w| > 1 {
      WalkNodes(t, w[1..]);
      assert w == [w[0]] + w[1..];
    }
  }

  ghost predicate WalkBetween(t: Topology, w: seq<int>, a: int, b: int) {
    IsWalk(t, w) && w[0] == a && w[|w| - 1] == b
  }

  ghost function WalkCost(t: Topology, w: seq<int>): int
    requires IsWalk(t, w)
  {
    if |w| == 1 then 0 else LinkCost(t, w[0], w[1]) + WalkCost(t, w[1..])
  }

  /** `d` is the length of a shortest path from `a` to `b`, capped at INFINITE_COST. */
  ghost predicate IsDistance(t: Topology, a: int, b: int, d: int) {
    && d <= INFINITE_COST
    && (forall w :: WalkBetween(t, w, a, b) ==> d <= WalkCost(t, w))
    && (d < INFINITE_COST ==> exists w :: WalkBetween(t, w, a, b) && WalkCost(t, w) == d)
  }

  /** A walk to `b` along nodes that all keep costs for `b`, so that word of it can travel back. */
  ghost predicate Way(t: Topology, w: seq<int>, a: int, b: int) {
    WalkBetween(t, w, a, b) && forall m :: m in w ==> Lists(t, m, b)
  }

  /** `d` is the length of a shortest way from `a` to `b`, capped at INFINITE_COST. */
  ghost predicate IsWayDistance(t: Topology, a: int, b: int, d: int) {
    && d <= INFINITE_COST
    && (forall w :: Way(t, w, a, b) ==> d <= WalkCost(t, w))
    && (d < INFINITE_COST ==> exists w :: Way(t, w, a, b) && WalkCost(t, w) == d)
  }

  /** If all nodes are listed, ways are walks. */
  lemma AllWalksAreWays(t: Topology, a: int, b: int, d: int)
    requires t.listsAll
    ensures IsWayDistance(t, a, b, d) <==> IsDistance(t, a, b, d)
  {
    forall w | WalkBetween(t, w, a, b)
      ensures Way(t, w, a, b)
    {
      WalkNodes(t, w);
    }
    if IsDistance(t, a, b, d) && d < INFINITE_COST {
      var w :| WalkBetween(t, w, a, b) && WalkCost(t, w) == d;
      assert Way(t, w, a, b);
    }
  }

  /** Take the first link off a way. */
  lemma WayStep(t: Topology, w: seq<int>, n: int, x: int) returns (m: int)
    requires Way(t, w, n, x) && |w| > 1
    ensures m in t.nodes && Linked(t, n, m) && Lists(t, n, x) && Lists(t, m, x)
    ensures Way(t, w[1..], m, x) && WalkCost(t, w) == LinkCost(t, n, m) + WalkCost(t, w[1..])
  {
    m := w[1];
    assert IsWalk(t, w[1..]);
  }

  /** Take the first link off a walk. */
  lemma WalkStep(t: Topology, w: seq<int>, n: int, x: int) returns (m: int)
    requires WalkBetween(t, w, n, x) && |w| > 1
    ensures m in t.nodes && Linked(t, n, m)
    ensures WalkBetween(t, w[1..], m, x) && WalkCost(t, w) == LinkCost(t, n, m) + WalkCost(t, w[1..])
  {
    m := w[1];
    assert IsWalk(t, w[1..]);
  }

  /** A finite direct cost is that of a walk. */
  lemma DirectWalk(t: Topology, n: int, x: int) returns (w: seq<int>)
    requires ValidTopology(t) && n in t.nodes && x in t.nodes && DirectCost(t, n, x) < INFINITE_COST
    ensures WalkBetween(t, w, n, x) && WalkCost(t, w) == DirectCost(t, n, x)
    ensures forall m :: m in w ==> m == n || m == x
  {
    if n == x {
      w := [n];
    } else {
      w := [n] + [x];
      WalkExtend(t, n, [x]);
    }
  }

  /** Every step of a walk costs at least one, so only the empty walk is free. */
  lemma {:induction false} WalkCostPositive(t: Topology, w: seq<int>)
    requires ValidTopology(t) && IsWalk(t, w)
    ensures |w| - 1 <= WalkCost(t, w)
  {
    if |w| > 1 {
      WalkCostPositive(t, w[1..]);
    }
  }

  lemma WalkExtend(t: Topology, a: int, w: seq<int>)
    requires ValidTopology(t) && IsWalk(t, w) && Linked(t, a, w[0])
    ensures IsWalk(t, [a] + w)
    ensures WalkCost(t, [a] + w) == LinkCost(t, a, w[0]) + WalkCost(t, w)
  {
    assert ([a] + w)[1..] == w;
  }

  /** Walking the first part up to node `i` and the rest from there costs what the whole costs. */
  lemma {:induction false} WalkSplit(t: Topology, w: seq<int>, i: nat)
    requires IsWalk(t, w) && i < |w|
    ensures IsWalk(t, w[..i + 1]) && IsWalk(t, w[i..])
    ensures WalkCost(t, w) == WalkCost(t, w[..i + 1]) + WalkCost(t, w[i..])
  {
    if i == 0 {
      assert w[0..] == w;
    } else {
      WalkSplit(t, w[1..], i - 1);
      assert w[1..][..i] == w[..i + 1][1..];
      assert w[1..][i - 1..] == w[i..];
    }
  }

  lemma {:induction false} WalkJoin(t: Topology, u: seq<int>, v: seq<int>)
    requires IsWalk(t, u) && IsWalk(t, v) && u[|u| - 1] == v[0]
    ensures IsWalk(t, u + v[1..]) && WalkCost(t, u + v[1..]) == WalkCost(t, u) + WalkCost(t, v)
  {
    if |u| == 1 {
      assert u + v[1..] == v;
    } else {
      WalkJoin(t, u[1..], v);
      assert (u + v[1..])[1..] == u[1..] + v[1..];
    }
  }

  /** Cutting a cycle out of a walk keeps its ends and makes it cheaper and shorter. */
  lemma CutCycle(t: Topology, w: seq<int>, i: nat, j: nat) returns (r: seq<int>)
    requires ValidTopology(t) && IsWalk(t, w) && i < j < |w| && w[i] == w[j]
    ensures WalkBetween(t, r, w[0], w[|w| - 1])
    ensures |r| < |w| && WalkCost(t, r) < WalkCost(t, w)
    ensures forall m :: m in r ==> m in w
  {
    WalkSplit(t, w, i);
    WalkSplit(t, w[i..], j - i);
    assert w[i..][j - i..] == w[j..];
    WalkCostPositive(t, w[i..][..j - i + 1]);
    WalkJoin(t, w[..i + 1], w[j..]);
    r := w[..i + 1] + w[j..][1..];
  }

  /** No walk is cheaper than every walk of at most |nodes| nodes. */
  lemma {:induction false} ShortWalkSuffices(t: Topology, w: seq<int>) returns (r: seq<int>)
    requires ValidTopology(t) && IsWalk(t, w)
    ensures WalkBetween(t, r, w[0], w[|w| - 1])
    ensures |r| <= |t.nodes| && WalkCost(t, r) <= WalkCost(t, w)
    ensures forall m :: m in r ==> m in w
    decreases |w|
  {
    if |w| <= |t.nodes| {
      r := w;
    } else {
      WalkNodes(t, w);
      var i, j := Pigeonhole(w, t.nodes);
      var cut := CutCycle(t, w, i, j);
      r := ShortWalkSuffices(t, cut);
    }
  }

  lemma DistanceUnique(t: Topology, a: int, b: int, d: int, e: int)
    requires IsDistance(t, a, b, d) && IsDistance(t, a, b, e)
    ensures d == e
  {
  }
}
