/** Routing when next hops are only ever appended: the first hop recorded for a destination stays.
    Costs still converge, but packets follow the first hop, not the best one. */
module FirstHop {
  import opened Sequences
  import opened Topology
  import opened DistanceVector
  import opened RoutingProtocol
  import opened Convergence
  import opened Forwarding

  /** Own row readable, next hops append-only. */
  const APPEND_ONLY := Build(true, false)

  /** `rank` counts, for every node that has a way to `x`, the next hops left to `x`. */
  ghost predicate Ranked(t: Topology, s: Net, x: int, rank: map<int, nat>)
    requires Shape(t, s) && x in t.nodes
  {
    && (forall n :: n in rank <==> n in t.nodes && Lists(t, n, x) && s.nodes[n].own[x] < INFINITE_COST)
    && (forall n :: n in t.nodes && Lists(t, n, x) && n != x && x in s.nodes[n].next ==> n in rank)
    && (forall n {:trigger HopDown(t, s, x, rank, n)} :: n in rank && n != x ==> HopDown(t, s, x, rank, n))
  }

  ghost predicate HopDown(t: Topology, s: Net, x: int, rank: map<int, nat>, n: int)
    requires n in rank && n in s.nodes
  {
    && x in s.nodes[n].next
    && var m := s.nodes[n].next[x];
       Linked(t, n, m) && m in rank && rank[n] == rank[m] + 1
  }

  lemma InitRanked(t: Topology, x: int) returns (rank: map<int, nat>)
    requires ValidTopology(t) && x in t.nodes
    ensures Shape(t, Init(t)) && Ranked(t, Init(t), x, rank)
  {
    InitShape(t);
    rank := map n | n in t.nodes && Lists(t, n, x) && Init(t).nodes[n].own[x] < INFINITE_COST ::
      if n == x then 0 else 1;
    forall n | n in rank && n != x
      ensures HopDown(t, Init(t), x, rank, n)
    {
      assert Init(t).nodes[n] == InitialNode(t, n) && Init(t).nodes[x] == InitialNode(t, x);
    }
  }

  /** `s'` differs from `s` at most in node `n`. */
  ghost predicate OnlyAt(s: Net, s': Net, n: int) {
    s'.nodes.Keys == s.nodes.Keys && forall k :: k in s.nodes && k != n ==> s'.nodes[k] == s.nodes[k]
  }

  lemma KeepRank(t: Topology, s: Net, s': Net, n: int, x: int, rank: map<int, nat>)
    requires Shape(t, s) && Shape(t, s') && x in t.nodes && n in t.nodes && OnlyAt(s, s', n)
    requires Ranked(t, s, x, rank) && Lists(t, n, x)
    requires s'.nodes[n].own[x] < INFINITE_COST <==> n in rank
    requires x in s'.nodes[n].next <==> x in s.nodes[n].next
    requires x in s.nodes[n].next ==> s'.nodes[n].next[x] == s.nodes[n].next[x]
    ensures Ranked(t, s', x, rank)
  {
    forall k | k in rank && k != x
      ensures HopDown(t, s', x, rank, k)
    {
      assert HopDown(t, s, x, rank, k);
    }
  }

  lemma ExtendRank(t: Topology, s: Net, s': Net, n: int, m: int, x: int, rank: map<int, nat>)
    requires Shape(t, s) && Shape(t, s') && x in t.nodes && n in t.nodes && OnlyAt(s, s', n)
    requires Ranked(t, s, x, rank) && Lists(t, n, x) && n !in rank && m in rank && Linked(t, n, m)
    requires s'.nodes[n].own[x] < INFINITE_COST && x in s'.nodes[n].next && s'.nodes[n].next[x] == m
    ensures Ranked(t, s', x, rank[n := rank[m] + 1])
  {
    var rank' := rank[n := rank[m] + 1];
    forall k | k in rank' && k != x
      ensures HopDown(t, s', x, rank', k)
    {
      if k != n {
        assert HopDown(t, s, x, rank, k);
      }
    }
  }

  /** What a node that keeps no cost for `x` does is of no account. */
  lemma UnlistedRank(t: Topology, s: Net, s': Net, n: int, x: int, rank: map<int, nat>)
    requires Shape(t, s) && Shape(t, s') && x in t.nodes && n in t.nodes && OnlyAt(s, s', n)
    requires Ranked(t, s, x, rank) && !Lists(t, n, x)
    ensures Ranked(t, s', x, rank)
  {
    forall k | k in rank && k != x
      ensures HopDown(t, s', x, rank, k)
    {
      assert HopDown(t, s, x, rank, k);
    }
  }

  /** Append-only next hops: set by the first fall in cost, untouched by every later one. */
  lemma HopStays(n: Node, src: int, link: int, es: seq<Entry>, x: int)
    requires 0 < src && 0 < x && x in n.own
    ensures var r := RelaxAll(APPEND_ONLY, n, src, link, es);
            && x in r.own
            && (x in n.next ==> x in r.next && r.next[x] == n.next[x])
            && (x !in n.next && r.own[x] < n.own[x] ==> x in r.next && r.next[x] == src)
            && (x !in n.next && n.own[x] <= r.own[x] ==> x !in r.next)
  {
    RelaxAllHop(APPEND_ONLY, n, src, link, es, x);
  }

  /** What an append-only delivery from `m` does to node `n`'s entry for `x`. */
  ghost predicate EntryStep(s: Net, s': Net, n: int, m: int, x: int)
    requires n in s.nodes && n in s'.nodes && m in s.nodes
    requires x in s.nodes[n].own && x in s'.nodes[n].own
  {
    var u, v := s.nodes[n], s'.nodes[n];
    && v.own[x] <= u.own[x]
    && (x in u.next ==> x in v.next && v.next[x] == u.next[x])
    && (x !in u.next && v.own[x] == u.own[x] ==> x !in v.next)
    && (v.own[x] < u.own[x] ==>
          x in s.nodes[m].own && s.nodes[m].own[x] < INFINITE_COST && x in v.next)
    && (x !in u.next && v.own[x] < u.own[x] ==> v.next[x] == m)
  }

  lemma DeliverEntryStep(t: Topology, s: Net, a: Advert, n: int, x: int)
    requires ValidTopology(t) && Inv(t, s) && Lists(t, n, x)
    requires n in t.nodes && a.src in t.nodes && Enabled(t, s, Deliver(a, n))
    ensures Shape(t, Apply(APPEND_ONLY, t, s, Deliver(a, n)))
    ensures EntryStep(s, Apply(APPEND_ONLY, t, s, Deliver(a, n)), n, a.src, x)
  {
    DeliverShape(APPEND_ONLY, t, s, a, n);
    HearEntry(APPEND_ONLY, t, s, n, a, x);
    HopStays(s.nodes[n], a.src, LinkCost(t, n, a.src), a.entries, x);
  }

  lemma RankAfter(t: Topology, s: Net, s': Net, n: int, m: int, x: int, rank: map<int, nat>)
    returns (rank': map<int, nat>)
    requires Shape(t, s) && Shape(t, s') && x in t.nodes && n in t.nodes && m in t.nodes && OnlyAt(s, s', n)
    requires Ranked(t, s, x, rank) && Lists(t, n, x) && Linked(t, n, m) && EntryStep(s, s', n, m, x)
    ensures Ranked(t, s', x, rank') && Extends(rank, rank')
  {
    if n in rank || s'.nodes[n].own[x] == INFINITE_COST {
      if n in rank && n != x {
        assert HopDown(t, s, x, rank, n);
      }
      KeepRank(t, s, s', n, x, rank);
      rank' := rank;
    } else {
      ExtendRank(t, s, s', n, m, x, rank);
      rank' := rank[n := rank[m] + 1];
    }
  }

  /** A delivery never disturbs the order; it can only add the receiver on top of its sender. */
  lemma DeliverRanked(t: Topology, s: Net, a: Advert, n: int, x: int, rank: map<int, nat>)
    returns (rank': map<int, nat>)
    requires ValidTopology(t) && Inv(t, s) && x in t.nodes && Ranked(t, s, x, rank)
    requires n in t.nodes && a.src in t.nodes && Enabled(t, s, Deliver(a, n))
    ensures Inv(t, Apply(APPEND_ONLY, t, s, Deliver(a, n)))
    ensures Ranked(t, Apply(APPEND_ONLY, t, s, Deliver(a, n)), x, rank')
    ensures Extends(rank, rank')
  {
    DeliverKeepsInv(APPEND_ONLY, t, s, a, n);
    var s' := Apply(APPEND_ONLY, t, s, Deliver(a, n));
    if Lists(t, n, x) {
      DeliverEntryStep(t, s, a, n, x);
      rank' := RankAfter(t, s, s', n, a.src, x, rank);
    } else {
      UnlistedRank(t, s, s', n, x, rank);
      rank' := rank;
    }
  }

  ghost predicate Extends(rank: map<int, nat>, rank': map<int, nat>) {
    rank.Keys <= rank'.Keys && forall k :: k in rank ==> rank'[k] == rank[k]
  }

  lemma {:induction false} ReachableRanked(t: Topology, acts: seq<Action>, x: int) returns (rank: map<int, nat>)
    requires ValidTopology(t) && Legal(APPEND_ONLY, t, acts) && x in t.nodes
    ensures Inv(t, Exec(APPEND_ONLY, t, acts)) && Ranked(t, Exec(APPEND_ONLY, t, acts), x, rank)
  {
    if acts == [] {
      InitInv(t);
      rank := InitRanked(t, x);
    } else {
      var init, a := acts[..|acts| - 1], acts[|acts| - 1];
      rank := ReachableRanked(t, init, x);
      rank := StepRanked(t, Exec(APPEND_ONLY, t, init), a, x, rank);
    }
  }

  lemma StepRanked(t: Topology, s: Net, a: Action, x: int, rank: map<int, nat>) returns (rank': map<int, nat>)
    requires ValidTopology(t) && Inv(t, s) && x in t.nodes && Ranked(t, s, x, rank) && Enabled(t, s, a)
    ensures Inv(t, Apply(APPEND_ONLY, t, s, a)) && Ranked(t, Apply(APPEND_ONLY, t, s, a), x, rank')
    ensures Extends(rank, rank')
  {
    match a
    case Broadcast(n) =>
      BroadcastKeepsInv(APPEND_ONLY, t, s, n);
      rank' := rank;
      forall k | k in rank' && k != x
        ensures HopDown(t, Apply(APPEND_ONLY, t, s, a), x, rank', k)
      {
        assert HopDown(t, s, x, rank, k);
      }
    case Deliver(ad, n) =>
      rank' := DeliverRanked(t, s, ad, n, x, rank);
  }

  /** The packet is at a ranked node, and every hop so far has cost it a rank. */
  ghost predicate Descending(t: Topology, j: Journey, bound: nat, rank: map<int, nat>) {
    && Inv(t, j.net) && j.dest in t.nodes && Ranked(t, j.net, j.dest, rank)
    && j.dest in rank && j.at in rank && j.hops + rank[j.at] <= bound + rank[j.dest]
  }

  lemma {:induction false} TravelDescends(t: Topology, j: Journey, es: seq<Event>, bound: nat, rank: map<int, nat>)
    returns (rank': map<int, nat>)
    requires ValidTopology(t) && Descending(t, j, bound, rank) && Legs(APPEND_ONLY, t, j, es)
    ensures Descending(t, Travel(APPEND_ONLY, t, j, es), bound, rank')
    ensures Travel(APPEND_ONLY, t, j, es).dest == j.dest
  {
    if es == [] {
      rank' := rank;
    } else {
      var r := TravelDescends(t, j, es[..|es| - 1], bound, rank);
      rank' := MoveDescends(t, Travel(APPEND_ONLY, t, j, es[..|es| - 1]), es[|es| - 1], bound, r);
    }
  }

  lemma MoveDescends(t: Topology, j: Journey, e: Event, bound: nat, rank: map<int, nat>)
    returns (rank': map<int, nat>)
    requires ValidTopology(t) && Descending(t, j, bound, rank) && Possible(t, j, e)
    ensures Descending(t, Move(APPEND_ONLY, t, j, e), bound, rank')
    ensures Move(APPEND_ONLY, t, j, e).dest == j.dest
  {
    match e
    case Route(a) => rank' := StepRanked(t, j.net, a, j.dest, rank);
    case Hop =>
      rank' := rank;
      assert HopDown(t, j.net, j.dest, rank, j.at);
  }

  /** The next hops from `n` to `x`, as a list of nodes. */
  ghost function Chain(t: Topology, s: Net, x: int, rank: map<int, nat>, n: int): (c: seq<int>)
    requires Shape(t, s) && x in t.nodes && Ranked(t, s, x, rank) && n in rank
    ensures c != [] && c[0] == n
    decreases rank[n]
  {
    if n == x then [x] else
    assert HopDown(t, s, x, rank, n);
    [n] + Chain(t, s, x, rank, s.nodes[n].next[x])
  }

  lemma {:induction false} ChainDescends(t: Topology, s: Net, x: int, rank: map<int, nat>, n: int)
    requires Shape(t, s) && x in t.nodes && Ranked(t, s, x, rank) && n in rank
    ensures var c := Chain(t, s, x, rank, n);
            && (forall k :: k in c ==> k in rank && rank[k] <= rank[n])
            && Distinct(c)
            && x in rank && |c| + rank[x] == rank[n] + 1
    decreases rank[n]
  {
    if n != x {
      assert HopDown(t, s, x, rank, n);
      ChainDescends(t, s, x, rank, s.nodes[n].next[x]);
    }
  }

  lemma RankBounded(t: Topology, s: Net, x: int, rank: map<int, nat>, n: int)
    requires ValidTopology(t) && Shape(t, s) && x in t.nodes && Ranked(t, s, x, rank) && n in rank
    ensures x in rank && rank[n] < rank[x] + |t.nodes|
  {
    ChainDescends(t, s, x, rank, n);
    var c := Chain(t, s, x, rank, n);
    ElementsSize(c);
    ElementsSize(t.nodes);
    assert Elements(c) <= Elements(t.nodes);
    SubsetSize(Elements(c), Elements(t.nodes));
  }

  ghost predicate ArrivesWithin(t: Topology, j: Journey, bound: int) {
    j.hops <= bound && (j.at != j.dest ==> CanHop(t, j) && j.hops < bound)
  }

  /** Even append-only tables never send a packet round in circles: whatever updates interleave,
      a packet for a node its sender has a cost to can always move on until it is there, and it
      is there within |nodes| - 1 hops. */
  lemma AppendOnlyArrives(t: Topology, acts: seq<Action>, s: Net, n: int, x: int, es: seq<Event>)
    requires ValidTopology(t) && Legal(APPEND_ONLY, t, acts) && s == Exec(APPEND_ONLY, t, acts)
    requires n in s.nodes && x in s.nodes[n].own && s.nodes[n].own[x] < INFINITE_COST
    requires Legs(APPEND_ONLY, t, Journey(s, n, x, 0, 0), es)
    ensures ArrivesWithin(t, Travel(APPEND_ONLY, t, Journey(s, n, x, 0, 0), es), |t.nodes| - 1)
    ensures Travel(APPEND_ONLY, t, Journey(s, n, x, 0, 0), es).dest == x
  {
    ReachableInv(APPEND_ONLY, t, acts);
    var rank := ReachableRanked(t, acts, x);
    JourneyArrives(t, Journey(s, n, x, 0, 0), es, rank);
  }

  lemma JourneyArrives(t: Topology, j: Journey, es: seq<Event>, rank: map<int, nat>)
    requires ValidTopology(t) && Inv(t, j.net) && j.dest in t.nodes && Ranked(t, j.net, j.dest, rank)
    requires j.at in rank && j.hops == 0 && Legs(APPEND_ONLY, t, j, es)
    ensures ArrivesWithin(t, Travel(APPEND_ONLY, t, j, es), |t.nodes| - 1)
    ensures Travel(APPEND_ONLY, t, j, es).dest == j.dest
  {
    RankBounded(t, j.net, j.dest, rank, j.at);
    var r := TravelDescends(t, j, es, |t.nodes| - 1, rank);
    DescendingArrives(t, Travel(APPEND_ONLY, t, j, es), |t.nodes| - 1, r);
  }

  lemma DescendingArrives(t: Topology, j: Journey, bound: nat, rank: map<int, nat>)
    requires ValidTopology(t) && Descending(t, j, bound, rank)
    ensures ArrivesWithin(t, j, bound)
  {
    if j.at != j.dest {
      assert HopDown(t, j.net, j.dest, rank, j.at);
      RankAbove(t, j.net, j.dest, rank, j.at);
    }
  }

  lemma RankAbove(t: Topology, s: Net, x: int, rank: map<int, nat>, n: int)
    requires ValidTopology(t) && Shape(t, s) && x in t.nodes && Ranked(t, s, x, rank) && n in rank && n != x
    ensures x in rank && rank[x] < rank[n]
  {
    ChainDescends(t, s, x, rank, n);
    assert |Chain(t, s, x, rank, n)| > 1;
  }

  /** But they do leave packets on worse routes: wherever two links beat a direct one, hearing the
      node in between lowers the cost and leaves the next hop on the dearer link. */
  lemma AppendOnlyKeepsWorseHop(t: Topology, n: int, m: int, x: int)
    requires ValidTopology(t) && n in t.nodes && m in t.nodes && x in t.nodes
    requires Linked(t, n, x) && Linked(t, n, m) && Linked(t, m, x)
    requires LinkCost(t, n, m) + LinkCost(t, m, x) < LinkCost(t, n, x)
    ensures m in Init(t).nodes && Legal(APPEND_ONLY, t, TellOnce(APPEND_ONLY, t, m, n))
    ensures var s := Exec(APPEND_ONLY, t, TellOnce(APPEND_ONLY, t, m, n));
            Shape(t, s) && !HopsNearer(t, s)
  {
    InitInv(t);
    TwoSteps(APPEND_ONLY, t, m, n);
    HearingKeepsHop(t, Init(t), n, m, x);
  }

  /** The run in which `m` broadcasts once and `n` hears it. */
  function TellOnce(b: Build, t: Topology, m: int, n: int): seq<Action>
    requires m in Init(t).nodes
  {
    [Broadcast(m), Deliver(FreshAdvert(b, t, Init(t), m), n)]
  }

  lemma TwoSteps(b: Build, t: Topology, m: int, n: int)
    requires m in Init(t).nodes && n in Init(t).nodes && Linked(t, n, m)
    ensures Legal(b, t, TellOnce(b, t, m, n))
    ensures var a := FreshAdvert(b, t, Init(t), m);
            Exec(b, t, TellOnce(b, t, m, n)) == Apply(b, t, Init(t).(adverts := {a}), Deliver(a, n))
  {
    var acts := TellOnce(b, t, m, n);
    assert acts[..1] == [Broadcast(m)] && acts[..1][..0] == [];
    assert Legal(b, t, acts[..1]);
    assert Exec(b, t, acts[..1]) == Init(t).(adverts := {FreshAdvert(b, t, Init(t), m)});
  }

  /** A node starts with its links as costs and as next hops. */
  lemma LinkedAtFirst(t: Topology, n: int, x: int)
    requires ValidTopology(t) && Linked(t, n, x)
    ensures n in Init(t).nodes && x in Init(t).nodes[n].own && x in Init(t).nodes[n].next
    ensures Init(t).nodes[n].own[x] == LinkCost(t, n, x) && Init(t).nodes[n].next[x] == x
  {
    assert n in t.nodes && x in t.nodes && Lists(t, n, x);
    assert Init(t).nodes[n] == InitialNode(t, n);
  }

  lemma HearingKeepsHop(t: Topology, s0: Net, n: int, m: int, x: int)
    requires ValidTopology(t) && n in t.nodes && m in t.nodes && x in t.nodes && s0 == Init(t) && Inv(t, s0)
    requires Linked(t, n, x) && Linked(t, n, m) && Linked(t, m, x)
    requires LinkCost(t, n, m) + LinkCost(t, m, x) < LinkCost(t, n, x)
    ensures var a := FreshAdvert(APPEND_ONLY, t, s0, m);
            var s2 := Apply(APPEND_ONLY, t, s0.(adverts := {a}), Deliver(a, n));
            Shape(t, s2) && !HopsNearer(t, s2)
  {
    var a := FreshAdvert(APPEND_ONLY, t, s0, m);
    assert s0.(adverts := {a}) == Apply(APPEND_ONLY, t, s0, Broadcast(m));
    BroadcastKeepsInv(APPEND_ONLY, t, s0, m);
    LinkedAtFirst(t, m, x);
    LinkedAtFirst(t, n, x);
    FreshHas(APPEND_ONLY, t, s0, m, x);
    HopKept(t, s0.(adverts := {a}), n, a, x, LinkCost(t, m, x));
  }

  /** A neighbour of `x` that hears of a cheaper way keeps sending over its own link. */
  lemma HopKept(t: Topology, s: Net, n: int, a: Advert, x: int, c: int)
    requires ValidTopology(t) && Inv(t, s) && Enabled(t, s, Deliver(a, n)) && n in t.nodes && x in t.nodes
    requires Linked(t, n, x) && x in s.nodes[n].next && s.nodes[n].next[x] == x
    requires Entry(x, c) in a.entries && LinkCost(t, n, a.src) + c < LinkCost(t, n, x)
    ensures Shape(t, Apply(APPEND_ONLY, t, s, Deliver(a, n)))
    ensures !HopsNearer(t, Apply(APPEND_ONLY, t, s, Deliver(a, n)))
  {
    DeliveryBound(APPEND_ONLY, t, s, n, a, x, c);
    HopStays(s.nodes[n], a.src, LinkCost(t, n, a.src), a.entries, x);
    HopNotNearer(t, Apply(APPEND_ONLY, t, s, Deliver(a, n)), n, x);
  }

  lemma HopNotNearer(t: Topology, s: Net, n: int, x: int)
    requires Shape(t, s) && n in t.nodes && x in t.nodes && n != x && Linked(t, n, x)
    requires x in s.nodes[n].next && s.nodes[n].next[x] == x
    requires s.nodes[n].own[x] < LinkCost(t, n, x) < INFINITE_COST
    ensures !HopsNearer(t, s)
  {
    assert !HopNearer(t, s, n, x);
  }
}
