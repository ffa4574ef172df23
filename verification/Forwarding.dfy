/** Data packets on the move while the routing protocol keeps running. */
module Forwarding {
  import opened Topology
  import opened DistanceVector
  import opened RoutingProtocol

  /** What a node does with a data packet. */
  datatype Decision = ToTransport | ToNextHop(hop: int)

  /** The next hop a lookup yields, or -1. */
  function NextHop(n: Node, dest: int): int {
    if dest in n.next then n.next[dest] else -1
  }

  function Decide(n: Node, me: int, dest: int): Decision {
    if dest == me then ToTransport else ToNextHop(NextHop(n, dest))
  }

  /** One packet bound for `dest`, with the hops taken and the link costs paid so far. */
  datatype Journey = Journey(net: Net, at: int, dest: int, hops: nat, spent: int)

  datatype Event = Route(a: Action) | Hop

  /** A packet leaves a node only over a link to the neighbour its table names. */
  predicate CanHop(t: Topology, j: Journey) {
    && j.at in j.net.nodes
    && var d := Decide(j.net.nodes[j.at], j.at, j.dest);
       d.ToNextHop? && Linked(t, j.at, d.hop)
  }

  predicate Possible(t: Topology, j: Journey, e: Event) {
    match e
    case Route(a) => Enabled(t, j.net, a)
    case Hop => CanHop(t, j)
  }

  function Move(b: Build, t: Topology, j: Journey, e: Event): Journey
    requires Possible(t, j, e)
  {
    match e
    case Route(a) => j.(net := Apply(b, t, j.net, a))
    case Hop =>
      var m := Decide(j.net.nodes[j.at], j.at, j.dest).hop;
      j.(at := m, hops := j.hops + 1, spent := j.spent + LinkCost(t, j.at, m))
  }

  ghost predicate Legs(b: Build, t: Topology, j: Journey, es: seq<Event>)
    decreases |es|, 0
  {
    es == [] ||
    (Legs(b, t, j, es[..|es| - 1]) && Possible(t, Travel(b, t, j, es[..|es| - 1]), es[|es| - 1]))
  }

  ghost function Travel(b: Build, t: Topology, j: Journey, es: seq<Event>): Journey
    requires Legs(b, t, j, es)
    decreases |es|, 1
  {
    if es == [] then j else Move(b, t, Travel(b, t, j, es[..|es| - 1]), es[|es| - 1])
  }

  /** Routing is sound, and the packet can still afford the rest of its way out of `budget`. */
  ghost predicate OnCourse(t: Topology, j: Journey, budget: int) {
    && Inv(t, j.net) && HopsNearer(t, j.net)
    && j.at in t.nodes && Lists(t, j.at, j.dest)
    && j.hops <= j.spent
    && j.spent + j.net.nodes[j.at].own[j.dest] <= budget < INFINITE_COST
  }

  lemma CostPositive(t: Topology, s: Net, n: int, x: int)
    requires ValidTopology(t) && Inv(t, s) && n in t.nodes && Lists(t, n, x) && n != x
    ensures 0 < s.nodes[n].own[x]
  {
    assert Backed(t, n, x, s.nodes[n].own[x]);
    if s.nodes[n].own[x] < INFINITE_COST {
      var w :| Way(t, w, n, x) && WalkCost(t, w) == s.nodes[n].own[x];
      WalkCostPositive(t, w);
    }
  }

  lemma MoveStaysOnCourse(t: Topology, j: Journey, e: Event, budget: int)
    requires ValidTopology(t) && OnCourse(t, j, budget) && Possible(t, j, e)
    ensures OnCourse(t, Move(DOCUMENTED, t, j, e), budget)
  {
    match e
    case Route(a) =>
      StepKeepsInv(DOCUMENTED, t, j.net, a);
      assert Falls(t, j.net, Apply(DOCUMENTED, t, j.net, a));
    case Hop =>
      assert HopNearer(t, j.net, j.at, j.dest);
  }

  lemma {:induction false} TravelStaysOnCourse(t: Topology, j: Journey, es: seq<Event>, budget: int)
    requires ValidTopology(t) && OnCourse(t, j, budget) && Legs(DOCUMENTED, t, j, es)
    ensures OnCourse(t, Travel(DOCUMENTED, t, j, es), budget)
    ensures Travel(DOCUMENTED, t, j, es).dest == j.dest
  {
    if es != [] {
      TravelStaysOnCourse(t, j, es[..|es| - 1], budget);
      MoveStaysOnCourse(t, Travel(DOCUMENTED, t, j, es[..|es| - 1]), es[|es| - 1], budget);
    }
  }

  /** Delivery: start a packet for `x` at `n` in any reachable network where `n` has a finite cost.
      However route updates interleave with its hops, what it has paid and the cost its present node
      quotes never add up to more than that cost, it can always take another hop until it is at `x`,
      and it is at `x` before running out of hops. */
  lemma PacketArrives(t: Topology, acts: seq<Action>, s: Net, n: int, x: int, es: seq<Event>)
    requires ValidTopology(t) && Legal(DOCUMENTED, t, acts) && s == Exec(DOCUMENTED, t, acts)
    requires n in s.nodes && x in s.nodes[n].own && s.nodes[n].own[x] < INFINITE_COST
    requires Legs(DOCUMENTED, t, Journey(s, n, x, 0, 0), es)
    ensures Affordable(t, Travel(DOCUMENTED, t, Journey(s, n, x, 0, 0), es), s.nodes[n].own[x])
    ensures Travel(DOCUMENTED, t, Journey(s, n, x, 0, 0), es).dest == x
  {
    ReachableHopsNearer(t, acts);
    var start := Journey(s, n, x, 0, 0);
    TravelStaysOnCourse(t, start, es, s.nodes[n].own[x]);
    OnCourseCanHop(t, Travel(DOCUMENTED, t, start, es), s.nodes[n].own[x]);
  }

  ghost predicate Affordable(t: Topology, j: Journey, budget: int) {
    && j.at in j.net.nodes && j.dest in j.net.nodes[j.at].own
    && 0 <= j.net.nodes[j.at].own[j.dest] && j.hops <= j.spent
    && j.spent + j.net.nodes[j.at].own[j.dest] <= budget
    && (j.at != j.dest ==> CanHop(t, j) && j.hops < budget)
  }

  lemma OnCourseCanHop(t: Topology, j: Journey, budget: int)
    requires ValidTopology(t) && OnCourse(t, j, budget)
    ensures Affordable(t, j, budget)
  {
    if j.at != j.dest {
      CostPositive(t, j.net, j.at, j.dest);
      assert HopNearer(t, j.net, j.at, j.dest);
    }
  }

  // ---------------------------------------------------------------- who can be reached at all

  /** Some course of events takes the packet to its destination. */
  ghost predicate CanArrive(b: Build, t: Topology, j: Journey) {
    exists es :: Legs(b, t, j, es) && Travel(b, t, j, es).at == j.dest
  }

  /** Route updates before the packet moves. */
  function RouteEvents(acts: seq<Action>): seq<Event> {
    seq(|acts|, i requires 0 <= i < |acts| => Route(acts[i]))
  }

  lemma {:induction false} RouteFirst(b: Build, t: Topology, acts: seq<Action>, k: nat, j: Journey)
    requires k <= |acts| && Legal(b, t, acts) && Legal(b, t, acts[..k]) && j.net == Exec(b, t, acts[..k])
    ensures Legs(b, t, j, RouteEvents(acts[k..]))
    ensures Travel(b, t, j, RouteEvents(acts[k..])) == j.(net := Exec(b, t, acts))
    decreases |acts|
  {
    var es := RouteEvents(acts[k..]);
    if k == |acts| {
      assert acts[..k] == acts;
    } else {
      var init := acts[..|acts| - 1];
      assert init[..k] == acts[..k];
      RouteFirst(b, t, init, k, j);
      assert RouteEvents(init[k..]) == es[..|es| - 1];
    }
  }

  /** Events one after the other. */
  lemma {:induction false} LegsChain(b: Build, t: Topology, j: Journey, u: seq<Event>, v: seq<Event>)
    requires Legs(b, t, j, u) && Legs(b, t, Travel(b, t, j, u), v)
    ensures Legs(b, t, j, u + v) && Travel(b, t, j, u + v) == Travel(b, t, Travel(b, t, j, u), v)
    decreases |v|
  {
    if v == [] {
      assert u + v == u;
    } else {
      LegsChain(b, t, j, u, v[..|v| - 1]);
      assert (u + v)[..|u + v| - 1] == u + v[..|v| - 1];
    }
  }

  /** A packet on course gets there by hops alone. */
  lemma {:induction false} HopsArrive(t: Topology, j: Journey, budget: int)
    requires ValidTopology(t) && OnCourse(t, j, budget)
    ensures CanArrive(DOCUMENTED, t, j)
    decreases budget - j.spent
  {
    if j.at == j.dest {
      var none: seq<Event> := [];
      assert Legs(DOCUMENTED, t, j, none) && Travel(DOCUMENTED, t, j, none).at == j.dest;
    } else {
      OnCourseCanHop(t, j, budget);
      MoveStaysOnCourse(t, j, Hop, budget);
      var j' := Move(DOCUMENTED, t, j, Hop);
      HopsArrive(t, j', budget);
      var es :| Legs(DOCUMENTED, t, j', es) && Travel(DOCUMENTED, t, j', es).at == j'.dest;
      OneLeg(DOCUMENTED, t, j, Hop);
      LegsChain(DOCUMENTED, t, j, [Hop], es);
    }
  }

  lemma OneLeg(b: Build, t: Topology, j: Journey, e: Event)
    requires Possible(t, j, e)
    ensures Legs(b, t, j, [e]) && Travel(b, t, j, [e]) == Move(b, t, j, e)
  {
    assert |[e]| == 1 && [e][..|[e]| - 1] == [] && [e][|[e]| - 1] == e;
    assert Legs(b, t, j, []) && Travel(b, t, j, []) == j;
  }
}
