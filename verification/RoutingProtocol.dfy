/** The asynchronous network: every node broadcasts its row and relaxes what it hears.
    A vector, once sent, may reach any neighbour of its sender at any later time, any number
    of times or never, so delay, loss, duplication and reordering are all covered. */
module RoutingProtocol {
  import opened Sequences
  import opened Topology
  import opened DistanceVector

  datatype Advert = Advert(src: int, entries: seq<Entry>)

  datatype Net = Net(nodes: map<int, Node>, adverts: set<Advert>)

  datatype Action = Broadcast(n: int) | Deliver(a: Advert, to: int)

  /** The state each node creates from the topology file. */
  function InitialNode(t: Topology, n: int): Node {
    Node(map x | x in t.nodes && Lists(t, n, x) :: DirectCost(t, n, x),
         map x | x in t.nodes && Linked(t, n, x) :: x)
  }

  function Init(t: Topology): Net {
    Net(map n | n in t.nodes :: InitialNode(t, n), {})
  }

  predicate Enabled(t: Topology, s: Net, a: Action) {
    match a
    case Broadcast(n) => n in s.nodes
    case Deliver(ad, to) => ad in s.adverts && to in s.nodes && Linked(t, to, ad.src)
  }

  function FreshAdvert(b: Build, t: Topology, s: Net, n: int): Advert
    requires n in s.nodes
  {
    Advert(n, Snapshot(b, NodeList(t, n), s.nodes[n].own))
  }

  function Hear(b: Build, t: Topology, s: Net, n: int, a: Advert): Node
    requires n in s.nodes && Linked(t, n, a.src)
  {
    RelaxAll(b, s.nodes[n], a.src, LinkCost(t, n, a.src), a.entries)
  }

  function Apply(b: Build, t: Topology, s: Net, a: Action): Net
    requires Enabled(t, s, a)
  {
    match a
    case Broadcast(n) => s.(adverts := s.adverts + {FreshAdvert(b, t, s, n)})
    case Deliver(ad, to) => s.(nodes := s.nodes[to := Hear(b, t, s, to, ad)])
  }

  /** `acts` can be taken one after the other from the initial state. */
  ghost predicate Legal(b: Build, t: Topology, acts: seq<Action>)
    decreases |acts|, 0
  {
    acts == [] ||
    (Legal(b, t, acts[..|acts| - 1]) && Enabled(t, Exec(b, t, acts[..|acts| - 1]), acts[|acts| - 1]))
  }

  ghost function Exec(b: Build, t: Topology, acts: seq<Action>): Net
    requires Legal(b, t, acts)
    decreases |acts|, 1
  {
    if acts == [] then Init(t)
    else Apply(b, t, Exec(b, t, acts[..|acts| - 1]), acts[|acts| - 1])
  }

  // ---------------------------------------------------------------- invariants

  /** A row covers exactly the nodes its owner lists, at costs in 0..999, and puts its owner at 0. */
  ghost predicate RowShape(t: Topology, n: int, own: map<int, int>) {
    && (forall x :: x in own <==> Lists(t, n, x))
    && (forall x :: x in own ==> 0 <= own[x] <= INFINITE_COST)
    && (n in own ==> own[n] == 0)
  }

  ghost predicate Shape(t: Topology, s: Net) {
    && (forall n :: n in s.nodes <==> n in t.nodes)
    && (forall n :: n in s.nodes ==> RowShape(t, n, s.nodes[n].own))
  }

  /** `c` is infinite, or the exact cost of some way from `a` to `b`. */
  ghost predicate Backed(t: Topology, a: int, b: int, c: int) {
    c < INFINITE_COST ==> exists w :: Way(t, w, a, b) && WalkCost(t, w) == c
  }

  /** Every finite cost, in a row or in flight, is that of a real walk. */
  ghost predicate Sound(t: Topology, s: Net)
    requires Shape(t, s)
  {
    && (forall n, x {:trigger Backed(t, n, x, s.nodes[n].own[x])} ::
          n in t.nodes && Lists(t, n, x) ==> Backed(t, n, x, s.nodes[n].own[x]))
    && (forall a, e {:trigger Backed(t, a.src, e.dest, e.cost), e in a.entries} ::
          a in s.adverts && e in a.entries ==> Backed(t, a.src, e.dest, e.cost))
  }

  /** `e`, sent by `src`, promises no less than the sender's row holds now. */
  ghost predicate Lags(t: Topology, s: Net, src: int, e: Entry)
    requires Shape(t, s)
  {
    src in t.nodes && Lists(t, src, e.dest) && s.nodes[src].own[e.dest] <= e.cost
  }

  ghost predicate AdvertsLag(t: Topology, s: Net)
    requires Shape(t, s)
  {
    forall a, e {:trigger Lags(t, s, a.src, e), e in a.entries} ::
      a in s.adverts && e in a.entries ==> Lags(t, s, a.src, e)
  }

  /** Following a finite cost leads to a neighbour that is nearer by at least the link. */
  ghost predicate HopNearer(t: Topology, s: Net, n: int, x: int)
    requires Shape(t, s) && n in t.nodes && Lists(t, n, x)
  {
    && x in s.nodes[n].next
    && var m := s.nodes[n].next[x];
       && m in t.nodes
       && Linked(t, n, m) && Lists(t, m, x)
       && LinkCost(t, n, m) + s.nodes[m].own[x] <= s.nodes[n].own[x]
  }

  ghost predicate HopsNearer(t: Topology, s: Net)
    requires Shape(t, s)
  {
    forall n, x {:trigger HopNearer(t, s, n, x)} ::
      n in t.nodes && Lists(t, n, x) && n != x && s.nodes[n].own[x] < INFINITE_COST ==> HopNearer(t, s, n, x)
  }

  ghost predicate Inv(t: Topology, s: Net) {
    Shape(t, s) && Sound(t, s) && AdvertsLag(t, s)
  }

  /** No entry of any row is higher in `s'` than in `s`. */
  ghost predicate Falls(t: Topology, s: Net, s': Net)
    requires Shape(t, s) && Shape(t, s')
  {
    forall n, x :: n in t.nodes && Lists(t, n, x) ==> s'.nodes[n].own[x] <= s.nodes[n].own[x]
  }

  // ---------------------------------------------------------------- initial state

  lemma DirectCostBacked(t: Topology, n: int, x: int)
    requires ValidTopology(t) && n in t.nodes && Lists(t, n, x)
    ensures Backed(t, n, x, DirectCost(t, n, x))
  {
    if DirectCost(t, n, x) < INFINITE_COST {
      var w := DirectWalk(t, n, x);
      assert Way(t, w, n, x);
    }
  }

  lemma InitRowShape(t: Topology, n: int)
    requires ValidTopology(t) && n in t.nodes
    ensures RowShape(t, n, InitialNode(t, n).own)
  {
  }

  lemma InitShape(t: Topology)
    requires ValidTopology(t)
    ensures Shape(t, Init(t))
  {
    forall n | n in t.nodes
      ensures RowShape(t, n, Init(t).nodes[n].own)
    {
      InitRowShape(t, n);
      assert Init(t).nodes[n] == InitialNode(t, n);
    }
  }

  lemma InitSound(t: Topology)
    requires ValidTopology(t) && Shape(t, Init(t))
    ensures Sound(t, Init(t))
  {
    forall n, x | n in t.nodes && Lists(t, n, x)
      ensures Backed(t, n, x, Init(t).nodes[n].own[x])
    {
      DirectCostBacked(t, n, x);
      assert Init(t).nodes[n].own[x] == DirectCost(t, n, x);
    }
  }

  lemma InitInv(t: Topology)
    requires ValidTopology(t)
    ensures Inv(t, Init(t)) && HopsNearer(t, Init(t))
  {
    InitShape(t);
    InitSound(t);
  }

  // ---------------------------------------------------------------- one step

  lemma SnapshotEntries(b: Build, nodes: seq<int>, own: map<int, int>, e: Entry)
    requires e in Snapshot(b, nodes, own)
    ensures e.dest in nodes && e.cost == OwnCost(b, own, e.dest)
  {
  }

  lemma FreshEntry(b: Build, t: Topology, s: Net, n: int, e: Entry)
    requires b.readsOwnRow && Inv(t, s) && n in t.nodes
    requires e in FreshAdvert(b, t, s, n).entries
    ensures Lags(t, s, n, e) && Backed(t, n, e.dest, e.cost)
  {
    SnapshotEntries(b, NodeList(t, n), s.nodes[n].own, e);
  }

  lemma BroadcastEntry(b: Build, t: Topology, s: Net, n: int, a: Advert, e: Entry)
    requires b.readsOwnRow && Inv(t, s) && n in t.nodes
    requires a in Apply(b, t, s, Broadcast(n)).adverts && e in a.entries
    ensures Shape(t, Apply(b, t, s, Broadcast(n)))
    ensures Lags(t, Apply(b, t, s, Broadcast(n)), a.src, e) && Backed(t, a.src, e.dest, e.cost)
  {
    if a in s.adverts {
      assert Lags(t, s, a.src, e);
    } else {
      FreshEntry(b, t, s, n, e);
    }
  }

  lemma BroadcastKeepsInv(b: Build, t: Topology, s: Net, n: int)
    requires b.readsOwnRow && Inv(t, s) && n in t.nodes
    ensures Inv(t, Apply(b, t, s, Broadcast(n)))
  {
    var s' := Apply(b, t, s, Broadcast(n));
    forall a, e | a in s'.adverts && e in a.entries
      ensures Lags(t, s', a.src, e)
    {
      BroadcastEntry(b, t, s, n, a, e);
    }
    forall a, e | a in s'.adverts && e in a.entries
      ensures Backed(t, a.src, e.dest, e.cost)
    {
      BroadcastEntry(b, t, s, n, a, e);
    }
    forall k, x | k in t.nodes && Lists(t, k, x)
      ensures Backed(t, k, x, s'.nodes[k].own[x])
    {
      assert Backed(t, k, x, s.nodes[k].own[x]);
    }
  }

  lemma BackedThroughLink(t: Topology, n: int, m: int, x: int, c: int)
    requires ValidTopology(t) && Linked(t, n, m) && Lists(t, n, x) && Backed(t, m, x, c)
    ensures Backed(t, n, x, LinkCost(t, n, m) + c)
  {
    if LinkCost(t, n, m) + c < INFINITE_COST {
      var w :| Way(t, w, m, x) && WalkCost(t, w) == c;
      WalkExtend(t, n, w);
      assert Way(t, [n] + w, n, x);
    }
  }

  /** What hearing a vector, in flight or fresh, does to one entry of the receiver's row. */
  lemma HearEntry(b: Build, t: Topology, s: Net, n: int, a: Advert, x: int)
    requires b.readsOwnRow && ValidTopology(t) && Inv(t, s)
    requires n in t.nodes && a.src in t.nodes && Lists(t, n, x) && Linked(t, n, a.src)
    requires a in s.adverts || a == FreshAdvert(b, t, s, a.src)
    ensures Hear(b, t, s, n, a).own.Keys == s.nodes[n].own.Keys
    ensures var c := Hear(b, t, s, n, a).own[x];
            && Backed(t, n, x, c)
            && c <= s.nodes[n].own[x]
            && (c < s.nodes[n].own[x] ==>
                  Lists(t, a.src, x) && LinkCost(t, n, a.src) + s.nodes[a.src].own[x] <= c)
  {
    var link := LinkCost(t, n, a.src);
    RelaxAllIsMinimum(b, s.nodes[n], a.src, link, a.entries, x);
    var c := Hear(b, t, s, n, a).own[x];
    if c == s.nodes[n].own[x] {
      assert Backed(t, n, x, c);
    } else {
      var e :| e in a.entries && e.dest == x && c == link + e.cost;
      if a !in s.adverts {
        FreshEntry(b, t, s, a.src, e);
      }
      assert Lags(t, s, a.src, e) && Backed(t, a.src, x, e.cost);
      BackedThroughLink(t, n, a.src, x, e.cost);
    }
  }

  lemma HearShape(b: Build, t: Topology, s: Net, a: Advert, n: int)
    requires b.readsOwnRow && ValidTopology(t) && Inv(t, s) && n in t.nodes && a.src in t.nodes
    requires Enabled(t, s, Deliver(a, n))
    ensures RowShape(t, n, Hear(b, t, s, n, a).own)
    ensures forall x :: Lists(t, n, x) ==> Hear(b, t, s, n, a).own[x] <= s.nodes[n].own[x]
  {
    var own := Hear(b, t, s, n, a).own;
    HearEntry(b, t, s, n, a, n);
    forall x | Lists(t, n, x)
      ensures 0 <= own[x] <= s.nodes[n].own[x]
    {
      HearEntry(b, t, s, n, a, x);
    }
  }

  lemma DeliverShape(b: Build, t: Topology, s: Net, a: Advert, n: int)
    requires b.readsOwnRow && ValidTopology(t) && Inv(t, s) && Enabled(t, s, Deliver(a, n))
    ensures Shape(t, Apply(b, t, s, Deliver(a, n)))
    ensures Falls(t, s, Apply(b, t, s, Deliver(a, n)))
  {
    HearShape(b, t, s, a, n);
  }

  lemma DeliverSound(b: Build, t: Topology, s: Net, a: Advert, n: int)
    requires b.readsOwnRow && ValidTopology(t) && Inv(t, s) && Enabled(t, s, Deliver(a, n))
    requires Shape(t, Apply(b, t, s, Deliver(a, n)))
    ensures Sound(t, Apply(b, t, s, Deliver(a, n)))
  {
    forall m, x | m in t.nodes && Lists(t, m, x)
      ensures Backed(t, m, x, Apply(b, t, s, Deliver(a, n)).nodes[m].own[x])
    {
      if m == n {
        HearEntry(b, t, s, n, a, x);
      } else {
        assert Backed(t, m, x, s.nodes[m].own[x]);
      }
    }
  }

  lemma DeliverKeepsInv(b: Build, t: Topology, s: Net, a: Advert, n: int)
    requires b.readsOwnRow && ValidTopology(t) && Inv(t, s) && Enabled(t, s, Deliver(a, n))
    ensures Inv(t, Apply(b, t, s, Deliver(a, n)))
    ensures Falls(t, s, Apply(b, t, s, Deliver(a, n)))
  {
    DeliverShape(b, t, s, a, n);
    DeliverSound(b, t, s, a, n);
    var s' := Apply(b, t, s, Deliver(a, n));
    forall ad, e | ad in s'.adverts && e in ad.entries
      ensures Lags(t, s', ad.src, e)
    {
      assert Lags(t, s, ad.src, e);
    }
  }

  /** Only a build that overwrites next hops keeps every hop pointing to a nearer node. */
  lemma DeliverKeepsHops(b: Build, t: Topology, s: Net, a: Advert, n: int)
    requires b.readsOwnRow && b.replacesHop && ValidTopology(t) && Inv(t, s) && HopsNearer(t, s)
    requires Enabled(t, s, Deliver(a, n))
    ensures Shape(t, Apply(b, t, s, Deliver(a, n))) && HopsNearer(t, Apply(b, t, s, Deliver(a, n)))
  {
    DeliverKeepsInv(b, t, s, a, n);
    var s' := Apply(b, t, s, Deliver(a, n));
    forall k, x | k in t.nodes && Lists(t, k, x) && k != x && s'.nodes[k].own[x] < INFINITE_COST
      ensures HopNearer(t, s', k, x)
    {
      if k == n {
        HearEntry(b, t, s, n, a, x);
        RelaxAllHop(b, s.nodes[n], a.src, LinkCost(t, n, a.src), a.entries, x);
      }
      if s'.nodes[k].own[x] == s.nodes[k].own[x] {
        assert HopNearer(t, s, k, x);
      }
    }
  }

  lemma BroadcastKeepsHops(b: Build, t: Topology, s: Net, n: int)
    requires Shape(t, s) && n in s.nodes
    ensures Shape(t, Apply(b, t, s, Broadcast(n)))
    ensures Falls(t, s, Apply(b, t, s, Broadcast(n)))
    ensures HopsNearer(t, s) ==> HopsNearer(t, Apply(b, t, s, Broadcast(n)))
  {
    var s' := Apply(b, t, s, Broadcast(n));
    if HopsNearer(t, s) {
      forall k, x | k in t.nodes && Lists(t, k, x) && k != x && s'.nodes[k].own[x] < INFINITE_COST
        ensures HopNearer(t, s', k, x)
      {
        assert HopNearer(t, s, k, x);
      }
    }
  }

  lemma StepKeepsInv(b: Build, t: Topology, s: Net, a: Action)
    requires b.readsOwnRow && ValidTopology(t) && Inv(t, s) && Enabled(t, s, a)
    ensures Inv(t, Apply(b, t, s, a))
    ensures Falls(t, s, Apply(b, t, s, a))
    ensures b.replacesHop && HopsNearer(t, s) ==> HopsNearer(t, Apply(b, t, s, a))
  {
    match a
    case Broadcast(n) =>
      BroadcastKeepsInv(b, t, s, n);
      BroadcastKeepsHops(b, t, s, n);
    case Deliver(ad, n) =>
      DeliverKeepsInv(b, t, s, ad, n);
      if b.replacesHop && HopsNearer(t, s) {
        DeliverKeepsHops(b, t, s, ad, n);
      }
  }

  // ---------------------------------------------------------------- all runs

  /** Soundness over all runs: in every reachable state every finite cost, in a table or in
      flight, is the exact cost of a walk, rows stay in 0..999, and the cost to oneself is 0. */
  lemma {:induction false} ReachableInv(b: Build, t: Topology, acts: seq<Action>)
    requires b.readsOwnRow && ValidTopology(t) && Legal(b, t, acts)
    ensures Inv(t, Exec(b, t, acts))
  {
    if acts == [] {
      InitInv(t);
    } else {
      ReachableInv(b, t, acts[..|acts| - 1]);
      StepKeepsInv(b, t, Exec(b, t, acts[..|acts| - 1]), acts[|acts| - 1]);
    }
  }

  /** Loop freedom over all runs: wherever a node has a finite cost to another node, its next hop
      is a neighbour whose own cost is lower by at least the cost of the link between them. */
  lemma {:induction false} ReachableHopsNearer(t: Topology, acts: seq<Action>)
    requires ValidTopology(t) && Legal(DOCUMENTED, t, acts)
    ensures Inv(t, Exec(DOCUMENTED, t, acts)) && HopsNearer(t, Exec(DOCUMENTED, t, acts))
  {
    if acts == [] {
      InitInv(t);
    } else {
      ReachableHopsNearer(t, acts[..|acts| - 1]);
      StepKeepsInv(DOCUMENTED, t, Exec(DOCUMENTED, t, acts[..|acts| - 1]), acts[|acts| - 1]);
    }
  }

  lemma {:induction false} LegalPrefix(b: Build, t: Topology, acts: seq<Action>, i: nat)
    requires Legal(b, t, acts) && i <= |acts|
    ensures Legal(b, t, acts[..i])
  {
    if i == |acts| {
      assert acts[..i] == acts;
    } else {
      LegalPrefix(b, t, acts[..|acts| - 1], i);
      assert acts[..|acts| - 1][..i] == acts[..i];
    }
  }

  /** Own-row costs never rise, whatever arrives in between. */
  lemma {:induction false} CostsNeverRise(b: Build, t: Topology, acts: seq<Action>, i: nat)
    requires b.readsOwnRow && ValidTopology(t) && Legal(b, t, acts) && i <= |acts|
    ensures Legal(b, t, acts[..i])
    ensures Inv(t, Exec(b, t, acts)) && Inv(t, Exec(b, t, acts[..i]))
    ensures Falls(t, Exec(b, t, acts[..i]), Exec(b, t, acts))
  {
    if i == |acts| {
      assert acts[..i] == acts;
      ReachableInv(b, t, acts);
    } else {
      var init := acts[..|acts| - 1];
      CostsNeverRise(b, t, init, i);
      assert init[..i] == acts[..i];
      StepKeepsInv(b, t, Exec(b, t, init), acts[|acts| - 1]);
      FallsTransitive(t, Exec(b, t, acts[..i]), Exec(b, t, init), Exec(b, t, acts));
    }
  }

  lemma FallsTransitive(t: Topology, s: Net, s': Net, s'': Net)
    requires Shape(t, s) && Shape(t, s') && Shape(t, s'')
    requires Falls(t, s, s') && Falls(t, s', s'')
    ensures Falls(t, s, s'')
  {
    forall n, x | n in t.nodes && Lists(t, n, x)
      ensures s''.nodes[n].own[x] <= s.nodes[n].own[x]
    {
      assert s'.nodes[n].own[x] <= s.nodes[n].own[x];
    }
  }

  /** No reachable cost is below the true distance. */
  lemma NeverBelowDistance(b: Build, t: Topology, acts: seq<Action>, n: int, x: int, d: int)
    requires b.readsOwnRow && ValidTopology(t) && Legal(b, t, acts)
    requires n in t.nodes && Lists(t, n, x) && IsDistance(t, n, x, d)
    ensures Inv(t, Exec(b, t, acts)) && d <= Exec(b, t, acts).nodes[n].own[x]
  {
    ReachableInv(b, t, acts);
    assert Backed(t, n, x, Exec(b, t, acts).nodes[n].own[x]);
  }

  lemma FreshHas(b: Build, t: Topology, s: Net, m: int, x: int)
    requires b.readsOwnRow && Shape(t, s) && m in t.nodes && Lists(t, m, x)
    ensures Entry(x, s.nodes[m].own[x]) in FreshAdvert(b, t, s, m).entries
  {
    var list := NodeList(t, m);
    var i :| 0 <= i < |list| && list[i] == x;
    assert FreshAdvert(b, t, s, m).entries[i] == Entry(x, s.nodes[m].own[x]);
  }
}
