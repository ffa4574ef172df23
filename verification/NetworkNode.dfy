/** One network process: its three tables, and what it does with a route update, with its timer and
    with a data packet. */
module NetworkNode {
  import opened Sequences
  import opened Topology
  import opened DistanceVector
  import opened RoutingProtocol
  import opened Forwarding
  import opened NbrCostTable
  import D = DvTable
  import R = RoutingTable

  /** Every node its own next hop. */
  function SelfHops(ids: seq<int>): map<int, int> {
    map x | x in ids :: x
  }

  lemma SelfHopsStep(b: Build, ids: seq<int>, i: nat)
    requires i < |ids| && Distinct(ids) && 0 < ids[i]
    ensures SetNextHop(b, SelfHops(ids[..i]), ids[i], ids[i]) == SelfHops(ids[..i + 1])
  {
    assert ids[i] !in ids[..i];
    assert ids[..i + 1] == ids[..i] + [ids[i]];
  }

  /** The routing table a node starts from: each neighbour is its own next hop. */
  method CreateRoutes(b: Build, nbrIDs: seq<int>) returns (routing: R.Table)
    requires Distinct(nbrIDs) && forall n :: n in nbrIDs ==> 0 < n
    ensures routing.Valid() && fresh(routing.Repr)
    ensures R.HopMap(routing.slots) == SelfHops(nbrIDs)
  {
    routing := new R.Table();
    NoHops();
    var i := 0;
    while i < |nbrIDs|
      invariant 0 <= i <= |nbrIDs|
      invariant routing.Valid() && fresh(routing.Repr)
      invariant R.HopMap(routing.slots) == SelfHops(nbrIDs[..i])
    {
      assert nbrIDs[i] in nbrIDs;
      SelfHopsStep(b, nbrIDs, i);
      var ok := routing.SetNextNode(b, nbrIDs[i], nbrIDs[i]);
      i := i + 1;
    }
    assert nbrIDs[..|nbrIDs|] == nbrIDs;
  }

  // ---------------------------------------------------------------- route updates on values

  /** What route updates change: the distance-vector table and the next hops. */
  datatype Tables = Tables(rows: seq<D.Row>, next: map<int, int>)

  /** The part of them the protocol speaks about. */
  function NodeOf(tb: Tables): Node
    requires tb.rows != []
  {
    Node(D.OwnRow(tb.rows), tb.next)
  }

  /** One entry of an update: the sender's row is set, then the own row and the next hop if the way
      through the sender is cheaper. */
  function HandleEntry(b: Build, me: int, tb: Tables, src: int, link: int, e: Entry): (r: Tables)
    requires tb.rows != []
    ensures |r.rows| == |tb.rows|
  {
    var rows := D.WithCost(tb.rows, src, e.dest, e.cost);
    if D.CostIn(rows, D.Scanned(b, |rows|), me, e.dest) > link + e.cost then
      Tables(D.WithCost(rows, me, e.dest, link + e.cost), SetNextHop(b, tb.next, e.dest, src))
    else Tables(rows, tb.next)
  }

  function HandleAll(b: Build, me: int, tb: Tables, src: int, link: int, es: seq<Entry>): (r: Tables)
    requires tb.rows != []
    ensures |r.rows| == |tb.rows|
  {
    if es == [] then tb
    else HandleEntry(b, me, HandleAll(b, me, tb, src, link, es[..|es| - 1]), src, link, es[|es| - 1])
  }

  /** A row after the costs of `es` have been written into it, in order. */
  function Overwritten(row: map<int, int>, es: seq<Entry>): map<int, int> {
    if es == [] then row
    else SetCost(Overwritten(row, es[..|es| - 1]), es[|es| - 1].dest, es[|es| - 1].cost)
  }

  lemma HandleEntryIsRelax(b: Build, me: int, tb: Tables, src: int, link: int, e: Entry)
    requires D.RowsOk(tb.rows, me) && src != me
    ensures D.RowsOk(HandleEntry(b, me, tb, src, link, e).rows, me)
    ensures NodeOf(HandleEntry(b, me, tb, src, link, e)) == RelaxEntry(b, NodeOf(tb), src, link, e)
  {
    var rows := D.WithCost(tb.rows, src, e.dest, e.cost);
    SenderRowSet(b, me, tb.rows, src, e);
    if OwnCost(b, NodeOf(tb).own, e.dest) > link + e.cost {
      D.SetOwn(rows, D.WithCost(rows, me, e.dest, link + e.cost), me, me, e.dest, link + e.cost);
    }
  }

  lemma SenderRowSet(b: Build, me: int, rows: seq<D.Row>, src: int, e: Entry)
    requires D.RowsOk(rows, me) && src != me
    ensures var rows' := D.WithCost(rows, src, e.dest, e.cost);
            && D.RowsOk(rows', me) && D.OwnRow(rows') == D.OwnRow(rows)
            && D.CostIn(rows', D.Scanned(b, |rows'|), me, e.dest) == OwnCost(b, D.OwnRow(rows), e.dest)
  {
    var rows' := D.WithCost(rows, src, e.dest, e.cost);
    D.SetOwn(rows, rows', me, src, e.dest, e.cost);
    D.OwnLookup(b, rows', me, e.dest);
  }

  /** An update from another node relaxes the own row and the next hops. */
  lemma {:induction false} HandleAllIsRelaxAll(b: Build, me: int, tb: Tables, src: int, link: int, es: seq<Entry>)
    requires D.RowsOk(tb.rows, me) && src != me
    ensures D.RowsOk(HandleAll(b, me, tb, src, link, es).rows, me)
    ensures NodeOf(HandleAll(b, me, tb, src, link, es)) == RelaxAll(b, NodeOf(tb), src, link, es)
  {
    if es != [] {
      var init := es[..|es| - 1];
      HandleAllIsRelaxAll(b, me, tb, src, link, init);
      HandleEntryIsRelax(b, me, HandleAll(b, me, tb, src, link, init), src, link, es[|es| - 1]);
    }
  }

  lemma HandleEntryRows(b: Build, me: int, tb: Tables, src: int, link: int, e: Entry, i: int)
    requires D.RowsOk(tb.rows, me) && 0 <= i < |tb.rows| && tb.rows[i].id != me
    ensures var rows := HandleEntry(b, me, tb, src, link, e).rows;
            && D.RowsOk(rows, me) && rows[i].id == tb.rows[i].id
            && D.RowMap(rows[i].entries) ==
                 if tb.rows[i].id == src then SetCost(D.RowMap(tb.rows[i].entries), e.dest, e.cost)
                 else D.RowMap(tb.rows[i].entries)
  {
    var rows := D.WithCost(tb.rows, src, e.dest, e.cost);
    D.SetOneRow(tb.rows, rows, me, src, e.dest, e.cost, i);
    D.SetOneRow(rows, D.WithCost(rows, me, e.dest, link + e.cost), me, me, e.dest, link + e.cost, i);
  }

  /** Every row but the own one: the sender's takes over the costs of the update, the others stay. */
  lemma {:induction false} HandleAllRows(b: Build, me: int, tb: Tables, src: int, link: int, es: seq<Entry>, i: int)
    requires D.RowsOk(tb.rows, me) && 0 <= i < |tb.rows| && tb.rows[i].id != me
    ensures var rows := HandleAll(b, me, tb, src, link, es).rows;
            && D.RowsOk(rows, me) && rows[i].id == tb.rows[i].id
            && D.RowMap(rows[i].entries) ==
                 if tb.rows[i].id == src then Overwritten(D.RowMap(tb.rows[i].entries), es)
                 else D.RowMap(tb.rows[i].entries)
  {
    if es != [] {
      var init := es[..|es| - 1];
      HandleAllRows(b, me, tb, src, link, init, i);
      HandleEntryRows(b, me, HandleAll(b, me, tb, src, link, init), src, link, es[|es| - 1], i);
    }
  }

  lemma OwnUpdateEntry(b: Build, me: int, tb: Tables, e: Entry)
    requires D.RowsOk(tb.rows, me) && 0 <= e.cost
    ensures var r := HandleEntry(b, me, tb, me, INFINITE_COST, e);
            && D.RowsOk(r.rows, me) && r.next == tb.next
            && D.OwnRow(r.rows) == SetCost(D.OwnRow(tb.rows), e.dest, e.cost)
  {
    var rows := D.WithCost(tb.rows, me, e.dest, e.cost);
    D.SetOwn(tb.rows, rows, me, me, e.dest, e.cost);
    D.OwnLookup(b, rows, me, e.dest);
  }

  /** An update that names the node itself as its sender, if there were one, would be believed: it
      overwrites the own row as it stands and leaves the next hops alone. */
  lemma {:induction false} OwnUpdateOverwrites(b: Build, me: int, tb: Tables, es: seq<Entry>)
    requires D.RowsOk(tb.rows, me) && forall e :: e in es ==> 0 <= e.cost
    ensures var r := HandleAll(b, me, tb, me, INFINITE_COST, es);
            && D.RowsOk(r.rows, me) && r.next == tb.next
            && D.OwnRow(r.rows) == Overwritten(D.OwnRow(tb.rows), es)
  {
    if es != [] {
      var init := es[..|es| - 1];
      OwnUpdateOverwrites(b, me, tb, init);
      OwnUpdateEntry(b, me, HandleAll(b, me, tb, me, INFINITE_COST, init), es[|es| - 1]);
    }
  }

  // ---------------------------------------------------------------- the process

  class Process {
    const me: int
    const nodes: seq<int>
    const nbrs: array<Entry>
    const dv: D.Table
    const routes: R.Table
    /** What the neighbour cost table holds; nothing ever writes to it. */
    ghost const links: seq<Entry>
    /** The abstract value: all rows and the next hops. */
    ghost var view: Tables
    ghost var Repr: set<object>

    ghost predicate Valid()
      reads this, Repr
      ensures Valid() ==> this in Repr
    {
      && this in Repr && nbrs in Repr && dv in Repr && routes in Repr
      && dv.Repr <= Repr && routes.Repr <= Repr
      && {this, nbrs} !! dv.Repr && {this, nbrs} !! routes.Repr && dv.Repr !! routes.Repr
      && dv.Valid() && routes.Valid()
      && D.RowsOk(dv.view, me)
      && nbrs[..] == links
      && view == Tables(dv.view, R.HopMap(routes.slots))
    }

    constructor (self: int, nodeIDs: seq<int>, table: array<Entry>, dvTable: D.Table, routing: R.Table)
      requires dvTable.Valid() && routing.Valid() && D.RowsOk(dvTable.view, self)
      requires table !in dvTable.Repr && table !in routing.Repr && dvTable.Repr !! routing.Repr
      ensures Valid() && fresh(Repr - {table} - dvTable.Repr - routing.Repr)
      ensures me == self && nodes == nodeIDs && links == table[..]
      ensures view == Tables(dvTable.view, R.HopMap(routing.slots))
    {
      me, nodes, nbrs, dv, routes := self, nodeIDs, table, dvTable, routing;
      links := table[..];
      view := Tables(dvTable.view, R.HopMap(routing.slots));
      Repr := {this, table} + dvTable.Repr + routing.Repr;
    }

    /** Works through a route update that names `src` as its sender, entry by entry. */
    method HandleRouteUpdate(b: Build, src: int, es: seq<Entry>)
      requires Valid()
      modifies Repr
      ensures Valid() && fresh(Repr - old(Repr)) && old(view).rows != []
      ensures view == HandleAll(b, me, old(view), src, CostTo(links, src), es)
    {
      ghost var link, tb := CostTo(links, src), view;
      var i := 0;
      while i < |es|
        invariant 0 <= i <= |es|
        invariant Valid() && fresh(Repr - old(Repr))
        invariant view == HandleAll(b, me, tb, src, link, es[..i])
      {
        assert es[..i + 1][..i] == es[..i];
        RelaxOne(b, src, es[i]);
        i := i + 1;
      }
      assert es[..|es|] == es;
    }

    /** One entry of an update: record what the sender says, then see whether it is a better way. */
    method RelaxOne(b: Build, src: int, e: Entry)
      requires Valid()
      modifies Repr
      ensures Valid() && fresh(Repr - old(Repr)) && old(view).rows != []
      ensures view == HandleEntry(b, me, old(view), src, CostTo(links, src), e)
    {
      StoreCost(src, e.dest, e.cost);
      ghost var tb := view;
      var dvCost := dv.GetTableCost(b, me, e.dest);
      var nbrCost := GetNbrCost(nbrs, src);
      nbrCost := nbrCost + e.cost;
      if dvCost > nbrCost {
        TakeWay(b, e.dest, src, nbrCost);
        assert view == Tables(D.WithCost(tb.rows, me, e.dest, nbrCost), SetNextHop(b, tb.next, e.dest, src));
      }
    }

    /** Takes over a cheaper way: the cost into the own row, the neighbour as next hop. */
    method TakeWay(b: Build, dest: int, src: int, cost: int)
      requires Valid()
      modifies Repr
      ensures Valid() && fresh(Repr - old(Repr))
      ensures view == Tables(D.WithCost(old(view).rows, me, dest, cost), SetNextHop(b, old(view).next, dest, src))
    {
      StoreCost(me, dest, cost);
      StoreHop(b, dest, src);
    }

    /** Stores a cost in the distance-vector table. */
    method StoreCost(src: int, dest: int, cost: int)
      requires Valid()
      modifies Repr
      ensures Valid() && Repr == old(Repr)
      ensures view == old(view).(rows := D.WithCost(old(view).rows, src, dest, cost))
    {
      D.SetOwn(dv.view, D.WithCost(dv.view, src, dest, cost), me, src, dest, cost);
      var ok := dv.SetTableCost(src, dest, cost);
      view := view.(rows := dv.view);
    }

    /** Stores a next hop in the routing table. */
    method StoreHop(b: Build, dest: int, hop: int)
      requires Valid()
      modifies Repr
      ensures Valid() && fresh(Repr - old(Repr))
      ensures view == old(view).(next := SetNextHop(b, old(view).next, dest, hop))
    {
      var ok := routes.SetNextNode(b, dest, hop);
      Repr := Repr + routes.Repr;
      view := view.(next := R.HopMap(routes.slots));
    }

    /** Fills in the vector to broadcast. */
    method FillRouteUpdate(b: Build) returns (es: array<Entry>)
      requires Valid()
      ensures view.rows != []
      ensures fresh(es) && es[..] == Snapshot(b, nodes, NodeOf(view).own)
    {
      es := new Entry[|nodes|](i => Entry(0, 0));
      var i := 0;
      while i < |nodes|
        invariant 0 <= i <= |nodes|
        invariant es[..i] == Snapshot(b, nodes, NodeOf(view).own)[..i]
      {
        D.OwnLookup(b, dv.view, me, nodes[i]);
        var cost := dv.GetTableCost(b, me, nodes[i]);
        es[i] := Entry(nodes[i], cost);
        i := i + 1;
      }
    }

    /** Where a data packet goes from here. */
    method HandleDataPacket(dest: int) returns (d: Decision)
      requires Valid()
      ensures view.rows != [] && d == Decide(NodeOf(view), me, dest)
      ensures d == ToTransport <==> dest == me
      ensures dest != me ==> d == ToNextHop(if dest in view.next then view.next[dest] else -1)
    {
      if dest == me {
        return ToTransport;
      }
      var hop := routes.GetNextNode(dest);
      R.HopMapKey(routes.slots, dest);
      return ToNextHop(hop);
    }
  }

  /** Creates the three tables and puts them together. */
  method Assemble(b: Build, t: Topology, self: int, nbrIDs: seq<int>) returns (p: Process)
    requires Distinct(nbrIDs) && forall n :: n in nbrIDs ==> 0 < n
    requires D.RowsOk(D.InitialRows(t, self, nbrIDs + [self]), self)
    ensures p.Valid() && fresh(p.Repr) && p.me == self && p.nodes == NodeList(t, self)
    ensures p.view == Tables(D.InitialRows(t, self, nbrIDs + [self]), SelfHops(nbrIDs))
    ensures p.links == NbrEntries(t, self, nbrIDs)
  {
    var table := CreateNbrTable(t, self, nbrIDs);
    var dvTable := new D.Table(t, self, nbrIDs);
    var routing := CreateRoutes(b, nbrIDs);
    p := new Process(self, NodeList(t, self), table, dvTable, routing);
  }

  /** The process of node `self` as it starts: direct costs in the tables, each neighbour its own
      next hop. */
  method CreateProcess(b: Build, t: Topology, self: int, nbrIDs: seq<int>) returns (p: Process)
    requires ValidTopology(t) && self in t.nodes && Distinct(nbrIDs)
    requires forall n :: n in nbrIDs <==> Linked(t, self, n)
    ensures p.Valid() && fresh(p.Repr) && p.me == self && p.nodes == NodeList(t, self)
    ensures p.view.rows != [] && NodeOf(p.view) == InitialNode(t, self)
    ensures D.HoldsLinkCosts(t, self, nbrIDs + [self], p.view.rows)
    ensures p.links == NbrEntries(t, self, nbrIDs)
  {
    NeighboursPositive(t, self, nbrIDs);
    D.InitialOwnRow(t, self, nbrIDs);
    InitialRowsOk(t, nbrIDs, self);
    D.InitialRowsHoldLinkCosts(t, self, nbrIDs + [self]);
    p := Assemble(b, t, self, nbrIDs);
  }

  lemma NeighboursPositive(t: Topology, self: int, nbrIDs: seq<int>)
    requires ValidTopology(t) && forall n :: n in nbrIDs <==> Linked(t, self, n)
    ensures forall n :: n in nbrIDs ==> 0 < n && n in t.nodes
    ensures SelfHops(nbrIDs) == InitialNode(t, self).next
  {
    forall n | n in nbrIDs
      ensures 0 < n && n in t.nodes
    {
      assert Linked(t, self, n);
    }
  }

  lemma NoHops()
    ensures R.HopMap(R.NO_SLOTS) == map[]
  {
    forall d
      ensures d !in R.HopMap(R.NO_SLOTS)
    {
      R.HopMapKey(R.NO_SLOTS, d);
    }
  }

  lemma InitialRowsOk(t: Topology, nbrIDs: seq<int>, self: int)
    requires ValidTopology(t) && Distinct(nbrIDs) && forall n :: n in nbrIDs ==> Linked(t, self, n)
    ensures D.RowsOk(D.InitialRows(t, self, nbrIDs + [self]), self)
  {
    var rows := D.InitialRows(t, self, nbrIDs + [self]);
    forall i, j | 0 <= i < j < |rows|
      ensures rows[i].id != rows[j].id
    {
      if j == |nbrIDs| {
        assert Linked(t, self, nbrIDs[i]);
      }
    }
  }

  /** The class and the protocol agree: handling a neighbour's vector is the protocol's step. */
  lemma HandlingIsHearing(b: Build, t: Topology, s: Net, n: int, a: Advert, nbrIDs: seq<int>, tb: Tables)
    requires ValidTopology(t) && n in s.nodes && Linked(t, n, a.src)
    requires forall k :: k in nbrIDs <==> Linked(t, n, k)
    requires D.RowsOk(tb.rows, n) && NodeOf(tb) == s.nodes[n]
    ensures var r := HandleAll(b, n, tb, a.src, CostTo(NbrEntries(t, n, nbrIDs), a.src), a.entries);
            D.RowsOk(r.rows, n) && NodeOf(r) == Hear(b, t, s, n, a)
  {
    NbrCostIsLinkCost(t, n, nbrIDs, a.src);
    HandleAllIsRelaxAll(b, n, tb, a.src, LinkCost(t, n, a.src), a.entries);
  }
}
