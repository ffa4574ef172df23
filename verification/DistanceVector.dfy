/** What one route update does to one node: the relaxation rule on values. */
module DistanceVector {
  import opened Topology

  /** Which of two texts of the table code a node runs. `readsOwnRow`: a cost lookup also searches
      the node's own row, the last one. `replacesHop`: setting a next hop overwrites the entry
      that is already there. */
  datatype Build = Build(readsOwnRow: bool, replacesHop: bool)

  /** The table code as it stands. */
  const SHIPPED := Build(false, false)
  /** The table code as its header comments describe it. */
  const DOCUMENTED := Build(true, true)

  /** One line of a route update: a destination and the sender's cost to it. */
  datatype Entry = Entry(dest: int, cost: int)

  /** The parts of a node that decide routing: its own distance-vector row and its next hops. */
  datatype Node = Node(own: map<int, int>, next: map<int, int>)

  function OwnCost(b: Build, own: map<int, int>, dest: int): int {
    if b.readsOwnRow && dest in own then own[dest] else INFINITE_COST
  }

  function SetCost(row: map<int, int>, dest: int, cost: int): map<int, int> {
    if dest in row then row[dest := cost] else row
  }

  /** Next hops as a lookup sees them; IDs must be positive to be entered at all. */
  function SetNextHop(b: Build, next: map<int, int>, dest: int, hop: int): map<int, int> {
    if 0 < dest && 0 < hop && (b.replacesHop || dest !in next) then next[dest := hop] else next
  }

  function RelaxEntry(b: Build, n: Node, src: int, link: int, e: Entry): Node {
    if OwnCost(b, n.own, e.dest) > link + e.cost then
      Node(SetCost(n.own, e.dest, link + e.cost), SetNextHop(b, n.next, e.dest, src))
    else n
  }

  /** A whole update from neighbour `src`, reached over a link of cost `link`. */
  function RelaxAll(b: Build, n: Node, src: int, link: int, es: seq<Entry>): Node {
    if es == [] then n
    else RelaxEntry(b, RelaxAll(b, n, src, link, es[..|es| - 1]), src, link, es[|es| - 1])
  }

  /** The vector a node broadcasts: its own row, in the order of the node list. */
  function Snapshot(b: Build, nodes: seq<int>, own: map<int, int>): seq<Entry> {
    seq(|nodes|, i requires 0 <= i < |nodes| => Entry(nodes[i], OwnCost(b, own, nodes[i])))
  }

  /** `c` is the best cost `es` offers for `x`, counting the link. */
  ghost predicate Offers(es: seq<Entry>, link: int, x: int, c: int) {
    exists e :: e in es && e.dest == x && c == link + e.cost
  }

  /** After an update each own cost is the least of the old cost and every cost on offer,
      and a cost that fell did so through the sender. */
  lemma {:induction false} RelaxAllIsMinimum(b: Build, n: Node, src: int, link: int, es: seq<Entry>, x: int)
    requires b.readsOwnRow && 0 < src && 0 < x && x in n.own
    ensures var r := RelaxAll(b, n, src, link, es);
            && r.own.Keys == n.own.Keys
            && r.own[x] <= n.own[x]
            && (forall e :: e in es && e.dest == x ==> r.own[x] <= link + e.cost)
            && (r.own[x] == n.own[x] || Offers(es, link, x, r.own[x]))
  {
    if es != [] {
      var init, last := es[..|es| - 1], es[|es| - 1];
      RelaxAllIsMinimum(b, n, src, link, init, x);
      assert forall e :: e in es <==> e in init || e == last;
      var m := RelaxAll(b, n, src, link, init);
      var r := RelaxAll(b, n, src, link, es);
      if r.own[x] == m.own[x] && m.own[x] != n.own[x] {
        var e :| e in init && e.dest == x && m.own[x] == link + e.cost;
        assert e in es;
      }
    }
  }

  /** The next hop changes exactly when the cost falls. */
  lemma {:induction false} RelaxAllHop(b: Build, n: Node, src: int, link: int, es: seq<Entry>, x: int)
    requires b.readsOwnRow && 0 < src && 0 < x && x in n.own
    ensures var r := RelaxAll(b, n, src, link, es);
            && x in r.own
            && r.own[x] <= n.own[x]
            && (r.own[x] == n.own[x] ==> (x in r.next <==> x in n.next) && (x in n.next ==> r.next[x] == n.next[x]))
            && (r.own[x] < n.own[x] ==> x in r.next)
            && (r.own[x] < n.own[x] && (b.replacesHop || x !in n.next) ==> r.next[x] == src)
            && (!b.replacesHop && x in n.next ==> x in r.next && r.next[x] == n.next[x])
  {
    if es != [] {
      var init := es[..|es| - 1];
      RelaxAllHop(b, n, src, link, init, x);
      RelaxAllIsMinimum(b, n, src, link, init, x);
    }
  }

  /** An update that offers nothing better leaves the node as it was. */
  lemma {:induction false} RelaxAllUnchanged(b: Build, n: Node, src: int, link: int, es: seq<Entry>)
    requires forall e :: e in es ==> OwnCost(b, n.own, e.dest) <= link + e.cost
    ensures RelaxAll(b, n, src, link, es) == n
  {
    if es != [] {
      var init := es[..|es| - 1];
      assert forall e :: e in init ==> e in es;
      RelaxAllUnchanged(b, n, src, link, init);
      assert es[|es| - 1] in es;
    }
  }
}
