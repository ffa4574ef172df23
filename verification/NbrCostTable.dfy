/** The neighbour cost table: the direct link costs of one node, in an array. */
module NbrCostTable {
  import opened Topology
  import opened DistanceVector
  import opened DvTable

  /** The cost of the first entry for `node`, or infinity. */
  function CostTo(es: seq<Entry>, node: int): int {
    var i := IndexOf(es, node);
    if i < 0 then INFINITE_COST else es[i].cost
  }

  function NbrEntries(t: Topology, me: int, nbrs: seq<int>): seq<Entry> {
    seq(|nbrs|, i requires 0 <= i < |nbrs| => Entry(nbrs[i], DirectCost(t, me, nbrs[i])))
  }

  method CreateNbrTable(t: Topology, me: int, nbrs: seq<int>) returns (table: array<Entry>)
    ensures fresh(table) && table[..] == NbrEntries(t, me, nbrs)
  {
    table := new Entry[|nbrs|](i => Entry(0, 0));
    var i := 0;
    while i < |nbrs|
      invariant 0 <= i <= |nbrs|
      invariant forall k :: 0 <= k < i ==> table[k] == NbrEntries(t, me, nbrs)[k]
    {
      table[i] := Entry(nbrs[i], DirectCost(t, me, nbrs[i]));
      i := i + 1;
    }
  }

  method GetNbrCost(table: array<Entry>, node: int) returns (cost: int)
    ensures cost == CostTo(table[..], node)
  {
    var i := 0;
    while i < table.Length
      invariant 0 <= i <= table.Length
      invariant forall k :: 0 <= k < i ==> table[k].dest != node
    {
      if table[i].dest == node {
        assert IndexOf(table[..], node) == i;
        return table[i].cost;
      }
      i := i + 1;
    }
    cost := INFINITE_COST;
  }

  /** The table answers with the link cost for every neighbour and with infinity for every other node. */
  lemma NbrCostIsLinkCost(t: Topology, me: int, nbrs: seq<int>, n: int)
    requires n != me && forall k :: k in nbrs <==> Linked(t, me, k)
    ensures CostTo(NbrEntries(t, me, nbrs), n) == DirectCost(t, me, n)
  {
    var es := NbrEntries(t, me, nbrs);
    if n in nbrs {
      var i :| 0 <= i < |nbrs| && nbrs[i] == n;
      assert es[i].dest == n;
    }
  }
}
