/** The distance-vector table: one row of costs for each neighbour and, last, one for the node itself. */
module DvTable {
  import opened Topology
  import opened DistanceVector

  /** A row as a value: whose costs, and what they are. */
  datatype Row = Row(id: int, entries: seq<Entry>)

  // ---------------------------------------------------------------- lookups and updates on values

  /** Index of the first entry for `dest`, or -1. */
  function IndexOf(es: seq<Entry>, dest: int): (i: int)
    ensures -1 <= i < |es|
    ensures 0 <= i ==> es[i].dest == dest
    ensures forall j :: 0 <= j < (if i < 0 then |es| else i) ==> es[j].dest != dest
  {
    if es == [] then -1
    else if es[0].dest == dest then 0
    else
      var i := IndexOf(es[1..], dest);
      if i < 0 then -1 else i + 1
  }

  /** The first row of `src` that has an entry for `dest`, or -1. */
  function RowOf(rows: seq<Row>, src: int, dest: int): (i: int)
    ensures -1 <= i < |rows|
    ensures 0 <= i ==> rows[i].id == src && 0 <= IndexOf(rows[i].entries, dest)
    ensures forall j :: 0 <= j < (if i < 0 then |rows| else i) ==>
              !(rows[j].id == src && 0 <= IndexOf(rows[j].entries, dest))
  {
    if rows == [] then -1
    else if rows[0].id == src && 0 <= IndexOf(rows[0].entries, dest) then 0
    else
      var i := RowOf(rows[1..], src, dest);
      if i < 0 then -1 else i + 1
  }

  /** The cost found in the first `scanned` rows, or infinity. */
  function CostIn(rows: seq<Row>, scanned: nat, src: int, dest: int): int
    requires scanned <= |rows|
  {
    var r := RowOf(rows[..scanned], src, dest);
    if r < 0 then INFINITE_COST else rows[r].entries[IndexOf(rows[r].entries, dest)].cost
  }

  function WithCost(rows: seq<Row>, src: int, dest: int, cost: int): seq<Row> {
    var r := RowOf(rows, src, dest);
    if r < 0 then rows
    else
      var i := IndexOf(rows[r].entries, dest);
      rows[r := Row(src, rows[r].entries[i := Entry(dest, cost)])]
  }

  ghost predicate DistinctRows(rows: seq<Row>) {
    forall i, j :: 0 <= i < j < |rows| ==> rows[i].id != rows[j].id
  }

  ghost predicate DistinctDests(es: seq<Entry>) {
    forall i, j :: 0 <= i < j < |es| ==> es[i].dest != es[j].dest
  }

  /** A row as the map from destinations to costs. */
  function RowMap(es: seq<Entry>): map<int, int> {
    map d | d in Dests(es) :: CostOfPresent(es, d)
  }

  function Dests(es: seq<Entry>): set<int> {
    set i | 0 <= i < |es| :: es[i].dest
  }

  function CostOfPresent(es: seq<Entry>, d: int): int
    requires d in Dests(es)
  {
    es[IndexOf(es, d)].cost
  }

  /** Exactly the destinations with an entry are keys, at the cost a lookup finds. */
  lemma RowMapKey(es: seq<Entry>, d: int)
    ensures d in RowMap(es) <==> 0 <= IndexOf(es, d)
    ensures d in RowMap(es) ==> RowMap(es)[d] == es[IndexOf(es, d)].cost
  {
    if 0 <= IndexOf(es, d) {
      assert es[IndexOf(es, d)].dest == d;
    }
  }

  lemma {:induction false} SameIndex(es: seq<Entry>, es': seq<Entry>, d: int)
    requires |es| == |es'| && forall i :: 0 <= i < |es| ==> es[i].dest == es'[i].dest
    ensures IndexOf(es, d) == IndexOf(es', d)
  {
  }

  /** `es'` is `es` with another cost in entry `i`. */
  ghost predicate CostChanged(es: seq<Entry>, es': seq<Entry>, i: int, cost: int) {
    && |es'| == |es| && 0 <= i < |es| && es'[i] == Entry(es[i].dest, cost)
    && forall k :: 0 <= k < |es| && k != i ==> es'[k] == es[k]
  }

  lemma RowMapUpdateAt(es: seq<Entry>, es': seq<Entry>, i: int, cost: int, d: int)
    requires CostChanged(es, es', i, cost) && DistinctDests(es)
    ensures d in RowMap(es') <==> d in RowMap(es)
    ensures es[i].dest in RowMap(es)
    ensures d in RowMap(es) ==> RowMap(es')[d] == if d == es[i].dest then cost else RowMap(es)[d]
  {
    RowMapKey(es, d);
    RowMapKey(es', d);
    SameIndex(es, es', d);
    RowMapKey(es, es[i].dest);
  }

  lemma MapUpdated(m: map<int, int>, m': map<int, int>, x: int, cost: int)
    requires x in m && forall d :: d in m' <==> d in m
    requires forall d :: d in m ==> m'[d] == if d == x then cost else m[d]
    ensures m' == SetCost(m, x, cost)
  {
    var updated := m[x := cost];
    assert forall d :: d in updated <==> d in m';
    assert forall d :: d in updated ==> updated[d] == m'[d];
  }

  /** Overwriting the cost of one entry is updating one key of the map. */
  lemma RowMapUpdate(es: seq<Entry>, es': seq<Entry>, i: int, cost: int)
    requires CostChanged(es, es', i, cost) && DistinctDests(es)
    ensures RowMap(es') == SetCost(RowMap(es), es[i].dest, cost)
  {
    RowMapUpdateAt(es, es', i, cost, es[i].dest);
    forall d
      ensures d in RowMap(es') <==> d in RowMap(es)
    {
      RowMapUpdateAt(es, es', i, cost, d);
    }
    forall d | d in RowMap(es)
      ensures RowMap(es')[d] == if d == es[i].dest then cost else RowMap(es)[d]
    {
      RowMapUpdateAt(es, es', i, cost, d);
    }
    MapUpdated(RowMap(es), RowMap(es'), es[i].dest, cost);
  }

  // ---------------------------------------------------------------- a table with its owner's row last

  ghost predicate RowsOk(rows: seq<Row>, me: int) {
    && rows != [] && rows[|rows| - 1].id == me
    && DistinctRows(rows)
    && forall i :: 0 <= i < |rows| ==> DistinctDests(rows[i].entries)
  }

  function OwnRow(rows: seq<Row>): map<int, int>
    requires rows != []
  {
    RowMap(rows[|rows| - 1].entries)
  }

  /** How many rows a lookup goes through: all but the last as shipped, all as documented. */
  function Scanned(b: Build, rows: nat): nat
    requires 0 < rows
  {
    if b.readsOwnRow then rows else rows - 1
  }

  /** A lookup of an own cost finds the row's entry if it looks at the last row, and infinity if it
      does not, whatever the row holds. */
  lemma OwnLookup(b: Build, rows: seq<Row>, me: int, dest: int)
    requires RowsOk(rows, me)
    ensures CostIn(rows, Scanned(b, |rows|), me, dest) == OwnCost(b, OwnRow(rows), dest)
  {
    var last := |rows| - 1;
    var prefix := rows[..Scanned(b, |rows|)];
    RowMapKey(rows[last].entries, dest);
    var r := RowOf(prefix, me, dest);
    if 0 <= r {
      assert rows[r].id == me;
      assert r == last;
    } else if b.readsOwnRow {
      assert prefix[last] == rows[last];
    }
  }

  /** Setting a cost changes the one row it names, or nothing. */
  lemma SetInRow(rows: seq<Row>, me: int, src: int, dest: int, cost: int)
    requires RowsOk(rows, me)
    ensures RowsOk(WithCost(rows, src, dest, cost), me) && |WithCost(rows, src, dest, cost)| == |rows|
    ensures OwnRow(WithCost(rows, src, dest, cost)) ==
              if src == me then SetCost(OwnRow(rows), dest, cost) else OwnRow(rows)
    ensures forall i :: 0 <= i < |rows| ==>
              && WithCost(rows, src, dest, cost)[i].id == rows[i].id
              && (rows[i].id != src ==> WithCost(rows, src, dest, cost)[i] == rows[i])
              && (rows[i].id == src ==>
                    RowMap(WithCost(rows, src, dest, cost)[i].entries) == SetCost(RowMap(rows[i].entries), dest, cost))
  {
    var r, rows' := RowOf(rows, src, dest), WithCost(rows, src, dest, cost);
    if 0 <= r {
      RowMapUpdate(rows[r].entries, rows'[r].entries, IndexOf(rows[r].entries, dest), cost);
    }
    forall i | 0 <= i < |rows|
      ensures rows'[i].id == rows[i].id && DistinctDests(rows'[i].entries)
      ensures if rows[i].id == src then RowMap(rows'[i].entries) == SetCost(RowMap(rows[i].entries), dest, cost)
              else rows'[i] == rows[i]
    {
      RowMapKey(rows[i].entries, dest);
    }
  }

  /** What setting a cost does to one row. */
  lemma SetOneRow(rows: seq<Row>, rows': seq<Row>, me: int, src: int, dest: int, cost: int, i: int)
    requires RowsOk(rows, me) && 0 <= i < |rows| && rows' == WithCost(rows, src, dest, cost)
    ensures RowsOk(rows', me) && |rows'| == |rows| && rows'[i].id == rows[i].id
    ensures RowMap(rows'[i].entries) ==
              if rows[i].id == src then SetCost(RowMap(rows[i].entries), dest, cost) else RowMap(rows[i].entries)
  {
    SetInRow(rows, me, src, dest, cost);
  }

  /** What it does to the own row. */
  lemma SetOwn(rows: seq<Row>, rows': seq<Row>, me: int, src: int, dest: int, cost: int)
    requires RowsOk(rows, me) && rows' == WithCost(rows, src, dest, cost)
    ensures RowsOk(rows', me) && |rows'| == |rows|
    ensures OwnRow(rows') == if src == me then SetCost(OwnRow(rows), dest, cost) else OwnRow(rows)
  {
    SetInRow(rows, me, src, dest, cost);
  }

  // ---------------------------------------------------------------- the arrays

  class DvRow {
    const nodeID: int
    const dvEntry: array<Entry>
    ghost const index: int

    constructor (id: int, entries: array<Entry>, ghost i: int)
      ensures nodeID == id && dvEntry == entries && index == i
    {
      nodeID, dvEntry, index := id, entries, i;
    }
  }

  class Table {
    const rows: array<DvRow>
    /** The abstract value: all rows, in order. */
    ghost var view: seq<Row>
    ghost var Repr: set<object>

    ghost predicate RowAt(i: int)
      requires 0 <= i < rows.Length == |view|
      reads this, Repr, rows, rows[i].dvEntry
    {
      var row := rows[i];
      && row in Repr && row.dvEntry in Repr && row.index == i
      && view[i] == Row(row.nodeID, row.dvEntry[..])
    }

    ghost predicate Valid()
      reads this, Repr
      ensures Valid() ==> this in Repr
    {
      && this in Repr && rows in Repr && 0 < rows.Length == |view|
      && (forall i {:trigger rows[i]} :: 0 <= i < rows.Length ==> rows[i].dvEntry in Repr && RowAt(i))
      && (forall i, j :: 0 <= i < j < rows.Length ==> rows[i].dvEntry != rows[j].dvEntry)
    }

    /** The table of node `me`: a row for each neighbour, then its own, all filled with the direct
        costs from the topology. */
    constructor (t: Topology, me: int, nbrs: seq<int>)
      ensures Valid() && fresh(Repr)
      ensures view == InitialRows(t, me, nbrs + [me]) && HoldsLinkCosts(t, me, nbrs + [me], view)
    {
      var rs, repr := NewRows(t, me, nbrs + [me]);
      rows := rs;
      view := InitialRows(t, me, nbrs + [me]);
      Repr := repr + {this};
      new;
      forall k | 0 <= k < rows.Length
        ensures rows[k].dvEntry in Repr && RowAt(k)
      {
        assert view[k] == Row((nbrs + [me])[k], InitialEntries(t, me, (nbrs + [me])[k]));
      }
      InitialRowsHoldLinkCosts(t, me, nbrs + [me]);
    }

    /** Walks the first `scanned` rows, and each row of `src` among them, to the first entry for `dest`. */
    method FindCell(scanned: int, src: int, dest: int) returns (r: int, index: int)
      requires Valid() && 0 <= scanned <= rows.Length
      ensures r == RowOf(view[..scanned], src, dest)
      ensures 0 <= r ==> index == IndexOf(view[r].entries, dest)
    {
      r := 0;
      while r < scanned
        invariant 0 <= r <= scanned
        invariant forall k :: 0 <= k < r ==> !(view[k].id == src && 0 <= IndexOf(view[k].entries, dest))
      {
        assert RowAt(r);
        if src == rows[r].nodeID {
          index := FindEntry(rows[r].dvEntry, dest);
          if 0 <= index {
            FoundRow(view[..scanned], r, src, dest);
            return;
          }
        }
        r := r + 1;
      }
      r, index := -1, -1;
    }

    /** Stores a cost in the first matching entry of the whole table. */
    method SetTableCost(src: int, dest: int, cost: int) returns (ok: bool)
      requires Valid()
      modifies Repr
      ensures Valid() && Repr == old(Repr)
      ensures ok <==> 0 <= RowOf(old(view), src, dest)
      ensures view == WithCost(old(view), src, dest, cost)
    {
      assert view[..rows.Length] == view;
      var r, index := FindCell(rows.Length, src, dest);
      if r < 0 {
        return false;
      }
      assert RowAt(r);
      rows[r].dvEntry[index] := Entry(dest, cost);
      view := view[r := Row(src, view[r].entries[index := Entry(dest, cost)])];
      forall i | 0 <= i < rows.Length
        ensures RowAt(i)
      {
        assert old(RowAt(i));
      }
      return true;
    }

    /** Looks a cost up, going through all rows, or all but the node's own. */
    method GetTableCost(b: Build, src: int, dest: int) returns (cost: int)
      requires Valid()
      ensures cost == CostIn(view, Scanned(b, |view|), src, dest)
    {
      var r, index := FindCell(Scanned(b, rows.Length), src, dest);
      if r < 0 {
        return INFINITE_COST;
      }
      assert RowAt(r);
      return rows[r].dvEntry[index].cost;
    }
  }

  lemma FoundRow(rows: seq<Row>, r: int, src: int, dest: int)
    requires 0 <= r < |rows| && rows[r].id == src && 0 <= IndexOf(rows[r].entries, dest)
    requires forall k :: 0 <= k < r ==> !(rows[k].id == src && 0 <= IndexOf(rows[k].entries, dest))
    ensures RowOf(rows, src, dest) == r
  {
  }

  /** The first entry for `dest`, or -1. */
  method FindEntry(es: array<Entry>, dest: int) returns (index: int)
    ensures index == IndexOf(es[..], dest)
  {
    index := 0;
    while index < es.Length
      invariant 0 <= index <= es.Length
      invariant forall k :: 0 <= k < index ==> es[k].dest != dest
    {
      if es[index].dest == dest {
        return;
      }
      index := index + 1;
    }
    index := -1;
  }

  /** The row of `owner` in the table of node `me`: an entry for each node that `me` lists. */
  function InitialEntries(t: Topology, me: int, owner: int): seq<Entry> {
    var list := NodeList(t, me);
    seq(|list|, i requires 0 <= i < |list| => Entry(list[i], DirectCost(t, owner, list[i])))
  }

  function InitialRows(t: Topology, me: int, owners: seq<int>): seq<Row> {
    seq(|owners|, i requires 0 <= i < |owners| => Row(owners[i], InitialEntries(t, me, owners[i])))
  }

  method NewEntries(t: Topology, me: int, owner: int) returns (es: array<Entry>)
    ensures fresh(es) && es[..] == InitialEntries(t, me, owner)
  {
    var list := NodeList(t, me);
    es := new Entry[|list|](i => Entry(0, 0));
    var i := 0;
    while i < |list|
      invariant 0 <= i <= |list|
      invariant forall k :: 0 <= k < i ==> es[k] == InitialEntries(t, me, owner)[k]
    {
      es[i] := Entry(list[i], DirectCost(t, owner, list[i]));
      i := i + 1;
    }
  }

  /** The array of rows, one for each owner, no two of them sharing storage. */
  method NewRows(t: Topology, me: int, owners: seq<int>) returns (rs: array<DvRow>, ghost repr: set<object>)
    ensures fresh(repr) && rs in repr && rs.Length == |owners|
    ensures forall k :: 0 <= k < rs.Length ==>
              && rs[k] in repr && rs[k].dvEntry in repr && rs[k].index == k
              && rs[k].nodeID == owners[k] && rs[k].dvEntry[..] == InitialEntries(t, me, owners[k])
    ensures forall k, l :: 0 <= k < l < rs.Length ==> rs[k].dvEntry != rs[l].dvEntry
  {
    var dummy := new Entry[0];
    var none := new DvRow(me, dummy, 0);
    rs := new DvRow[|owners|](i => none);
    repr := {rs};
    var i := 0;
    while i < |owners|
      invariant 0 <= i <= |owners| && fresh(repr) && rs in repr
      invariant forall k :: 0 <= k < i ==>
                  && rs[k] in repr && rs[k].dvEntry in repr && rs[k].index == k
                  && rs[k].nodeID == owners[k] && rs[k].dvEntry[..] == InitialEntries(t, me, owners[k])
      invariant forall k, l :: 0 <= k < l < i ==> rs[k].dvEntry != rs[l].dvEntry
    {
      var es := NewEntries(t, me, owners[i]);
      var row := new DvRow(owners[i], es, i);
      rs[i] := row;
      repr := repr + {es, row};
      i := i + 1;
    }
  }

  /** Row `i` belongs to owner `i` and maps each node that `me` lists, and no other, to zero if it is the
      owner, to the cost of the link between the two if there is one, and to infinity otherwise. */
  ghost predicate HoldsLinkCosts(t: Topology, me: int, owners: seq<int>, rows: seq<Row>) {
    && |rows| == |owners|
    && forall i {:trigger rows[i]} :: 0 <= i < |rows| ==>
         rows[i].id == owners[i] && RowHoldsLinkCosts(t, me, owners[i], RowMap(rows[i].entries))
  }

  ghost predicate RowHoldsLinkCosts(t: Topology, me: int, owner: int, row: map<int, int>) {
    && (forall x :: x in row <==> Lists(t, me, x))
    && forall x :: x in row ==>
         row[x] == if x == owner then 0 else if (owner, x) in t.links then t.links[(owner, x)] else 999
  }

  lemma InitialRowHoldsLinkCosts(t: Topology, me: int, owner: int)
    ensures RowHoldsLinkCosts(t, me, owner, RowMap(InitialEntries(t, me, owner)))
  {
    var list, es := NodeList(t, me), InitialEntries(t, me, owner);
    forall x
      ensures x in RowMap(es) <==> Lists(t, me, x)
      ensures x in RowMap(es) ==> RowMap(es)[x] == DirectCost(t, owner, x)
    {
      RowMapKey(es, x);
      if Lists(t, me, x) {
        var i :| 0 <= i < |list| && list[i] == x;
        assert es[i].dest == x;
      }
    }
  }

  /** A fresh table holds the link costs of every owner, not only of the node itself. */
  lemma InitialRowsHoldLinkCosts(t: Topology, me: int, owners: seq<int>)
    ensures HoldsLinkCosts(t, me, owners, InitialRows(t, me, owners))
  {
    forall i | 0 <= i < |owners|
      ensures RowHoldsLinkCosts(t, me, owners[i], RowMap(InitialRows(t, me, owners)[i].entries))
    {
      InitialRowHoldsLinkCosts(t, me, owners[i]);
    }
  }

  /** So a lookup in a fresh table, with a neighbour as source, finds that neighbour's own link costs,
      whichever rows it goes through. */
  lemma FreshLookup(b: Build, t: Topology, me: int, nbrs: seq<int>, rows: seq<Row>, src: int, x: int)
    requires HoldsLinkCosts(t, me, nbrs + [me], rows) && src in nbrs && src != me && Lists(t, me, x)
    ensures CostIn(rows, Scanned(b, |rows|), src, x) ==
              if x == src then 0 else if (src, x) in t.links then t.links[(src, x)] else 999
  {
    var prefix := rows[..Scanned(b, |rows|)];
    var i :| 0 <= i < |nbrs| && nbrs[i] == src;
    assert (nbrs + [me])[i] == src && prefix[i] == rows[i];
    RowMapKey(rows[i].entries, x);
    var r := RowOf(prefix, src, x);
    assert r <= i;
    assert rows[r] == prefix[r] && RowHoldsLinkCosts(t, me, src, RowMap(rows[r].entries));
    RowMapKey(rows[r].entries, x);
  }

  /** A fresh table's own row is the map a node starts from. */
  lemma InitialOwnRow(t: Topology, me: int, nbrs: seq<int>)
    requires ValidTopology(t)
    ensures OwnRow(InitialRows(t, me, nbrs + [me])) == map x | x in t.nodes && Lists(t, me, x) :: DirectCost(t, me, x)
  {
    var list, es := NodeList(t, me), InitialEntries(t, me, me);
    assert InitialRows(t, me, nbrs + [me])[|nbrs|].entries == es;
    forall d
      ensures d in RowMap(es) <==> Lists(t, me, d)
      ensures d in RowMap(es) ==> RowMap(es)[d] == DirectCost(t, me, d)
    {
      RowMapKey(es, d);
      if Lists(t, me, d) {
        var i :| 0 <= i < |list| && list[i] == d;
        assert es[i].dest == d;
      }
    }
  }
}
