/** The routing table: ten slots, each the head of a linked list of routing entries. */
module RoutingTable {
  import opened DistanceVector

  const MAX_ROUTINGTABLE_SLOTS := 10

  /** A routing entry's contents. */
  datatype Hop = Hop(dest: int, next: int)

  function MakeHash(node: int): (slot: int)
    requires 0 < node
    ensures 0 <= slot < MAX_ROUTINGTABLE_SLOTS && (node - slot) % MAX_ROUTINGTABLE_SLOTS == 0
  {
    node % MAX_ROUTINGTABLE_SLOTS
  }

  /** Two destinations share a slot exactly when they differ by a multiple of ten. */
  lemma SameSlotIff(a: int, b: int)
    requires 0 < a && 0 < b
    ensures MakeHash(a) == MakeHash(b) <==> (a - b) % 10 == 0
  {
  }

  // ---------------------------------------------------------------- one slot, as a list

  /** The next hop in the first entry for `dest`, or -1. */
  function Find(hops: seq<Hop>, dest: int): int {
    if hops == [] then -1
    else if hops[0].dest == dest then hops[0].next
    else Find(hops[1..], dest)
  }

  predicate Has(hops: seq<Hop>, dest: int) {
    exists i :: 0 <= i < |hops| && hops[i].dest == dest
  }

  /** The shipped insertion always appends; the documented one overwrites the first entry there is. */
  function Insert(b: Build, hops: seq<Hop>, dest: int, next: int): seq<Hop> {
    if hops == [] then [Hop(dest, next)]
    else if b.replacesHop && hops[0].dest == dest then [Hop(dest, next)] + hops[1..]
    else [hops[0]] + Insert(b, hops[1..], dest, next)
  }

  ghost predicate SlotOk(hops: seq<Hop>, slot: int) {
    forall i :: 0 <= i < |hops| ==> 0 < hops[i].dest && 0 < hops[i].next && MakeHash(hops[i].dest) == slot
  }

  ghost predicate NoRepeats(hops: seq<Hop>) {
    forall i, j :: 0 <= i < j < |hops| ==> hops[i].dest != hops[j].dest
  }

  lemma {:induction false} FindHas(hops: seq<Hop>, dest: int, slot: int)
    requires SlotOk(hops, slot)
    ensures if Has(hops, dest) then 0 < Find(hops, dest) else Find(hops, dest) == -1
  {
    if hops != [] {
      FindHas(hops[1..], dest, slot);
      if Has(hops[1..], dest) {
        var i :| 0 <= i < |hops[1..]| && hops[1..][i].dest == dest;
        assert hops[i + 1].dest == dest;
      }
      if Has(hops, dest) && hops[0].dest != dest {
        var i :| 0 <= i < |hops| && hops[i].dest == dest;
        assert hops[1..][i - 1].dest == dest;
      }
    }
  }

  /** What an insertion does to every lookup in its slot. */
  lemma {:induction false} InsertFind(b: Build, hops: seq<Hop>, dest: int, next: int, d: int, slot: int)
    requires SlotOk(hops, slot) && 0 < dest && 0 < next && MakeHash(dest) == slot
    ensures SlotOk(Insert(b, hops, dest, next), slot)
    ensures Find(Insert(b, hops, dest, next), d) ==
              if d == dest && (b.replacesHop || !Has(hops, dest)) then next else Find(hops, d)
    ensures Has(Insert(b, hops, dest, next), d) <==> d == dest || Has(hops, d)
  {
    var r := Insert(b, hops, dest, next);
    if hops == [] {
      assert r[0].dest == dest;
    } else if b.replacesHop && hops[0].dest == dest {
      assert r[0].dest == dest;
      if Has(hops, d) && d != dest {
        var i :| 0 <= i < |hops| && hops[i].dest == d;
        assert r[i].dest == d;
      }
      if Has(r, d) && d != dest {
        var i :| 0 <= i < |r| && r[i].dest == d;
        assert hops[i].dest == d;
      }
    } else {
      InsertFind(b, hops[1..], dest, next, d, slot);
      HasTail(hops, d);
      HasTail(hops, dest);
      HasTail(r, d);
      assert r[1..] == Insert(b, hops[1..], dest, next);
    }
  }

  lemma HasTail(hops: seq<Hop>, d: int)
    requires hops != []
    ensures Has(hops, d) <==> hops[0].dest == d || Has(hops[1..], d)
  {
    if Has(hops[1..], d) {
      var i :| 0 <= i < |hops[1..]| && hops[1..][i].dest == d;
      assert hops[i + 1].dest == d;
    }
    if Has(hops, d) && hops[0].dest != d {
      var i :| 0 <= i < |hops| && hops[i].dest == d;
      assert hops[1..][i - 1].dest == d;
    }
  }

  /** Overwriting insertion keeps each destination at most once. */
  lemma {:induction false} InsertNoRepeats(b: Build, hops: seq<Hop>, dest: int, next: int)
    requires b.replacesHop && NoRepeats(hops)
    ensures NoRepeats(Insert(b, hops, dest, next))
    ensures forall i :: 0 <= i < |Insert(b, hops, dest, next)| ==>
              Insert(b, hops, dest, next)[i].dest == dest || Has(hops, Insert(b, hops, dest, next)[i].dest)
  {
    if hops != [] && hops[0].dest != dest {
      InsertNoRepeats(b, hops[1..], dest, next);
      var r, q := Insert(b, hops, dest, next), Insert(b, hops[1..], dest, next);
      forall i | 0 <= i < |q|
        ensures q[i].dest != hops[0].dest && (q[i].dest == dest || Has(hops, q[i].dest))
      {
        if q[i].dest != dest {
          HasTail(hops, q[i].dest);
          var j :| 0 <= j < |hops[1..]| && hops[1..][j].dest == q[i].dest;
          assert hops[j + 1].dest == q[i].dest;
        }
      }
      assert forall i :: 0 < i < |r| ==> r[i] == q[i - 1];
      assert hops[0].dest == r[0].dest && Has(hops, r[0].dest);
    } else if hops != [] {
      assert Has(hops, dest);
      var r := Insert(b, hops, dest, next);
      assert forall i :: 0 < i < |r| ==> r[i] == hops[i];
    }
  }

  // ---------------------------------------------------------------- the whole table, as ten lists

  ghost predicate SlotsOk(slots: seq<seq<Hop>>) {
    |slots| == MAX_ROUTINGTABLE_SLOTS && forall i :: 0 <= i < |slots| ==> SlotOk(slots[i], i)
  }

  function Lookup(slots: seq<seq<Hop>>, dest: int): int
    requires |slots| == MAX_ROUTINGTABLE_SLOTS
  {
    if 0 < dest then Find(slots[MakeHash(dest)], dest) else -1
  }

  function InsertSlots(b: Build, slots: seq<seq<Hop>>, dest: int, next: int): seq<seq<Hop>>
    requires |slots| == MAX_ROUTINGTABLE_SLOTS
  {
    if 0 < dest && 0 < next then
      slots[MakeHash(dest) := Insert(b, slots[MakeHash(dest)], dest, next)]
    else slots
  }

  function Dests(hops: seq<Hop>): set<int> {
    set i | 0 <= i < |hops| :: hops[i].dest
  }

  function AllDests(slots: seq<seq<Hop>>): set<int> {
    set i, d | 0 <= i < |slots| && d in Dests(slots[i]) :: d
  }

  /** The table as the map its lookups realise. */
  function HopMap(slots: seq<seq<Hop>>): map<int, int>
    requires |slots| == MAX_ROUTINGTABLE_SLOTS
  {
    map d | d in AllDests(slots) :: Lookup(slots, d)
  }

  lemma HopMapKey(slots: seq<seq<Hop>>, d: int)
    requires SlotsOk(slots)
    ensures d in HopMap(slots) <==> 0 < d && Has(slots[MakeHash(d)], d)
    ensures d in HopMap(slots) ==> HopMap(slots)[d] == Lookup(slots, d) && 0 < HopMap(slots)[d]
    ensures d !in HopMap(slots) ==> Lookup(slots, d) == -1
  {
    if d in HopMap(slots) {
      var i :| 0 <= i < |slots| && d in Dests(slots[i]);
      var j :| 0 <= j < |slots[i]| && slots[i][j].dest == d;
      assert SlotOk(slots[i], i) && MakeHash(d) == i;
    }
    if 0 < d {
      var h := MakeHash(d);
      assert SlotOk(slots[h], h);
      FindHas(slots[h], d, h);
      if Has(slots[h], d) {
        assert d in Dests(slots[h]);
        assert d in AllDests(slots);
      }
    }
  }

  /** Setting a next hop in the hash table is setting it in the map: overwriting when documented,
      first-come when shipped. */
  lemma InsertIsMapUpdate(b: Build, slots: seq<seq<Hop>>, dest: int, next: int)
    requires SlotsOk(slots)
    ensures SlotsOk(InsertSlots(b, slots, dest, next))
    ensures HopMap(InsertSlots(b, slots, dest, next)) == SetNextHop(b, HopMap(slots), dest, next)
  {
    if 0 < dest && 0 < next {
      var h, slots' := MakeHash(dest), InsertSlots(b, slots, dest, next);
      assert SlotOk(slots[h], h);
      InsertFind(b, slots[h], dest, next, dest, h);
      forall i | 0 <= i < |slots'|
        ensures SlotOk(slots'[i], i)
      {
        assert SlotOk(slots[i], i);
      }
      var m, m' := HopMap(slots'), SetNextHop(b, HopMap(slots), dest, next);
      forall d
        ensures d in m <==> d in m'
        ensures d in m ==> m[d] == m'[d]
      {
        HopMapKey(slots', d);
        HopMapKey(slots, d);
        HopMapKey(slots, dest);
        if 0 < d && MakeHash(d) == h {
          InsertFind(b, slots[h], dest, next, d, h);
        }
      }
    }
  }

  // ---------------------------------------------------------------- sequences of calls

  function InsertAll(b: Build, slots: seq<seq<Hop>>, calls: seq<Hop>): (r: seq<seq<Hop>>)
    requires |slots| == MAX_ROUTINGTABLE_SLOTS
    ensures |r| == MAX_ROUTINGTABLE_SLOTS
  {
    if calls == [] then slots
    else InsertSlots(b, InsertAll(b, slots, calls[..|calls| - 1]), calls[|calls| - 1].dest, calls[|calls| - 1].next)
  }

  const NO_SLOTS: seq<seq<Hop>> := seq(MAX_ROUTINGTABLE_SLOTS, i => [])

  predicate Valid(call: Hop) {
    0 < call.dest && 0 < call.next
  }

  /** The last valid call for `d`, or -1. */
  function LastCall(calls: seq<Hop>, d: int): int {
    if calls == [] then -1
    else if Valid(calls[|calls| - 1]) && calls[|calls| - 1].dest == d then calls[|calls| - 1].next
    else LastCall(calls[..|calls| - 1], d)
  }

  /** The first valid call for `d`, or -1. */
  function FirstCall(calls: seq<Hop>, d: int): int {
    if calls == [] then -1
    else if Valid(calls[0]) && calls[0].dest == d then calls[0].next
    else FirstCall(calls[1..], d)
  }

  lemma {:induction false} FirstCallSnoc(calls: seq<Hop>, c: Hop, d: int)
    ensures FirstCall(calls + [c], d) ==
              if FirstCall(calls, d) != -1 then FirstCall(calls, d)
              else if Valid(c) && c.dest == d then c.next else -1
    ensures FirstCall(calls, d) == -1 || 0 < FirstCall(calls, d)
  {
    if calls == [] {
      assert ([] + [c])[1..] == [];
    } else {
      assert (calls + [c])[1..] == calls[1..] + [c];
      FirstCallSnoc(calls[1..], c, d);
    }
  }

  /** Documented table: after any calls, a lookup returns the latest next hop, or -1 if none. */
  lemma {:induction false} DocumentedReturnsLatest(b: Build, calls: seq<Hop>, d: int)
    requires b.replacesHop
    ensures SlotsOk(InsertAll(b, NO_SLOTS, calls))
    ensures Lookup(InsertAll(b, NO_SLOTS, calls), d) == if 0 < d then LastCall(calls, d) else -1
    ensures forall i :: 0 <= i < MAX_ROUTINGTABLE_SLOTS ==> NoRepeats(InsertAll(b, NO_SLOTS, calls)[i])
  {
    if calls != [] {
      var init, c := calls[..|calls| - 1], calls[|calls| - 1];
      DocumentedReturnsLatest(b, init, d);
      var s := InsertAll(b, NO_SLOTS, init);
      InsertIsMapUpdate(b, s, c.dest, c.next);
      HopMapKey(s, d);
      HopMapKey(InsertSlots(b, s, c.dest, c.next), d);
      if Valid(c) {
        InsertNoRepeats(b, s[MakeHash(c.dest)], c.dest, c.next);
      }
    }
  }

  /** Shipped table: a lookup returns the first next hop ever set; later calls have no effect. */
  lemma {:induction false} ShippedReturnsFirst(b: Build, calls: seq<Hop>, d: int)
    requires !b.replacesHop
    ensures SlotsOk(InsertAll(b, NO_SLOTS, calls))
    ensures Lookup(InsertAll(b, NO_SLOTS, calls), d) == if 0 < d then FirstCall(calls, d) else -1
  {
    if calls != [] {
      var init, c := calls[..|calls| - 1], calls[|calls| - 1];
      ShippedReturnsFirst(b, init, d);
      var s := InsertAll(b, NO_SLOTS, init);
      InsertIsMapUpdate(b, s, c.dest, c.next);
      HopMapKey(s, d);
      HopMapKey(InsertSlots(b, s, c.dest, c.next), d);
      FirstCallSnoc(init, c, d);
      assert init + [c] == calls;
    }
  }

  /** A shipped call does what its comment promises exactly when the destination has no entry yet, or
      has this very next hop already. */
  lemma ShippedCallWorksIff(b: Build, slots: seq<seq<Hop>>, dest: int, next: int)
    requires !b.replacesHop && SlotsOk(slots) && 0 < dest && 0 < next
    ensures Lookup(InsertSlots(b, slots, dest, next), dest) == next <==>
            Lookup(slots, dest) == -1 || Lookup(slots, dest) == next
  {
    InsertIsMapUpdate(b, slots, dest, next);
    HopMapKey(slots, dest);
    HopMapKey(InsertSlots(b, slots, dest, next), dest);
  }

  // ---------------------------------------------------------------- the linked structure

  /** A routing entry. `slot` and `pos` say where it hangs. */
  class RoutingEntry {
    var destNodeID: int
    var nextNodeID: int
    var next: RoutingEntry?
    ghost var slot: int
    ghost var pos: int

    constructor (dest: int, hop: int)
      ensures destNodeID == dest && nextNodeID == hop && next == null
    {
      destNodeID, nextNodeID, next := dest, hop, null;
    }
  }

  class Table {
    const heads: array<RoutingEntry?>
    /** The abstract value: what each slot's list holds, in order. */
    ghost var slots: seq<seq<Hop>>
    ghost var chains: seq<seq<RoutingEntry>>
    ghost var Repr: set<object>

    /** Slot `i` is the acyclic list `chain`, ended by null, and holds what `hops` says. */
    ghost predicate ListIs(i: int, chain: seq<RoutingEntry>, hops: seq<Hop>)
      requires 0 <= i < heads.Length
      reads heads, chain
    {
      && heads[i] == (if chain == [] then null else chain[0])
      && |hops| == |chain|
      && (forall j {:trigger chain[j]} :: 0 <= j < |chain| ==>
            var e := chain[j];
            e.slot == i && e.pos == j && hops[j] == Hop(e.destNodeID, e.nextNodeID))
      && (forall j {:trigger chain[j].next} :: 0 <= j < |chain| ==>
            chain[j].next == if j + 1 < |chain| then chain[j + 1] else null)
    }

    ghost predicate ChainOk(i: int)
      requires 0 <= i < heads.Length == |chains| == |slots|
      reads this, heads, chains[i]
    {
      ListIs(i, chains[i], slots[i])
    }

    ghost predicate Valid()
      reads this, Repr
      ensures Valid() ==> this in Repr
    {
      && this in Repr && heads in Repr
      && heads.Length == MAX_ROUTINGTABLE_SLOTS == |chains| == |slots|
      && (forall i, j :: 0 <= i < |chains| && 0 <= j < |chains[i]| ==> chains[i][j] in Repr)
      && (forall i :: 0 <= i < |chains| ==> ChainOk(i))
      && SlotsOk(slots)
    }

    constructor ()
      ensures Valid() && fresh(Repr) && slots == NO_SLOTS
    {
      heads := new RoutingEntry?[MAX_ROUTINGTABLE_SLOTS](i => null);
      chains := seq(MAX_ROUTINGTABLE_SLOTS, i => []);
      slots := NO_SLOTS;
      new;
      Repr := {this, heads};
    }

    /** Walks one slot's list to the first entry for `dest`. */
    method FindEntry(h: int, dest: int) returns (p: RoutingEntry?, ghost j: int)
      requires Valid() && 0 <= h < MAX_ROUTINGTABLE_SLOTS
      ensures p == null ==> !Has(slots[h], dest)
      ensures p != null ==>
                && 0 <= j < |chains[h]| == |slots[h]| && p == chains[h][j] && p.destNodeID == dest
                && !Has(slots[h][..j], dest)
    {
      assert ChainOk(h);
      p, j := heads[h], 0;
      while p != null && p.destNodeID != dest
        invariant 0 <= j <= |chains[h]|
        invariant p == if j < |chains[h]| then chains[h][j] else null
        invariant forall i :: 0 <= i < j ==> slots[h][i].dest != dest
        decreases |chains[h]| - j
      {
        assert slots[h][j] == Hop(chains[h][j].destNodeID, chains[h][j].nextNodeID);
        p, j := p.next, j + 1;
      }
      if p == null {
        assert j == |slots[h]|;
      }
    }

    /** The next hop recorded for `dest`, or -1. */
    method GetNextNode(dest: int) returns (hop: int)
      requires Valid()
      ensures hop == Lookup(slots, dest)
    {
      if dest <= 0 {
        return -1;
      }
      var h := MakeHash(dest);
      var p, j := FindEntry(h, dest);
      if p == null {
        FindAbsent(slots[h], dest);
        return -1;
      }
      assert ChainOk(h);
      assert slots[h][j] == Hop(p.destNodeID, p.nextNodeID);
      FindFirst(slots[h], dest, j);
      return p.nextNodeID;
    }

    /** No entry hangs in two lists. */
    lemma Apart(i: int, h: int)
      requires Valid() && 0 <= i < heads.Length && 0 <= h < heads.Length && i != h
      ensures forall j :: 0 <= j < |chains[i]| ==> chains[i][j] in Repr && chains[i][j] !in chains[h]
    {
      assert ChainOk(i) && ChainOk(h);
    }

    /** Hangs an entry behind the last one of slot `h`'s list. */
    method Hang(h: int, e: RoutingEntry)
      requires Valid() && 0 <= h < MAX_ROUTINGTABLE_SLOTS && e !in Repr && e.next == null
      modifies heads, chains[h], e
      ensures forall i :: 0 <= i < heads.Length && i != h ==> heads[i] == old(heads[i])
      ensures ListIs(h, chains[h] + [e], slots[h] + [Hop(e.destNodeID, e.nextNodeID)])
      ensures e.destNodeID == old(e.destNodeID) && e.nextNodeID == old(e.nextNodeID)
    {
      assert ChainOk(h);
      var p := heads[h];
      if p == null {
        heads[h] := e;
      } else {
        ghost var j := 0;
        while p.next != null
          invariant 0 <= j < |chains[h]| && p == chains[h][j]
          decreases |chains[h]| - j
          modifies {}
        {
          p, j := p.next, j + 1;
        }
        p.next := e;
      }
      e.slot, e.pos := h, |chains[h]|;
    }

    /** Hangs a new entry behind the last one of slot `h` and takes it into the table. */
    method Append(h: int, e: RoutingEntry)
      requires Valid() && 0 <= h < MAX_ROUTINGTABLE_SLOTS && e !in Repr && e.next == null
      requires 0 < e.destNodeID && 0 < e.nextNodeID && MakeHash(e.destNodeID) == h
      modifies Repr, e
      ensures Valid() && Repr == old(Repr) + {e}
      ensures slots == old(slots)[h := old(slots[h]) + [Hop(old(e.destNodeID), old(e.nextNodeID))]]
    {
      forall i | 0 <= i < |chains| && i != h
        ensures forall j :: 0 <= j < |chains[i]| ==> chains[i][j] in Repr && chains[i][j] !in chains[h]
      {
        Apart(i, h);
      }
      Hang(h, e);
      ghost var hops := slots[h] + [Hop(e.destNodeID, e.nextNodeID)];
      SlotGrows(slots, h, Hop(e.destNodeID, e.nextNodeID));
      forall i | 0 <= i < |chains| && i != h
        ensures ListIs(i, chains[i], slots[i])
      {
        assert old(ChainOk(i));
      }
      slots, chains := slots[h := hops], chains[h := chains[h] + [e]];
      Repr := Repr + {e};
    }

    /** Overwrites the next hop of the entry at place `j` of slot `h`. */
    method Overwrite(h: int, ghost j: int, p: RoutingEntry, hop: int)
      requires Valid() && 0 <= h < MAX_ROUTINGTABLE_SLOTS && 0 < hop
      requires 0 <= j < |chains[h]| == |slots[h]| && p == chains[h][j]
      modifies Repr
      ensures Valid() && Repr == old(Repr)
      ensures slots == old(slots)[h := old(slots[h])[j := Hop(old(p.destNodeID), hop)]]
    {
      assert ChainOk(h);
      assert SlotOk(slots[h], h);
      assert slots[h][j].dest == p.destNodeID;
      p.nextNodeID := hop;
      slots := slots[h := slots[h][j := Hop(p.destNodeID, hop)]];
      forall i | 0 <= i < |chains|
        ensures ChainOk(i)
      {
        assert old(ChainOk(i));
      }
      forall i | 0 <= i < |slots|
        ensures SlotOk(slots[i], i)
      {
        assert SlotOk(old(slots)[i], i);
      }
    }

    /** Records `hop` as the next hop to `dest`: always a new entry at the end of the list as shipped;
        as documented, in place of the entry that is there. */
    method SetNextNode(b: Build, dest: int, hop: int) returns (ok: bool)
      requires Valid()
      modifies Repr
      ensures Valid() && fresh(Repr - old(Repr))
      ensures ok == (0 < dest && 0 < hop)
      ensures slots == InsertSlots(b, old(slots), dest, hop)
      ensures HopMap(slots) == SetNextHop(b, HopMap(old(slots)), dest, hop)
    {
      InsertIsMapUpdate(b, slots, dest, hop);
      if hop <= 0 || dest <= 0 {
        return false;
      }
      var h := MakeHash(dest);
      if b.replacesHop {
        var p, j := FindEntry(h, dest);
        if p != null {
          assert ChainOk(h);
          InsertReplaces(b, slots[h], dest, hop, j);
          Overwrite(h, j, p, hop);
          return true;
        }
      }
      InsertAppends(b, slots[h], dest, hop);
      var e := new RoutingEntry(dest, hop);
      Append(h, e);
      return true;
    }
  }

  /** A hop in its own slot may be added there. */
  lemma SlotGrows(slots: seq<seq<Hop>>, h: int, hop: Hop)
    requires SlotsOk(slots) && 0 <= h < |slots| && Valid(hop) && MakeHash(hop.dest) == h
    ensures SlotsOk(slots[h := slots[h] + [hop]])
  {
    var slots' := slots[h := slots[h] + [hop]];
    forall i | 0 <= i < |slots'|
      ensures SlotOk(slots'[i], i)
    {
      assert SlotOk(slots[i], i);
    }
  }

  lemma {:induction false} FindAbsent(hops: seq<Hop>, dest: int)
    requires !Has(hops, dest)
    ensures Find(hops, dest) == -1
  {
    if hops != [] {
      HasTail(hops, dest);
      FindAbsent(hops[1..], dest);
    }
  }

  lemma {:induction false} FindFirst(hops: seq<Hop>, dest: int, j: int)
    requires 0 <= j < |hops| && hops[j].dest == dest && !Has(hops[..j], dest)
    ensures Find(hops, dest) == hops[j].next
  {
    if j > 0 {
      HasTail(hops[..j], dest);
      assert hops[..j][1..] == hops[1..][..j - 1];
      FindFirst(hops[1..], dest, j - 1);
    }
  }

  lemma {:induction false} InsertReplaces(b: Build, hops: seq<Hop>, dest: int, next: int, j: int)
    requires b.replacesHop && 0 <= j < |hops| && hops[j].dest == dest && !Has(hops[..j], dest)
    ensures Insert(b, hops, dest, next) == hops[j := Hop(dest, next)]
  {
    if j > 0 {
      HasTail(hops[..j], dest);
      assert hops[..j][1..] == hops[1..][..j - 1];
      InsertReplaces(b, hops[1..], dest, next, j - 1);
    }
  }

  lemma {:induction false} InsertAppends(b: Build, hops: seq<Hop>, dest: int, next: int)
    requires !b.replacesHop || !Has(hops, dest)
    ensures Insert(b, hops, dest, next) == hops + [Hop(dest, next)]
  {
    if hops != [] {
      HasTail(hops, dest);
      InsertAppends(b, hops[1..], dest, next);
    }
  }
}
