/** Rounds of broadcasts: how fast the asynchronous network reaches shortest paths. */
module Convergence {
  import opened Topology
  import opened DistanceVector
  import opened RoutingProtocol
  import opened Quiescence

  /** Between steps `from` and `to`, node `m` broadcasts and that very vector reaches `n`.
      Anything else, old vectors included, may happen in between. */
  ghost predicate Heard(b: Build, t: Topology, acts: seq<Action>, from: nat, to: nat, m: int, n: int)
    requires to <= |acts|
  {
    exists i, j {:trigger acts[i], acts[j]} :: from <= i < j < to
      && acts[i] == Broadcast(m)
      && Legal(b, t, acts[..i]) && m in Exec(b, t, acts[..i]).nodes
      && acts[j] == Deliver(FreshAdvert(b, t, Exec(b, t, acts[..i]), m), n)
  }

  ghost predicate Round(b: Build, t: Topology, acts: seq<Action>, from: nat, to: nat) {
    from <= to <= |acts| && forall n, m :: Linked(t, n, m) ==> Heard(b, t, acts, from, to, m, n)
  }

  /** Consecutive marks delimit consecutive rounds. */
  ghost predicate Rounds(b: Build, t: Topology, acts: seq<Action>, marks: seq<nat>) {
    && marks != [] && marks[|marks| - 1] <= |acts|
    && forall k, l :: 0 <= k && l == k + 1 && l < |marks| ==> Round(b, t, acts, marks[k], marks[l])
  }

  /** No own cost exceeds the cost of any way of at most `k` links. */
  ghost predicate WithinWays(t: Topology, s: Net, k: nat)
    requires Shape(t, s)
  {
    forall n, x, w :: n in t.nodes && Lists(t, n, x) && Way(t, w, n, x) && |w| <= k + 1 ==>
      s.nodes[n].own[x] <= WalkCost(t, w)
  }

  lemma ShortWalkCost(t: Topology, w: seq<int>)
    requires ValidTopology(t) && IsWalk(t, w) && |w| <= 2
    ensures WalkCost(t, w) == DirectCost(t, w[0], w[|w| - 1])
  {
  }

  lemma InitWithinWays(t: Topology)
    requires ValidTopology(t)
    ensures Shape(t, Init(t)) && WithinWays(t, Init(t), 1)
  {
    InitInv(t);
    forall n, x, w | n in t.nodes && Lists(t, n, x) && Way(t, w, n, x) && |w| <= 2
      ensures Init(t).nodes[n].own[x] <= WalkCost(t, w)
    {
      ShortWalkCost(t, w);
      assert Init(t).nodes[n].own[x] == DirectCost(t, n, x);
    }
  }

  /** After a delivery the receiver is within one link of what the vector says. */
  lemma DeliveryBound(b: Build, t: Topology, s: Net, n: int, a: Advert, x: int, c: int)
    requires b.readsOwnRow && ValidTopology(t) && Inv(t, s) && Enabled(t, s, Deliver(a, n))
    requires Lists(t, n, x) && Entry(x, c) in a.entries
    ensures Shape(t, Apply(b, t, s, Deliver(a, n)))
    ensures Apply(b, t, s, Deliver(a, n)).nodes[n].own[x] <= LinkCost(t, n, a.src) + c
  {
    DeliverKeepsInv(b, t, s, a, n);
    RelaxAllIsMinimum(b, s.nodes[n], a.src, LinkCost(t, n, a.src), a.entries, x);
  }

  lemma FallsBetween(b: Build, t: Topology, acts: seq<Action>, i: nat, j: nat)
    requires b.readsOwnRow && ValidTopology(t) && Legal(b, t, acts) && i <= j <= |acts|
    ensures Legal(b, t, acts[..i]) && Legal(b, t, acts[..j])
    ensures Inv(t, Exec(b, t, acts[..i])) && Inv(t, Exec(b, t, acts[..j]))
    ensures Falls(t, Exec(b, t, acts[..i]), Exec(b, t, acts[..j]))
  {
    LegalPrefix(b, t, acts, j);
    assert acts[..j][..i] == acts[..i];
    CostsNeverRise(b, t, acts[..j], i);
  }

  /** `m` broadcasts in state `mid`; `n` hears it in state `pre`. */
  lemma HeardInStates(b: Build, t: Topology, s: Net, mid: Net, pre: Net, s': Net, n: int, m: int, x: int)
    requires b.readsOwnRow && ValidTopology(t) && Inv(t, s) && Inv(t, mid) && Inv(t, pre) && Inv(t, s')
    requires n in t.nodes && m in t.nodes && Lists(t, n, x) && Lists(t, m, x) && Linked(t, n, m)
    requires Enabled(t, pre, Deliver(FreshAdvert(b, t, mid, m), n))
    requires Inv(t, Apply(b, t, pre, Deliver(FreshAdvert(b, t, mid, m), n)))
    requires Falls(t, s, mid) && Falls(t, Apply(b, t, pre, Deliver(FreshAdvert(b, t, mid, m), n)), s')
    ensures s'.nodes[n].own[x] <= LinkCost(t, n, m) + s.nodes[m].own[x]
  {
    FreshHas(b, t, mid, m, x);
    DeliveryBound(b, t, pre, n, FreshAdvert(b, t, mid, m), x, mid.nodes[m].own[x]);
  }

  /** Hearing a neighbour once in a stretch of the run bounds the listener at its end by the
      neighbour at its start. */
  lemma HeardBound(b: Build, t: Topology, acts: seq<Action>, from: nat, to: nat, n: int, m: int, x: int)
    requires b.readsOwnRow && ValidTopology(t) && Legal(b, t, acts) && from <= to <= |acts|
    requires n in t.nodes && m in t.nodes && Lists(t, n, x) && Lists(t, m, x) && Linked(t, n, m)
    requires Heard(b, t, acts, from, to, m, n)
    ensures Legal(b, t, acts[..from]) && Legal(b, t, acts[..to])
    ensures Inv(t, Exec(b, t, acts[..from])) && Inv(t, Exec(b, t, acts[..to]))
    ensures Exec(b, t, acts[..to]).nodes[n].own[x] <=
              LinkCost(t, n, m) + Exec(b, t, acts[..from]).nodes[m].own[x]
  {
    var i, j :| from <= i < j < to
      && acts[i] == Broadcast(m)
      && Legal(b, t, acts[..i]) && m in Exec(b, t, acts[..i]).nodes
      && acts[j] == Deliver(FreshAdvert(b, t, Exec(b, t, acts[..i]), m), n);
    FallsBetween(b, t, acts, from, i);
    FallsBetween(b, t, acts, j, j + 1);
    FallsBetween(b, t, acts, j + 1, to);
    ExecSplit(b, t, acts, j);
    HeardInStates(b, t, Exec(b, t, acts[..from]), Exec(b, t, acts[..i]),
                  Exec(b, t, acts[..j]), Exec(b, t, acts[..to]), n, m, x);
  }

  lemma ExecSplit(b: Build, t: Topology, acts: seq<Action>, j: nat)
    requires j < |acts| && Legal(b, t, acts[..j + 1])
    ensures Legal(b, t, acts[..j]) && Enabled(t, Exec(b, t, acts[..j]), acts[j])
    ensures Exec(b, t, acts[..j + 1]) == Apply(b, t, Exec(b, t, acts[..j]), acts[j])
  {
    assert acts[..j + 1][..j] == acts[..j];
  }

  /** Every row is within one link of what its neighbours held before. */
  ghost predicate HeardAll(t: Topology, s: Net, s': Net)
    requires Shape(t, s) && Shape(t, s')
  {
    forall n, m, x | n in t.nodes && m in t.nodes && Lists(t, n, x) && Lists(t, m, x) && Linked(t, n, m) ::
      s'.nodes[n].own[x] <= LinkCost(t, n, m) + s.nodes[m].own[x]
  }

  lemma WayOneFurther(t: Topology, s: Net, s': Net, k: nat, n: int, x: int, w: seq<int>)
    requires Inv(t, s) && Inv(t, s') && WithinWays(t, s, k) && HeardAll(t, s, s')
    requires n in t.nodes && Lists(t, n, x) && Way(t, w, n, x) && |w| <= k + 2
    ensures s'.nodes[n].own[x] <= WalkCost(t, w)
  {
    if |w| > 1 {
      var m := WayStep(t, w, n, x);
      WithinWay(t, s, k, m, x, w[1..]);
      HeardFrom(t, s, s', n, m, x);
    } else {
      assert n == x;
    }
  }

  lemma WithinWay(t: Topology, s: Net, k: nat, n: int, x: int, w: seq<int>)
    requires Shape(t, s) && WithinWays(t, s, k)
    requires n in t.nodes && Lists(t, n, x) && Way(t, w, n, x) && |w| <= k + 1
    ensures s.nodes[n].own[x] <= WalkCost(t, w)
  {
  }

  lemma HeardFrom(t: Topology, s: Net, s': Net, n: int, m: int, x: int)
    requires Shape(t, s) && Shape(t, s') && HeardAll(t, s, s')
    requires n in t.nodes && m in t.nodes && Lists(t, n, x) && Lists(t, m, x) && Linked(t, n, m)
    ensures s'.nodes[n].own[x] <= LinkCost(t, n, m) + s.nodes[m].own[x]
  {
  }

  lemma OneLinkFurther(t: Topology, s: Net, s': Net, k: nat)
    requires Inv(t, s) && Inv(t, s') && WithinWays(t, s, k) && HeardAll(t, s, s')
    ensures WithinWays(t, s', k + 1)
  {
    forall n, x, w | n in t.nodes && Lists(t, n, x) && Way(t, w, n, x) && |w| <= k + 2
      ensures s'.nodes[n].own[x] <= WalkCost(t, w)
    {
      WayOneFurther(t, s, s', k, n, x, w);
    }
  }

  /** One round lets every row look one link further. */
  lemma RoundExtends(b: Build, t: Topology, acts: seq<Action>, from: nat, to: nat, k: nat)
    requires b.readsOwnRow && ValidTopology(t) && Legal(b, t, acts) && Round(b, t, acts, from, to)
    requires Legal(b, t, acts[..from]) && Inv(t, Exec(b, t, acts[..from]))
    requires WithinWays(t, Exec(b, t, acts[..from]), k)
    ensures Legal(b, t, acts[..to]) && Inv(t, Exec(b, t, acts[..to]))
    ensures WithinWays(t, Exec(b, t, acts[..to]), k + 1)
  {
    FallsBetween(b, t, acts, from, to);
    var s, s' := Exec(b, t, acts[..from]), Exec(b, t, acts[..to]);
    forall n, m, x | Linked(t, n, m) && n in t.nodes && m in t.nodes && Lists(t, n, x) && Lists(t, m, x)
      ensures s'.nodes[n].own[x] <= LinkCost(t, n, m) + s.nodes[m].own[x]
    {
      HeardBound(b, t, acts, from, to, n, m, x);
    }
    OneLinkFurther(t, s, s', k);
  }

  lemma WithinWaysFalls(t: Topology, s: Net, s': Net, k: nat)
    requires Shape(t, s) && Shape(t, s') && WithinWays(t, s, k) && Falls(t, s, s')
    ensures WithinWays(t, s', k)
  {
    forall n, x, w | n in t.nodes && Lists(t, n, x) && Way(t, w, n, x) && |w| <= k + 1
      ensures s'.nodes[n].own[x] <= WalkCost(t, w)
    {
      assert s.nodes[n].own[x] <= WalkCost(t, w);
    }
  }

  lemma BeforeRounds(b: Build, t: Topology, acts: seq<Action>, end: nat)
    requires b.readsOwnRow && ValidTopology(t) && Legal(b, t, acts) && end <= |acts|
    ensures Legal(b, t, acts[..end]) && Inv(t, Exec(b, t, acts[..end]))
    ensures WithinWays(t, Exec(b, t, acts[..end]), 1)
  {
    InitWithinWays(t);
    FallsBetween(b, t, acts, 0, end);
    assert acts[..0] == [];
    WithinWaysFalls(t, Init(t), Exec(b, t, acts[..end]), 1);
  }

  /** After `k` rounds each own cost is at most that of every way of at most `k + 1` links. */
  lemma {:induction false} AfterRounds(b: Build, t: Topology, acts: seq<Action>, marks: seq<nat>, end: nat)
    requires b.readsOwnRow && ValidTopology(t) && Legal(b, t, acts) && Rounds(b, t, acts, marks)
    requires end == marks[|marks| - 1]
    ensures Legal(b, t, acts[..end]) && Inv(t, Exec(b, t, acts[..end]))
    ensures WithinWays(t, Exec(b, t, acts[..end]), |marks|)
    decreases |marks|
  {
    if |marks| == 1 {
      BeforeRounds(b, t, acts, end);
    } else {
      var k := |marks| - 2;
      assert Round(b, t, acts, marks[k], marks[k + 1]);
      AfterRounds(b, t, acts, marks[..k + 1], marks[k]);
      RoundExtends(b, t, acts, marks[k], end, k + 1);
    }
  }

  /** Convergence: after |nodes| - 2 rounds, and ever after, every own row holds exactly the capped
      lengths of shortest ways and no vector would change any; if all nodes are listed, these are the
      shortest-path distances and the network is quiet. */
  lemma Converges(b: Build, t: Topology, acts: seq<Action>, marks: seq<nat>)
    requires b.readsOwnRow && ValidTopology(t) && Legal(b, t, acts) && Rounds(b, t, acts, marks)
    requires |t.nodes| - 2 <= |marks| - 1
    ensures Converged(b, t, Exec(b, t, acts))
  {
    var end := marks[|marks| - 1];
    AfterRounds(b, t, acts, marks, end);
    CostsNeverRise(b, t, acts, end);
    WithinWaysFalls(t, Exec(b, t, acts[..end]), Exec(b, t, acts), |marks|);
    WithinAllOptimal(t, Exec(b, t, acts), |marks|);
    AllOptimalConverged(b, t, Exec(b, t, acts));
  }

  ghost predicate Converged(b: Build, t: Topology, s: Net) {
    && Inv(t, s) && RowsOptimal(t, s) && RowsQuiet(b, t, s)
    && (t.listsAll ==> Optimal(t, s) && Quiescent(b, t, s))
  }

  lemma AllOptimalConverged(b: Build, t: Topology, s: Net)
    requires b.readsOwnRow && ValidTopology(t) && Inv(t, s) && RowsOptimal(t, s)
    ensures Converged(b, t, s)
  {
    RowsQuietIffOptimal(b, t, s);
    if t.listsAll {
      ListingAll(b, t, s);
    }
  }

  /** Rows within every way of |nodes| - 1 links are within every way at all. */
  lemma WithinAllOptimal(t: Topology, s: Net, k: nat)
    requires ValidTopology(t) && Inv(t, s) && WithinWays(t, s, k) && |t.nodes| <= k + 1
    ensures RowsOptimal(t, s)
  {
    forall n, x | n in t.nodes && Lists(t, n, x)
      ensures IsWayDistance(t, n, x, s.nodes[n].own[x])
    {
      assert Backed(t, n, x, s.nodes[n].own[x]);
      forall w | Way(t, w, n, x)
        ensures s.nodes[n].own[x] <= WalkCost(t, w)
      {
        var r := ShortWalkSuffices(t, w);
        WithinWay(t, s, k, n, x, r);
      }
    }
  }
}
