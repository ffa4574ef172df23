/** Rounds can always happen: no reachable network is cut off from its optimum. */
module RoundsExist {
  import opened Topology
  import opened DistanceVector
  import opened RoutingProtocol
  import opened Convergence

  lemma Extend(b: Build, t: Topology, acts: seq<Action>, a: Action)
    requires Legal(b, t, acts) && Enabled(t, Exec(b, t, acts), a)
    ensures Legal(b, t, acts + [a]) && Exec(b, t, acts + [a]) == Apply(b, t, Exec(b, t, acts), a)
  {
    assert (acts + [a])[..|acts + [a]| - 1] == acts;
  }

  /** The run `acts`, then `m` broadcasts and `n` hears it. */
  lemma TellRun(b: Build, t: Topology, acts: seq<Action>, s: Net, n: int, m: int) returns (acts': seq<Action>)
    requires b.readsOwnRow && ValidTopology(t) && Legal(b, t, acts) && s == Exec(b, t, acts) && Inv(t, s)
    requires n in t.nodes && m in t.nodes && Linked(t, n, m)
    ensures acts <= acts' && Legal(b, t, acts')
    ensures Inv(t, Apply(b, t, s, Broadcast(m)))
    ensures Exec(b, t, acts') ==
              Apply(b, t, Apply(b, t, s, Broadcast(m)), Deliver(FreshAdvert(b, t, s, m), n))
  {
    BroadcastKeepsInv(b, t, s, m);
    Extend(b, t, acts, Broadcast(m));
    Extend(b, t, acts + [Broadcast(m)], Deliver(FreshAdvert(b, t, s, m), n));
    acts' := acts + [Broadcast(m)] + [Deliver(FreshAdvert(b, t, s, m), n)];
  }

  /** What was heard stays heard in a longer run. */
  lemma HeardLonger(b: Build, t: Topology, acts: seq<Action>, acts': seq<Action>, from: nat, m: int, n: int)
    requires acts <= acts' && Heard(b, t, acts, from, |acts|, m, n)
    ensures Heard(b, t, acts', from, |acts'|, m, n)
  {
    var i, j :| from <= i < j < |acts|
      && acts[i] == Broadcast(m)
      && Legal(b, t, acts[..i]) && m in Exec(b, t, acts[..i]).nodes
      && acts[j] == Deliver(FreshAdvert(b, t, Exec(b, t, acts[..i]), m), n);
    assert acts'[..i] == acts[..i] && acts'[i] == acts[i] && acts'[j] == acts[j];
  }

  /** One neighbour can always be heard. */
  lemma HearOne(b: Build, t: Topology, acts: seq<Action>, m: int, n: int) returns (acts': seq<Action>)
    requires b.readsOwnRow && ValidTopology(t) && Legal(b, t, acts) && Linked(t, n, m)
    ensures acts <= acts' && Legal(b, t, acts') && Heard(b, t, acts', |acts|, |acts'|, m, n)
  {
    ReachableInv(b, t, acts);
    var s := Exec(b, t, acts);
    assert m in t.nodes && n in t.nodes;
    Extend(b, t, acts, Broadcast(m));
    var d := Deliver(FreshAdvert(b, t, s, m), n);
    Extend(b, t, acts + [Broadcast(m)], d);
    acts' := acts + [Broadcast(m)] + [d];
    HeardAtOnce(b, t, acts, m, n);
  }

  lemma HeardAtOnce(b: Build, t: Topology, acts: seq<Action>, m: int, n: int)
    requires Legal(b, t, acts) && m in Exec(b, t, acts).nodes
    ensures var acts' := acts + [Broadcast(m)] + [Deliver(FreshAdvert(b, t, Exec(b, t, acts), m), n)];
            Heard(b, t, acts', |acts|, |acts'|, m, n)
  {
    var d := Deliver(FreshAdvert(b, t, Exec(b, t, acts), m), n);
    var acts' := acts + [Broadcast(m)] + [d];
    assert acts'[..|acts|] == acts && acts'[|acts|] == Broadcast(m) && acts'[|acts| + 1] == d;
  }

  /** All of a set of links can be heard. */
  lemma {:induction false} HearAll(b: Build, t: Topology, acts: seq<Action>, links: set<(int, int)>)
    returns (acts': seq<Action>)
    requires b.readsOwnRow && ValidTopology(t) && Legal(b, t, acts)
    requires forall n, m :: (n, m) in links ==> Linked(t, n, m)
    ensures acts <= acts' && Legal(b, t, acts')
    ensures forall n, m :: (n, m) in links ==> Heard(b, t, acts', |acts|, |acts'|, m, n)
    decreases |links|
  {
    if links == {} {
      acts' := acts;
    } else {
      var l :| l in links;
      assert l == (l.0, l.1);
      var mid := HearAll(b, t, acts, links - {l});
      acts' := HearOne(b, t, mid, l.1, l.0);
      forall n, m | (n, m) in links
        ensures Heard(b, t, acts', |acts|, |acts'|, m, n)
      {
        if (n, m) == l {
          HeardEarlier(b, t, acts', |acts|, |mid|, m, n);
        } else {
          HeardLonger(b, t, mid, acts', |acts|, m, n);
        }
      }
    }
  }

  lemma HeardEarlier(b: Build, t: Topology, acts: seq<Action>, from: nat, mid: nat, m: int, n: int)
    requires from <= mid && Heard(b, t, acts, mid, |acts|, m, n)
    ensures Heard(b, t, acts, from, |acts|, m, n)
  {
  }

  /** Any run can go on for `k` more rounds. */
  lemma {:induction false} MoreRounds(b: Build, t: Topology, acts: seq<Action>, k: nat)
    returns (acts': seq<Action>, marks: seq<nat>)
    requires b.readsOwnRow && ValidTopology(t) && Legal(b, t, acts)
    ensures acts <= acts' && Legal(b, t, acts')
    ensures |marks| == k + 1 && marks[k] == |acts'| && Rounds(b, t, acts', marks)
  {
    if k == 0 {
      acts', marks := acts, [|acts|];
    } else {
      var mid, ms := MoreRounds(b, t, acts, k - 1);
      acts' := HearAll(b, t, mid, t.links.Keys);
      marks := ms + [|acts'|];
      forall i, j | 0 <= i && j == i + 1 && j < |marks|
        ensures Round(b, t, acts', marks[i], marks[j])
      {
        if j < |ms| {
          RoundLonger(b, t, mid, acts', ms[i], ms[j]);
        }
      }
    }
  }

  lemma RoundLonger(b: Build, t: Topology, acts: seq<Action>, acts': seq<Action>, from: nat, to: nat)
    requires acts <= acts' && Round(b, t, acts, from, to)
    ensures Round(b, t, acts', from, to)
  {
    forall n, m | Linked(t, n, m)
      ensures Heard(b, t, acts', from, to, m, n)
    {
      assert Heard(b, t, acts, from, to, m, n);
      var i, j :| from <= i < j < to
        && acts[i] == Broadcast(m)
        && Legal(b, t, acts[..i]) && m in Exec(b, t, acts[..i]).nodes
        && acts[j] == Deliver(FreshAdvert(b, t, Exec(b, t, acts[..i]), m), n);
      assert acts'[..i] == acts[..i] && acts'[i] == acts[i] && acts'[j] == acts[j];
    }
  }

  /** From every reachable network some further run leads to shortest paths everywhere. */
  lemma CanConverge(b: Build, t: Topology, acts: seq<Action>) returns (acts': seq<Action>)
    requires b.readsOwnRow && ValidTopology(t) && Legal(b, t, acts)
    ensures acts <= acts' && Legal(b, t, acts')
    ensures Converged(b, t, Exec(b, t, acts'))
  {
    var marks;
    acts', marks := MoreRounds(b, t, acts, |t.nodes|);
    Converges(b, t, acts', marks);
  }
}
