/** When append-only next hops still point nearer: a condition on the topology alone. */
module AppendOnly {
  import opened Topology
  import opened DistanceVector
  import opened RoutingProtocol
  import opened Quiescence
  import opened Convergence
  import opened RoundsExist
  import opened FirstHop

  /** A way by which `n` can come to its first cost for `x`: the next node holds its shortest way already,
      that way does not pass through `n`, and a neighbour of `x` starts from the link itself. */
  ghost predicate FirstWay(t: Topology, w: seq<int>, n: int, x: int) {
    && Way(t, w, n, x) && |w| > 1 && WalkCost(t, w) < INFINITE_COST
    && n !in w[1..]
    && IsWalk(t, w[1..]) && IsWayDistance(t, w[1], x, WalkCost(t, w[1..]))
    && (Linked(t, n, x) ==> |w| == 2)
  }

  ghost predicate FirstWaysShortest(t: Topology) {
    forall n, x, w :: FirstWay(t, w, n, x) ==> IsWayDistance(t, n, x, WalkCost(t, w))
  }

  ghost predicate AlwaysNearer(t: Topology) {
    forall acts :: Legal(APPEND_ONLY, t, acts) ==> NearerAfter(t, acts)
  }

  ghost predicate NearerAfter(t: Topology, acts: seq<Action>)
    requires Legal(APPEND_ONLY, t, acts)
  {
    Shape(t, Exec(APPEND_ONLY, t, acts)) && HopsNearer(t, Exec(APPEND_ONLY, t, acts))
  }

  // ---------------------------------------------------------------- enough

  /** A way from `n` to `x` at the cost `n` holds, on which every node has a cost for `x` by now. */
  ghost predicate SettledWay(t: Topology, s: Net, w: seq<int>, n: int, x: int)
    requires Shape(t, s) && n in t.nodes && Lists(t, n, x)
  {
    && Way(t, w, n, x) && WalkCost(t, w) == s.nodes[n].own[x]
    && forall k :: k in w ==> k in t.nodes && Lists(t, k, x) && s.nodes[k].own[x] < INFINITE_COST
  }

  /** A finite cost is final, and there is a next hop exactly when there is a cost. */
  ghost predicate Final(t: Topology, s: Net, n: int, x: int)
    requires Shape(t, s) && n in t.nodes && Lists(t, n, x)
  {
    && (s.nodes[n].own[x] < INFINITE_COST ==>
          IsWayDistance(t, n, x, s.nodes[n].own[x]) && exists w :: SettledWay(t, s, w, n, x))
    && (n != x ==> (x in s.nodes[n].next <==> s.nodes[n].own[x] < INFINITE_COST))
    && (Linked(t, n, x) ==> s.nodes[n].own[x] < INFINITE_COST)
  }

  /** So is every finite cost in flight. */
  ghost predicate FinalEntry(t: Topology, src: int, e: Entry) {
    e.cost < INFINITE_COST ==> IsWayDistance(t, src, e.dest, e.cost)
  }

  ghost predicate FinalInv(t: Topology, s: Net) {
    && Inv(t, s) && HopsNearer(t, s)
    && (forall n, x {:trigger Final(t, s, n, x)} :: n in t.nodes && Lists(t, n, x) ==> Final(t, s, n, x))
    && (forall a, e {:trigger FinalEntry(t, a.src, e), e in a.entries} ::
          a in s.adverts && e in a.entries ==> FinalEntry(t, a.src, e))
  }

  lemma SelfDistance(t: Topology, n: int)
    requires ValidTopology(t) && n in t.nodes
    ensures IsWalk(t, [n]) && WalkCost(t, [n]) == 0 && IsWayDistance(t, n, n, 0)
  {
    assert Way(t, [n], n, n);
    forall w | Way(t, w, n, n)
      ensures 0 <= WalkCost(t, w)
    {
      WalkCostPositive(t, w);
    }
  }

  lemma LinkIsFirstWay(t: Topology, n: int, x: int)
    requires ValidTopology(t) && Linked(t, n, x)
    ensures FirstWay(t, [n, x], n, x) && WalkCost(t, [n, x]) == LinkCost(t, n, x)
  {
    SelfDistance(t, x);
    WalkExtend(t, n, [x]);
    assert [n] + [x] == [n, x] && [n, x][1..] == [x];
    assert Lists(t, n, x) && Lists(t, x, x);
  }

  /** A node's cost for itself is final from the start. */
  lemma SelfFinal(t: Topology, n: int)
    requires ValidTopology(t) && Shape(t, Init(t)) && n in t.nodes
    ensures Lists(t, n, n) && Init(t).nodes[n].own[n] == 0 && Final(t, Init(t), n, n)
  {
    SelfDistance(t, n);
    assert Init(t).nodes[n] == InitialNode(t, n) && Lists(t, n, n);
    assert SettledWay(t, Init(t), [n], n, n);
  }

  lemma InitFinal(t: Topology, n: int, x: int)
    requires ValidTopology(t) && FirstWaysShortest(t) && Shape(t, Init(t)) && n in t.nodes && Lists(t, n, x)
    ensures Final(t, Init(t), n, x)
  {
    SelfFinal(t, x);
    if n != x {
      assert Init(t).nodes[n] == InitialNode(t, n);
      if Linked(t, n, x) {
        LinkIsFirstWay(t, n, x);
        assert SettledWay(t, Init(t), [n, x], n, x);
      }
    }
  }

  lemma InitFinalInv(t: Topology)
    requires ValidTopology(t) && FirstWaysShortest(t)
    ensures FinalInv(t, Init(t))
  {
    InitInv(t);
    forall n, x | n in t.nodes && Lists(t, n, x)
      ensures Final(t, Init(t), n, x)
    {
      InitFinal(t, n, x);
    }
  }

  lemma BroadcastKeepsFinal(t: Topology, s: Net, n: int)
    requires ValidTopology(t) && FinalInv(t, s) && n in t.nodes
    ensures FinalInv(t, Apply(APPEND_ONLY, t, s, Broadcast(n)))
  {
    BroadcastKeepsInv(APPEND_ONLY, t, s, n);
    BroadcastKeepsHops(APPEND_ONLY, t, s, n);
    var s' := Apply(APPEND_ONLY, t, s, Broadcast(n));
    forall a, e | a in s'.adverts && e in a.entries
      ensures FinalEntry(t, a.src, e)
    {
      if a in s.adverts {
        assert FinalEntry(t, a.src, e);
      } else {
        SnapshotEntries(APPEND_ONLY, NodeList(t, n), s.nodes[n].own, e);
        assert Final(t, s, n, e.dest);
      }
    }
    forall k, x | k in t.nodes && Lists(t, k, x)
      ensures Final(t, s', k, x)
    {
      SameFinal(t, s, s', k, x);
    }
  }

  lemma SameFinal(t: Topology, s: Net, s': Net, n: int, x: int)
    requires Shape(t, s) && Shape(t, s') && s'.nodes == s.nodes && n in t.nodes && Lists(t, n, x) && Final(t, s, n, x)
    ensures Final(t, s', n, x)
  {
    if s.nodes[n].own[x] < INFINITE_COST {
      var w :| SettledWay(t, s, w, n, x);
      assert SettledWay(t, s', w, n, x);
    }
  }

  /** What a delivery does to one entry when all costs are final: nothing, or its first cost. */
  lemma HearFinal(t: Topology, s: Net, a: Advert, n: int, x: int)
    requires ValidTopology(t) && FinalInv(t, s) && Enabled(t, s, Deliver(a, n)) && Lists(t, n, x)
    ensures n in t.nodes && a.src in t.nodes
    ensures x in Hear(APPEND_ONLY, t, s, n, a).own
    ensures var c := Hear(APPEND_ONLY, t, s, n, a).own[x];
            c == s.nodes[n].own[x] ||
            (s.nodes[n].own[x] == INFINITE_COST && Lists(t, a.src, x) &&
             c == LinkCost(t, n, a.src) + s.nodes[a.src].own[x] < INFINITE_COST)
  {
    HearEntry(APPEND_ONLY, t, s, n, a, x);
    RelaxAllIsMinimum(APPEND_ONLY, s.nodes[n], a.src, LinkCost(t, n, a.src), a.entries, x);
    var c := Hear(APPEND_ONLY, t, s, n, a).own[x];
    assert Final(t, s, n, x) && RowShape(t, n, s.nodes[n].own);
    if c < s.nodes[n].own[x] {
      var e :| e in a.entries && e.dest == x && c == LinkCost(t, n, a.src) + e.cost;
      assert Lags(t, s, a.src, e) && FinalEntry(t, a.src, e) && Final(t, s, a.src, x);
    }
  }

  /** The first cost a node gets is that of a first way. */
  lemma FirstCost(t: Topology, s: Net, n: int, m: int, x: int) returns (w: seq<int>)
    requires ValidTopology(t) && FinalInv(t, s) && Linked(t, n, m)
    requires n in t.nodes && m in t.nodes && Lists(t, n, x) && Lists(t, m, x)
    requires s.nodes[n].own[x] == INFINITE_COST && LinkCost(t, n, m) + s.nodes[m].own[x] < INFINITE_COST
    ensures SettledWay(t, s, w, m, x) && FirstWay(t, [n] + w, n, x)
    ensures WalkCost(t, [n] + w) == LinkCost(t, n, m) + s.nodes[m].own[x]
  {
    assert Final(t, s, m, x) && Final(t, s, n, x);
    w :| SettledWay(t, s, w, m, x);
    WalkExtend(t, n, w);
    assert ([n] + w)[1..] == w;
  }

  lemma DeliverFinal(t: Topology, s: Net, s': Net, a: Advert, n: int, k: int, x: int)
    requires ValidTopology(t) && FirstWaysShortest(t) && FinalInv(t, s) && Enabled(t, s, Deliver(a, n))
    requires s' == Apply(APPEND_ONLY, t, s, Deliver(a, n)) && Shape(t, s')
    requires k in t.nodes && Lists(t, k, x)
    ensures Final(t, s', k, x)
  {
    assert Final(t, s, k, x);
    KeepSettled(t, s, s', a, n, k, x);
    if k == n {
      HearFinal(t, s, a, n, x);
      HopStays(s.nodes[n], a.src, LinkCost(t, n, a.src), a.entries, x);
      if s'.nodes[n].own[x] != s.nodes[n].own[x] {
        var w := FirstCost(t, s, n, a.src, x);
        KeepWay(t, s, s', a, n, w, a.src, x);
        assert SettledWay(t, s', [n] + w, n, x);
      }
    }
  }

  /** Nodes that have a cost keep it. */
  lemma KeepsCost(t: Topology, s: Net, s': Net, a: Advert, n: int, k: int, x: int)
    requires ValidTopology(t) && FinalInv(t, s) && Enabled(t, s, Deliver(a, n))
    requires s' == Apply(APPEND_ONLY, t, s, Deliver(a, n)) && Shape(t, s')
    requires k in t.nodes && Lists(t, k, x) && s.nodes[k].own[x] < INFINITE_COST
    ensures s'.nodes[k].own[x] == s.nodes[k].own[x]
  {
    if k == n {
      HearFinal(t, s, a, n, x);
    }
  }

  lemma KeepWay(t: Topology, s: Net, s': Net, a: Advert, n: int, w: seq<int>, k: int, x: int)
    requires ValidTopology(t) && FinalInv(t, s) && Enabled(t, s, Deliver(a, n))
    requires s' == Apply(APPEND_ONLY, t, s, Deliver(a, n)) && Shape(t, s')
    requires k in t.nodes && Lists(t, k, x) && SettledWay(t, s, w, k, x)
    ensures SettledWay(t, s', w, k, x)
  {
    forall l | l in w
      ensures s'.nodes[l].own[x] == s.nodes[l].own[x]
    {
      KeepsCost(t, s, s', a, n, l, x);
    }
    assert k in w;
  }

  lemma KeepSettled(t: Topology, s: Net, s': Net, a: Advert, n: int, k: int, x: int)
    requires ValidTopology(t) && FinalInv(t, s) && Enabled(t, s, Deliver(a, n))
    requires s' == Apply(APPEND_ONLY, t, s, Deliver(a, n)) && Shape(t, s')
    requires k in t.nodes && Lists(t, k, x)
    ensures s.nodes[k].own[x] < INFINITE_COST ==>
              s'.nodes[k].own[x] == s.nodes[k].own[x] && exists w :: SettledWay(t, s', w, k, x)
  {
    assert Final(t, s, k, x);
    if s.nodes[k].own[x] < INFINITE_COST {
      var w :| SettledWay(t, s, w, k, x);
      KeepsCost(t, s, s', a, n, k, x);
      KeepWay(t, s, s', a, n, w, k, x);
    }
  }

  lemma DeliverHop(t: Topology, s: Net, s': Net, a: Advert, n: int, k: int, x: int)
    requires ValidTopology(t) && FinalInv(t, s) && Enabled(t, s, Deliver(a, n))
    requires s' == Apply(APPEND_ONLY, t, s, Deliver(a, n)) && Shape(t, s')
    requires k in t.nodes && Lists(t, k, x) && k != x && s'.nodes[k].own[x] < INFINITE_COST
    ensures HopNearer(t, s', k, x)
  {
    assert Final(t, s, k, x);
    if k == n {
      HearFinal(t, s, a, n, x);
      HopStays(s.nodes[n], a.src, LinkCost(t, n, a.src), a.entries, x);
    }
    if s.nodes[k].own[x] < INFINITE_COST {
      assert HopNearer(t, s, k, x);
      KeepsCost(t, s, s', a, n, k, x);
      KeepsCost(t, s, s', a, n, s.nodes[k].next[x], x);
    } else {
      KeepsCost(t, s, s', a, n, a.src, x);
    }
  }

  lemma DeliverKeepsFinal(t: Topology, s: Net, a: Advert, n: int)
    requires ValidTopology(t) && FirstWaysShortest(t) && FinalInv(t, s) && Enabled(t, s, Deliver(a, n))
    ensures FinalInv(t, Apply(APPEND_ONLY, t, s, Deliver(a, n)))
  {
    DeliverKeepsInv(APPEND_ONLY, t, s, a, n);
    var s' := Apply(APPEND_ONLY, t, s, Deliver(a, n));
    forall k, x | k in t.nodes && Lists(t, k, x)
      ensures Final(t, s', k, x)
    {
      DeliverFinal(t, s, s', a, n, k, x);
    }
    forall k, x | k in t.nodes && Lists(t, k, x) && k != x && s'.nodes[k].own[x] < INFINITE_COST
      ensures HopNearer(t, s', k, x)
    {
      DeliverHop(t, s, s', a, n, k, x);
    }
  }

  lemma {:induction false} RunFinal(t: Topology, acts: seq<Action>)
    requires ValidTopology(t) && FirstWaysShortest(t) && Legal(APPEND_ONLY, t, acts)
    ensures FinalInv(t, Exec(APPEND_ONLY, t, acts))
  {
    if acts == [] {
      InitFinalInv(t);
    } else {
      var init := acts[..|acts| - 1];
      RunFinal(t, init);
      match acts[|acts| - 1]
      case Broadcast(n) => BroadcastKeepsFinal(t, Exec(APPEND_ONLY, t, init), n);
      case Deliver(a, n) => DeliverKeepsFinal(t, Exec(APPEND_ONLY, t, init), a, n);
    }
  }

  // ---------------------------------------------------------------- necessary

  /** A next hop, once recorded, stays for good. */
  lemma {:induction false} HopForever(t: Topology, acts: seq<Action>, acts': seq<Action>, n: int, x: int)
    requires ValidTopology(t) && acts <= acts' && Legal(APPEND_ONLY, t, acts) && Legal(APPEND_ONLY, t, acts')
    requires n in t.nodes && Lists(t, n, x) && n in Exec(APPEND_ONLY, t, acts).nodes
    requires x in Exec(APPEND_ONLY, t, acts).nodes[n].next
    ensures n in Exec(APPEND_ONLY, t, acts').nodes
    ensures var u, v := Exec(APPEND_ONLY, t, acts).nodes[n], Exec(APPEND_ONLY, t, acts').nodes[n];
            x in v.next && v.next[x] == u.next[x]
    decreases |acts'|
  {
    if |acts'| > |acts| {
      var init := acts'[..|acts'| - 1];
      HopForever(t, acts, init, n, x);
      ReachableInv(APPEND_ONLY, t, init);
      var s := Exec(APPEND_ONLY, t, init);
      match acts'[|acts'| - 1]
      case Broadcast(_) =>
      case Deliver(a, to) =>
        if to == n {
          HopStays(s.nodes[n], a.src, LinkCost(t, n, a.src), a.entries, x);
        }
    } else {
      assert acts' == acts;
    }
  }

  /** What telling `n` of `x` does: `n` has a cost no higher than through `m`, and nobody else changes. */
  lemma TellBound(t: Topology, s: Net, s': Net, n: int, m: int, x: int)
    requires ValidTopology(t) && Inv(t, s) && m in t.nodes && n in t.nodes && Linked(t, n, m)
    requires Inv(t, Apply(APPEND_ONLY, t, s, Broadcast(m))) && Lists(t, n, x) && Lists(t, m, x)
    requires s' == Apply(APPEND_ONLY, t, Apply(APPEND_ONLY, t, s, Broadcast(m)),
                         Deliver(FreshAdvert(APPEND_ONLY, t, s, m), n))
    ensures Shape(t, s') && s'.nodes[n].own[x] <= LinkCost(t, n, m) + s.nodes[m].own[x]
    ensures forall k :: k in s.nodes && k != n ==> k in s'.nodes && s'.nodes[k] == s.nodes[k]
    ensures x !in s.nodes[n].next && s'.nodes[n].own[x] < s.nodes[n].own[x] ==>
              x in s'.nodes[n].next && s'.nodes[n].next[x] == m
  {
    var a := FreshAdvert(APPEND_ONLY, t, s, m);
    FreshHas(APPEND_ONLY, t, s, m, x);
    DeliveryBound(APPEND_ONLY, t, Apply(APPEND_ONLY, t, s, Broadcast(m)), n, a, x, s.nodes[m].own[x]);
    HopStays(s.nodes[n], m, LinkCost(t, n, m), a.entries, x);
  }

  /** Only nodes on `w` have heard anything. */
  ghost predicate HeardOnlyOn(t: Topology, s: Net, w: seq<int>) {
    forall k :: k in t.nodes && k !in w ==> k in s.nodes && k in Init(t).nodes && s.nodes[k] == Init(t).nodes[k]
  }

  /** `s` is where `acts` lead, and `m` holds a cost for `x` of at most `c`. */
  ghost predicate Told(t: Topology, acts: seq<Action>, s: Net, m: int, x: int, c: int) {
    && Legal(APPEND_ONLY, t, acts) && s == Exec(APPEND_ONLY, t, acts) && Inv(t, s)
    && m in t.nodes && Lists(t, m, x) && s.nodes[m].own[x] <= c
  }

  lemma TellNobody(t: Topology, x: int) returns (acts: seq<Action>, s: Net)
    requires ValidTopology(t) && x in t.nodes
    ensures Told(t, acts, s, x, x, 0) && HeardOnlyOn(t, s, [x])
  {
    InitInv(t);
    acts, s := [], Init(t);
    assert Init(t).nodes[x] == InitialNode(t, x);
  }

  lemma TellOneMore(t: Topology, acts: seq<Action>, s: Net, w: seq<int>, m: int, l: int, x: int, c: int)
    returns (acts': seq<Action>, s': Net)
    requires ValidTopology(t) && Told(t, acts, s, l, x, c) && HeardOnlyOn(t, s, w)
    requires m in t.nodes && Linked(t, m, l) && Lists(t, m, x)
    ensures Told(t, acts', s', m, x, LinkCost(t, m, l) + c) && HeardOnlyOn(t, s', [m] + w)
    ensures x !in s.nodes[m].next && s'.nodes[m].own[x] < s.nodes[m].own[x] ==>
              x in s'.nodes[m].next && s'.nodes[m].next[x] == l
  {
    acts' := TellRun(APPEND_ONLY, t, acts, s, m, l);
    s' := Exec(APPEND_ONLY, t, acts');
    TellBound(t, s, s', m, l, x);
    ReachableInv(APPEND_ONLY, t, acts');
  }

  /** The word can be passed along a way, from its end to its start, without anyone else hearing it. */
  lemma {:induction false} TellAlong(t: Topology, w: seq<int>, m: int, x: int)
    returns (acts: seq<Action>, s: Net)
    requires ValidTopology(t) && Way(t, w, m, x)
    ensures Told(t, acts, s, m, x, WalkCost(t, w)) && HeardOnlyOn(t, s, w)
    decreases |w|
  {
    if |w| == 1 {
      acts, s := TellNobody(t, x);
      assert w == [x];
    } else {
      var l := WayStep(t, w, m, x);
      var before, s0 := TellAlong(t, w[1..], l, x);
      acts, s := TellOneMore(t, before, s0, w[1..], m, l, x, WalkCost(t, w[1..]));
      assert w == [m] + w[1..];
    }
  }

  /** A run after which `n` sends for `x` to the second node of the way, which holds its distance. */
  lemma ReachFirstWay(t: Topology, w: seq<int>, n: int, x: int) returns (acts: seq<Action>, s: Net)
    requires ValidTopology(t) && FirstWay(t, w, n, x)
    ensures Told(t, acts, s, n, x, INFINITE_COST)
    ensures x in s.nodes[n].next && s.nodes[n].next[x] == w[1]
  {
    var m := WayStep(t, w, n, x);
    var before, s0 := TellAlong(t, w[1..], m, x);
    assert s0.nodes[n] == Init(t).nodes[n] == InitialNode(t, n);
    if Linked(t, n, x) {
      acts, s := before, s0;
    } else {
      acts, s := TellOneMore(t, before, s0, w[1..], n, m, x, WalkCost(t, w[1..]));
    }
  }

  /** At the optimum, a hop along a way that is not shortest does not point nearer. */
  lemma WorseFirstWay(t: Topology, s: Net, w: seq<int>, n: int, x: int)
    requires ValidTopology(t) && FirstWay(t, w, n, x) && !IsWayDistance(t, n, x, WalkCost(t, w))
    requires Inv(t, s) && RowsOptimal(t, s)
    requires n in t.nodes && Lists(t, n, x) && x in s.nodes[n].next && s.nodes[n].next[x] == w[1]
    ensures !HopsNearer(t, s)
  {
    var m := WayStep(t, w, n, x);
    assert IsWayDistance(t, n, x, s.nodes[n].own[x]) && IsWayDistance(t, m, x, s.nodes[m].own[x]);
    assert Way(t, w[1..], m, x);
    assert s.nodes[m].own[x] == WalkCost(t, w[1..]);
    assert s.nodes[n].own[x] < WalkCost(t, w);
    assert n != x;
    assert !HopNearer(t, s, n, x);
  }

  lemma BadFirstWay(t: Topology, w: seq<int>, n: int, x: int)
    requires ValidTopology(t) && FirstWay(t, w, n, x) && !IsWayDistance(t, n, x, WalkCost(t, w))
    ensures !AlwaysNearer(t)
  {
    var acts, s := ReachFirstWay(t, w, n, x);
    var acts' := CanConverge(APPEND_ONLY, t, acts);
    HopForever(t, acts, acts', n, x);
    WorseFirstWay(t, Exec(APPEND_ONLY, t, acts'), w, n, x);
    assert !NearerAfter(t, acts');
  }

  /** Append-only next hops point nearer after every run exactly when every first way is shortest. */
  lemma AlwaysNearerIff(t: Topology)
    requires ValidTopology(t)
    ensures AlwaysNearer(t) <==> FirstWaysShortest(t)
  {
    if FirstWaysShortest(t) {
      forall acts | Legal(APPEND_ONLY, t, acts)
        ensures NearerAfter(t, acts)
      {
        RunFinal(t, acts);
      }
    } else {
      var n, x, w :| FirstWay(t, w, n, x) && !IsWayDistance(t, n, x, WalkCost(t, w));
      BadFirstWay(t, w, n, x);
    }
  }
}
