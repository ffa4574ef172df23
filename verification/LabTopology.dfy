/** The topology file that comes with the program, with its four hosts numbered 1 to 4. */
module LabTopology {
  import opened Topology
  import opened DistanceVector
  import opened RoutingProtocol
  import opened Quiescence
  import opened Forwarding
  import opened ShippedRouting
  import opened FirstHop
  import opened NodeLists

  const FLUME := 1
  const MOOSE := 2
  const WILDCAT := 3
  const WHALEBACK := 4

  function Lab(listsAll: bool): Topology {
    Topology([FLUME, MOOSE, WILDCAT, WHALEBACK],
             map[(FLUME, MOOSE) := 5, (MOOSE, FLUME) := 5,
                 (FLUME, WILDCAT) := 4, (WILDCAT, FLUME) := 4,
                 (FLUME, WHALEBACK) := 7, (WHALEBACK, FLUME) := 7,
                 (MOOSE, WHALEBACK) := 3, (WHALEBACK, MOOSE) := 3,
                 (WILDCAT, WHALEBACK) := 2, (WHALEBACK, WILDCAT) := 2],
             listsAll)
  }

  lemma LabValid(listsAll: bool)
    ensures ValidTopology(Lab(listsAll))
  {
    var nodes := [FLUME, MOOSE, WILDCAT, WHALEBACK];
    assert nodes[0] == FLUME && nodes[1] == MOOSE && nodes[2] == WILDCAT && nodes[3] == WHALEBACK;
  }

  lemma LabFacts(t: Topology)
    requires t == Lab(t.listsAll)
    ensures FLUME in t.nodes && MOOSE in t.nodes && WILDCAT in t.nodes && WHALEBACK in t.nodes
    ensures Linked(t, FLUME, WILDCAT) && LinkCost(t, FLUME, WILDCAT) == 4
    ensures Linked(t, WILDCAT, WHALEBACK) && LinkCost(t, WILDCAT, WHALEBACK) == 2
    ensures Linked(t, FLUME, WHALEBACK) && LinkCost(t, FLUME, WHALEBACK) == 7
    ensures Linked(t, MOOSE, WHALEBACK) && LinkCost(t, MOOSE, WHALEBACK) == 3
    ensures !Linked(t, MOOSE, WILDCAT)
  {
    assert t.nodes[0] == FLUME && t.nodes[1] == MOOSE && t.nodes[2] == WILDCAT && t.nodes[3] == WHALEBACK;
  }

  /** On this file the shipped tables are never optimal: whatever happens, flume reaches whaleback
      at 7 although wildcat offers 6, and no packet from moose ever gets to wildcat. */
  lemma ShippedLab(t: Topology, acts: seq<Action>)
    requires ValidTopology(t) && t == Lab(t.listsAll) && Legal(SHIPPED, t, acts)
    ensures var s := Exec(SHIPPED, t, acts);
            && !Optimal(t, s) && FLUME in s.nodes && MOOSE in s.nodes
            && Held(s.nodes[FLUME], WHALEBACK) == 7
            && Held(s.nodes[MOOSE], WILDCAT) == INFINITE_COST
            && WILDCAT !in s.nodes[MOOSE].next
            && !CanArrive(SHIPPED, t, Journey(s, MOOSE, WILDCAT, 0, 0))
  {
    LabFacts(t);
    ShippedKeepsDirect(t, acts, FLUME, WILDCAT, WHALEBACK);
    ShippedKeepsDirect(t, acts, MOOSE, WHALEBACK, WILDCAT);
    ShippedArrivesIff(t, acts, MOOSE, WILDCAT);
  }

  /** With only the row lookup put right, flume learns the cost 6 but goes on sending to whaleback
      over the link of cost 7. */
  lemma AppendOnlyLab(t: Topology)
    requires ValidTopology(t) && t == Lab(t.listsAll)
    ensures WILDCAT in Init(t).nodes && Legal(APPEND_ONLY, t, TellOnce(APPEND_ONLY, t, WILDCAT, FLUME))
    ensures var s := Exec(APPEND_ONLY, t, TellOnce(APPEND_ONLY, t, WILDCAT, FLUME));
            Shape(t, s) && !HopsNearer(t, s)
  {
    LabFacts(t);
    AppendOnlyKeepsWorseHop(t, FLUME, WILDCAT, WHALEBACK);
  }

  /** Moose reaches wildcat through whaleback, at 5, and has no link to it. */
  lemma MooseToWildcat(t: Topology)
    requires ValidTopology(t) && t == Lab(false)
    ensures InReach(t, MOOSE, WILDCAT) && !ReachIsLink(t)
  {
    LabFacts(t);
    WalkExtend(t, WHALEBACK, [WILDCAT]);
    var tail := [WHALEBACK] + [WILDCAT];
    WalkExtend(t, MOOSE, tail);
    var w := [MOOSE] + tail;
    assert w[1..] == tail && WalkBetween(t, w, MOOSE, WILDCAT) && WalkCost(t, w) < INFINITE_COST;
    assert Passage(t, w, MOOSE, WILDCAT);
  }

  /** With both tables put right but the node list as it is collected, moose keeps no cost for wildcat,
      so no run is ever optimal; packets do get there, by whichever neighbour offered it last. */
  lemma NearbyLab(t: Topology, acts: seq<Action>)
    requires ValidTopology(t) && t == Lab(false) && Legal(DOCUMENTED, t, acts)
    ensures !CanBeOptimal(DOCUMENTED, t)
    ensures CanArrive(DOCUMENTED, t, Journey(Exec(DOCUMENTED, t, acts), MOOSE, WILDCAT, 0, 0))
    ensures var s := Exec(DOCUMENTED, t, acts);
            MOOSE in s.nodes && NextHop(s.nodes[MOOSE], WILDCAT) == LastOffer(t, acts, MOOSE, WILDCAT)
  {
    LabFacts(t);
    MooseToWildcat(t);
    OptimalReachableIff(DOCUMENTED, t);
    ArrivesIff(t, acts, MOOSE, WILDCAT);
    LastOfferWins(DOCUMENTED, t, acts, MOOSE, WILDCAT);
  }
}
