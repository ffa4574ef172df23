# The three protocols of lab 4, modelled and proved in Dafny

The repository's fourth lab stacks three protocols on an overlay of nodes:

- **Distance-vector routing (MNP).** Every node keeps a distance-vector table, a neighbour cost
  table and a chained hash table of next hops, broadcasts its own row, relaxes what its neighbours
  broadcast, and forwards data packets by next hop.
- **Go-Back-N transport (MRT).** A client with a linked send buffer and a window of ten, a server
  with a byte buffer and one expected sequence number, cumulative acknowledgements, a handshake
  and a close.
- **Delimiter framing.** `!&` payload `!#`, read one byte at a time by a four-state automaton with a
  loss test in it.

Each is modelled twice. The imperative code becomes classes over linked lists and arrays, and
methods with loops (`RoutingTable`, `DvTable`, `NbrCostTable`, `NetworkNode`, `ClientTcb`,
`ServerTcb`, `FrameReader`), each method proved equal to a function on an abstract value. The
protocols are state machines over those same functions, and the main theorems are about every run
of those machines. `dafny verify dfyconfig.toml` checks the project.

## How the parts fit

| layer | values and laws | state machine and theorems | code in its own form |
|---|---|---|---|
| routing | `Topology`, `DistanceVector` | `RoutingProtocol`, `Quiescence`, `Convergence`, `RoundsExist`, `Forwarding`, `NodeLists`, `FirstHop`, `AppendOnly`, `ShippedRouting`, `LabTopology` | `RoutingTable`, `DvTable`, `NbrCostTable`, `NetworkNode` |
| transport | `Segments`, `SendBuffer`, `ReceiveBuffer`, `Endpoints` | `GoBackN`, `Recovery`, `Connection`, `Settling`, `Handshake`, `Draining`, `Sending`, `CloseDown`, `Completion`, `Strangers` | `ClientTcb`, `ServerTcb` |
| framing | `Wire` | `Framing`, `Resync`, `SegmentsOnWire` | `FrameReader` |

In `RoutingProtocol` a vector once sent may reach any neighbour of its sender at any later time, any
number of times, or never. In `GoBackN` the same holds for segments and acknowledgements.
`Connection` adds the handshake, the close and two first-in first-out channels that may drop
anything at any point, and proves that every state it reaches is explained by a reachable state of
`GoBackN`. `Handshake`, `Draining` and `Completion` prove that from every state a connection can be in,
connecting, delivering everything queued and closing remain possible, or exactly when they do;
`Strangers` lets third parties send anything to either end. `Framing` and `Wire` prove that a framed byte stream is such a channel for everything that
does not contain `!#`, and `SegmentsOnWire` says when the segments of a connection do not; `Resync` says what any reader
makes of any other bytes, and exactly when the next frame survives them.

Two things about the routing code vary in the model, so that what is shipped and what is documented
can be told apart: the text of the tables (`Build`) and the list of nodes that a node keeps costs for
(the field `listsAll` of the topology). The routing theorems hold for either list unless they say
otherwise; a *way* is a walk along nodes that all keep costs for its end, and if all nodes are listed
every walk is one.

## Where the code and its documentation part

Where the code falls short of what its own comments promise, the project keeps the code, shows an
input and proves exactly when the promise holds; the last three points, where the code is undefined C,
are modelled as what was meant.

- **A node never reads its own row.** `dvtable_getcost` stops before the last row
  (`lab4/network/dvtable.c:144`), which is the node's own; the copy in
  `lab4/network/table_tester.c:614` goes one further. The type `Build` chooses between the texts:
  `SHIPPED`, `DOCUMENTED`, and `APPEND_ONLY`, which puts only this lookup right. Shipped nodes never
  learn anything (`NeverLearns`); the costs they hold are shortest paths exactly when no two-link
  detour beats a direct link (`ShippedOptimalIff`), and a packet can arrive exactly when its ends are
  neighbours (`ShippedArrivesIff`). The repository's own topology file is an instance where both
  fail (`ShippedLab`).
- **A node lists only its neighbours and itself** (`lab4/topology/topology.c:218-235`), where
  `lab4/network/dvtable.h:28` says all nodes of the network. With both tables put right, some run then
  makes all nodes hold shortest paths exactly when all nodes within reach of each other are neighbours
  (`OptimalReachableIff`); the next hop to an unlisted destination is whoever offered it last, however
  dear (`LastOfferWins`); and a packet can arrive exactly along nodes that all list its destination
  (`ArrivesIff`). The repository's topology is again an instance (`NearbyLab`).
- **A second next hop has no effect.** `set_insert` always appends and `set_find` takes the first
  match (`lab4/network/routing_table.c:213-232`, `302-308`); the header promises to overwrite
  (`lab4/network/routing_table.h:74-79`). `ShippedCallWorksIff` says exactly when a shipped call
  works. With only the own-row lookup put right, costs still converge and packets still arrive
  (`AppendOnlyArrives`); their next hops always point nearer exactly when every first way a node can
  hear of is a shortest one (`AlwaysNearerIff`), which `AppendOnlyLab` shows to fail on the
  repository's topology.
- **The last piece of a message is not queued** (`lab4/client/mrt_client.c:358-377`): what is queued
  is the message exactly when its length is a multiple of 1464 (`QueuedIsTruncated`,
  `MessagesQueuedIff`); one byte is a counterexample (`OneByteNotQueued`).
- **A FINACK is tested with the port in place of the node** (`lab4/client/mrt_client.c:640`): a
  disconnect can succeed exactly when the server's port number equals its node ID (`CanCloseIff`), and
  then from any moment of the wait exactly while the server has not closed or its answer is still under
  way (`CanCompleteIff`).
- **A listening server takes whatever reaches it for its client** (`lab4/server/mrt_server.c:411-427`),
  of any kind and from anywhere. The connection stays reliable unless a stranger gets there first
  (`StrangersReliable`), and then the server never has its own client on record (`RecordedIffSpared`).
- **Segments can abort the process that reads them.** Nothing escapes `!#` inside a payload. The
  readers that check the length abort exactly on the segments with `!#` in a header number or in the
  data (`AbortsIff`); a full segment of data that begins with `!#` is one that the send call queues
  (`DataCanAbort`), and after 47412 full segments the sequence number itself contains it
  (`SequenceCanAbort`). The lab 2 reader, which copies without looking at the length, hands over a
  payload unchanged exactly when no `!#` starts before its last two bytes (`CopyFramingIff`), and
  the bytes it leaves behind swallow the next frame unless they are quiet (`FrameAfterCut`).
- **An acknowledgement is trusted.** One beyond the segments in flight would take the counter below
  zero and leave the unsent pointer on a freed segment; the block stays in order exactly when there is
  none (`RecvAck`, `HandleSegment`), and no connection ever sees one (`ConnectionAckSafe`).
- **The receive buffer is allocated too small** (`lab4/server/mrt_server.c:116` allocates the size of
  an `int`). The model's buffer has `RECEIVE_BUF_SIZE` bytes; `GuardFitsIff` gives the capacities
  that are safe.
- **The shift at `lab4/server/mrt_server.c:264`** is a `memcpy` between overlapping ranges. It is
  modelled as the forward byte copy that was meant.
- **The loops over the node list run to the number of all nodes**
  (`lab4/network/dvtable.c:203`, `lab4/network/network.c:400-420`), past the end of the array that
  holds only neighbours and the node itself. What they read there is undefined; the model's lists end
  where they were filled.

## Model

| member | source | states |
|---|---|---|
| RoutingProtocol.ReachableInv | lab4/network/network.c:277-309 | in every reachable state every finite cost, in a row or in flight, is the exact cost of a real way; rows cover exactly the listed nodes at 0..999, the cost to oneself is 0, and no vector in flight promises less than its sender's row holds now |
| RoutingProtocol.ReachableHopsNearer | lab4/network/network.c:277-309 | loop freedom of the documented tables in every reachable state: a finite cost to another node has a next hop that is a neighbour and keeps costs for it, and link plus the neighbour's own cost is at most that cost |
| RoutingProtocol.CostsNeverRise | lab4/network/network.c:292-307 | from any point of any run to any later one, no own-row cost rises |
| RoutingProtocol.NeverBelowDistance | lab4/network/network.c:292-307 | no reachable cost is below the capped shortest-path distance |
| Quiescence.QuietRunIffOptimal | lab4/network/network.c:292-307 | after any run, no pending or fresh vector would change any cost if and only if every cost kept is the length of a shortest way; if all nodes are listed, none would change anything if and only if every node holds all shortest-path distances |
| Quiescence.ListingAll | lab4/network/dvtable.h:28 | if all nodes are listed, optimal rows are exactly shortest-path distances, and exactly what leaves nothing to change |
| RoutingProtocol.StepKeepsInv | lab4/network/network.c:277-309 | every broadcast and every delivery keeps soundness, lets costs only fall, and keeps hops pointing nearer when next hops are overwritten |
| RoutingProtocol.HearEntry | lab4/network/network.c:292-307 | hearing a vector, in flight or fresh, leaves an entry backed by a way, never raises it, and lowers it only to a cost the sender's present row can still honour |
| RoutingProtocol.InitInv | lab4/network/dvtable.c:53-86 | the tables a network starts from are sound and loop free |
| Convergence.HeardBound | lab4/network/network.c:288-307 | if a neighbour's broadcast reaches a node in a stretch of the run, the node's cost at its end is at most the link plus the neighbour's cost at its start, whatever else was delivered in between |
| Convergence.AfterRounds | lab4/network/network.c:277-309 | after k rounds every own cost is at most the cost of every way of at most k+1 links |
| Convergence.Converges | lab4/network/network.c:277-309 | after number-of-nodes minus 2 rounds, and ever after, every own cost is exactly the capped length of a shortest way and no vector would change one; if all nodes are listed these are the shortest-path distances and the network is quiet |
| RoundsExist.MoreRounds | lab4/network/network.c:384-469 | any run can be continued by any number of complete rounds |
| RoundsExist.CanConverge | lab4/network/network.c:277-309 | from every reachable network some continuation ends converged: rows optimal and quiet, and shortest paths everywhere if all nodes are listed |
| Topology.ShortWalkSuffices | lab4/topology/topology.c:338-372 | with positive link costs no walk is cheaper than some walk along the same nodes of at most as many nodes as there are |
| Topology.DistanceUnique | lab4/topology/topology.c:338-372 | the capped shortest-path distance the theorems speak of is a single number |
| Topology.NodeList | lab4/topology/topology.c:180-257 | the node list holds exactly the nodes that are listed: all, or neighbours and the node itself, each once |
| Topology.AllWalksAreWays | lab4/network/dvtable.h:28 | if all nodes are listed, shortest ways are shortest walks |
| DistanceVector.RelaxAllIsMinimum | lab4/network/network.c:288-307 | after an update an own cost is the least of the old cost and all costs offered plus the link, and is one of them |
| DistanceVector.RelaxAllHop | lab4/network/network.c:301-307 | the next hop changes only when the cost falls, and then to the sender if it is new or hops are overwritten |
| DistanceVector.RelaxAllUnchanged | lab4/network/network.c:301 | an update that offers nothing cheaper leaves the node as it was |
| Forwarding.PacketArrives | lab4/network/network.c:317-349 | with documented tables, however route updates interleave, what a packet has paid plus the cost its present node quotes never exceeds its sender's cost at the start, it can always hop on until it is at its destination, and is there before its hops reach that cost |
| Forwarding.MoveStaysOnCourse | lab4/network/network.c:333-349 | every hop and every route update keeps what was spent plus the present node's cost within the starting budget |
| Forwarding.HopsArrive | lab4/network/network.c:333-349 | a packet at a node with a finite cost gets to its destination by hops alone |
| NodeLists.OptimalReachableIff | lab4/topology/topology.c:218-235 | some run makes all nodes hold shortest-path distances if and only if all nodes are listed or any two nodes within reach of each other are neighbours |
| NodeLists.LastOfferWins | lab4/network/network.c:288-307 | after any run, the next hop to an unlisted destination is the sender of the last vector that offered it below infinity, whatever it cost |
| NodeLists.AlwaysHopsReach | lab4/network/network.c:301-307 | in every reachable state a next hop exists only to destinations that a walk within reach leads to along nodes that list them |
| NodeLists.ArrivesIff | lab4/network/network.c:317-349 | with documented tables some course of events takes a packet from n to x, from any reachable moment on, if and only if a walk below 999 leads there along nodes that, but for n, all list x |
| ShippedRouting.NeverLearns | lab4/network/dvtable.c:135-160 | if lookups skip the own row, no run ever changes any node and every vector says infinite |
| ShippedRouting.ShippedOptimalIff | lab4/network/dvtable.c:144-159 | after any run, with either node list, the costs held by shipped nodes are shortest-path distances if and only if no two-link detour beats the direct cost |
| ShippedRouting.ShippedKeepsDirect | lab4/network/dvtable.c:144-159 | wherever a detour is cheaper, the shipped node keeps its starting entry for good and is not optimal |
| ShippedRouting.ShippedArrivesIff | lab4/network/network.c:333-349 | with shipped tables some course of events takes a packet from n to x if and only if they are the same node or neighbours |
| ShippedRouting.ShippedHopsNearer | lab4/network/network.c:277-309 | the shipped tables are loop free in every reachable state |
| FirstHop.ReachableRanked | lab4/network/routing_table.c:213-232 | with append-only next hops every node with a finite cost is a definite number of next hops away from the destination, in every reachable state |
| FirstHop.AppendOnlyArrives | lab4/network/routing_table.c:302-308 | with append-only next hops a packet still always moves on and arrives within number-of-nodes minus 1 hops |
| FirstHop.AppendOnlyKeepsWorseHop | lab4/network/routing_table.c:213-232 | wherever two links beat one, hearing the node in between leaves a next hop that is not nearer |
| AppendOnly.AlwaysNearerIff | lab4/network/routing_table.c:213-232 | append-only next hops point nearer after every run if and only if, in the topology, every way by which a node can come to its first cost is a shortest one |
| AppendOnly.RunFinal | lab4/network/routing_table.c:302-308 | on such topologies every finite cost is final: it is the shortest length from the moment it is set, in rows and in flight |
| AppendOnly.BadFirstWay | lab4/network/routing_table.c:213-232 | for any other topology there is a run after which a next hop does not point nearer |
| AppendOnly.HopForever | lab4/network/routing_table.c:302-308 | a next hop to a listed destination, once recorded, stays in every continuation |
| LabTopology.LabValid | lab4/topology/topology.dat:1-5 | the shipped topology meets the conditions of the theorems, with either node list |
| LabTopology.ShippedLab | lab4/topology/topology.dat:1-5 | on it shipped nodes are never optimal: flume keeps whaleback at 7 and no packet ever gets from moose to wildcat |
| LabTopology.AppendOnlyLab | lab4/topology/topology.dat:1-5 | on it append-only next hops break loop freedom's cost bound after one update |
| LabTopology.NearbyLab | lab4/topology/topology.dat:1-5 | on it, with tables as documented and the shipped node list, no run is ever optimal, though packets can get from moose to wildcat by whoever offered it last |
| RoutingTable.MakeHash | lab4/network/routing_table.c:65-68 | every positive node ID falls in one of the ten slots, the one it differs from by a multiple of ten |
| RoutingTable.SameSlotIff | lab4/network/routing_table.c:65-68 | two node IDs share a list if and only if they differ by a multiple of ten |
| RoutingTable.InsertFind | lab4/network/routing_table.c:213-232 | what an insertion does to every lookup in its slot, appending or overwriting, and which destinations are then present |
| RoutingTable.InsertNoRepeats | lab4/network/routing_table.h:74-79 | overwriting insertion keeps each destination at most once in its list |
| RoutingTable.InsertIsMapUpdate | lab4/network/routing_table.c:317-326 | setting a next hop in the ten lists is setting it in a plain map, overwriting or first-come by build; non-positive IDs change nothing |
| RoutingTable.HopMapKey | lab4/network/routing_table.c:293-342 | the map and the lookup agree: a destination is in the map exactly when its slot has it, a lookup gives the map's value or -1 |
| RoutingTable.DocumentedReturnsLatest | lab4/network/routing_table.h:74-79 | documented: after any calls each destination is there at most once and a lookup returns the latest valid next hop, or -1 |
| RoutingTable.ShippedReturnsFirst | lab4/network/routing_table.c:213-232 | shipped: after any calls a lookup returns the first valid next hop, or -1 |
| RoutingTable.ShippedCallWorksIff | lab4/network/routing_table.c:142-149 | a shipped call takes effect if and only if the destination had no entry or this very next hop |
| RoutingTable.Table.FindEntry | lab4/network/routing_table.c:302-308 | the walk of one list finds the first entry for the destination, or null if there is none |
| RoutingTable.Table.GetNextNode | lab4/network/routing_table.c:160-169 | returns the next hop the abstract table records, or -1 |
| RoutingTable.Table.Append | lab4/network/routing_table.c:221-231 | takes one entry into the table at the end of one slot's list and changes no other slot; lists stay acyclic and in their slots |
| RoutingTable.Table.Hang | lab4/network/routing_table.c:221-231 | the walk to the last entry of one list and the pointer set there, with every other head untouched |
| RoutingTable.Table.Overwrite | lab4/network/routing_table.h:74-77 | replaces the next hop of one entry and nothing else |
| RoutingTable.Table.SetNextNode | lab4/network/routing_table.c:142-149 | succeeds exactly for positive IDs and makes the map update of its build |
| RoutingTable.Table.constructor | lab4/network/routing_table.c:91-100 | ten empty lists |
| DvTable.OwnLookup | lab4/network/dvtable.c:135-160 | a lookup of an own cost finds the entry of the own row when the last row is searched, and infinity, whatever the row holds, when it is not |
| DvTable.SetInRow | lab4/network/dvtable.c:108-127 | setting a cost changes the row of the named node at the named destination, and no other row |
| DvTable.SetOwn | lab4/network/dvtable.c:108-127 | setting a cost updates the own row's map exactly when the own node is named |
| DvTable.RowMapUpdate | lab4/network/dvtable.c:108-127 | overwriting one entry of a row is updating one key of its map |
| DvTable.InitialOwnRow | lab4/network/dvtable.c:186-213 | a fresh table's own row maps every listed node to its direct cost |
| DvTable.InitialRowsHoldLinkCosts | lab4/network/dvtable.c:186-213 | in a fresh table every row holds the link costs of its own owner, not those of the node that keeps the table, for exactly the listed nodes |
| DvTable.FreshLookup | lab4/network/dvtable.c:135-160 | a lookup in a fresh table with a neighbour as source finds that neighbour's link cost, 0 or 999, whether or not the last row is searched |
| DvTable.IndexOf | lab4/network/dvtable.c:135-160 | the index of the first entry for a destination, or -1 exactly when there is none |
| DvTable.RowOf | lab4/network/dvtable.c:135-160 | the first row of the source that has the destination, or -1 exactly when there is none |
| DvTable.Table.constructor | lab4/network/dvtable.c:53-86 | one row per neighbour and the own row last, no two sharing storage; the row of a node holds, for every node listed, 0 for that node, the cost of its link if it has one, and otherwise 999 |
| DvTable.Table.FindCell | lab4/network/dvtable.c:135-160 | the nested search over the rows it is given finds the first cell for source and destination, or none |
| DvTable.Table.SetTableCost | lab4/network/dvtable.c:108-127 | writes the one cell found, reports whether there was one, and leaves every other cell alone |
| DvTable.Table.GetTableCost | lab4/network/dvtable.c:135-160 | the cost found in all rows, or as shipped in all but the own one, and otherwise infinity |
| DvTable.FindEntry | lab4/network/dvtable.c:135-160 | the inner loop finds the first entry for the destination, or none |
| DvTable.NewEntries | lab4/network/dvtable.c:186-213 | a row of its owner's direct costs in the order of the node list |
| DvTable.NewRows | lab4/network/dvtable.c:66-84 | one row per owner, filled with that owner's direct costs, no two sharing storage |
| NbrCostTable.NbrCostIsLinkCost | lab4/network/nbrcosttable.c:78-87 | the table answers with the link cost for every neighbour and infinity for every other node |
| NbrCostTable.CreateNbrTable | lab4/network/nbrcosttable.c:31-60 | the array of neighbours with their direct costs |
| NbrCostTable.GetNbrCost | lab4/network/nbrcosttable.c:78-87 | the linear search returns the first entry's cost, or infinity |
| NetworkNode.Process.HandleRouteUpdate | lab4/network/network.c:277-309 | the loop over an update from any sender, on the real tables, leaves all rows and next hops as the value-level update does |
| NetworkNode.Process.RelaxOne | lab4/network/network.c:288-307 | one entry: the sender's row takes over the advertised cost, and the own row and next hop change only if the way through the sender is cheaper than what the lookup finds |
| NetworkNode.Process.TakeWay | lab4/network/network.c:301-307 | the cheaper cost goes into the own row at that destination and the sender becomes the next hop to it, subject to the build; nothing else changes |
| NetworkNode.HandleAllIsRelaxAll | lab4/network/network.c:277-309 | an update from another node relaxes the own row and the next hops as the protocol says |
| NetworkNode.HandleAllRows | lab4/network/network.c:288 | after an update the sender's row holds the advertised costs of the destinations it lists, and no other neighbour's row has changed |
| NetworkNode.OwnUpdateOverwrites | lab4/network/network.c:288-307 | an update that names the node itself as sender would overwrite its own row and leave the next hops alone |
| NetworkNode.Process.FillRouteUpdate | lab4/network/network.c:418-453 | the broadcast vector is the own row as lookups see it, in node-list order |
| NetworkNode.Process.HandleDataPacket | lab4/network/network.c:317-349 | a packet is handed up if and only if it is at its destination; anywhere else it goes to the next hop on record for its destination, or to -1 if there is none |
| NetworkNode.CreateRoutes | lab4/network/routing_table.c:79-113 | at the start each neighbour is its own next hop and there are no others |
| NetworkNode.CreateProcess | lab4/network/network.c:65-90 | the tables a process creates are the protocol's initial node, and the rows of its neighbours hold their link costs |
| NetworkNode.HandlingIsHearing | lab4/network/network.c:277-309 | handling a neighbour's vector with the process's own tables is the protocol's delivery step |
| Segments.QueuedIsTruncated | lab4/client/mrt_client.c:331-377 | what a send call queues is the data cut off at the last full segment; it is the data, and the intended pieces, if and only if the length is a multiple of 1464 |
| Segments.AllPiecesConcat | lab4/client/mrt_client.c:331-377 | the intended pieces, ceil(length / 1464) of them, are 1 to 1464 bytes each and concatenate to the data |
| Segments.OneByteNotQueued | lab4/client/mrt_client.c:358-377 | a one-byte message is never queued |
| SendBuffer.HoldsContiguous | lab4/client/mrt_client.c:725-751 | neighbouring segments are contiguous and the last ends at the next sequence number |
| SendBuffer.AppendAllHolds | lab4/client/mrt_client.c:718-757 | appending pieces extends the stream by them, and the next sequence number by their total length |
| SendBuffer.SendHolds | lab4/client/mrt_client.c:763-798 | after sending, min(10, buffered) segments are in flight and the buffer holds the same stretch of the stream |
| SendBuffer.AckHolds | lab4/client/mrt_client.c:863-894 | a boundary acknowledgement of sent data removes exactly the segments before it, lowers the counter by as many, and leaves the head at it, or an empty buffer whose next number is it |
| SendBuffer.BelowBounds | lab4/client/mrt_client.c:878-890 | the segments an acknowledgement removes start below it, and the first one left does not |
| ReceiveBuffer.BufferIsFifo | lab4/server/mrt_server.c:222-276 | any interleaving of saves and reads conserves bytes: what was there and what was stored is what was read followed by what is still there, always below 1000000 bytes |
| ReceiveBuffer.GuardFitsIff | lab4/server/mrt_server.c:661 | a buffer has room for everything the guard lets through if and only if it has at least RECEIVE_BUF_SIZE - 1 bytes |
| GoBackN.ReachableInv | lab4/client/mrt_client.c:598-622 | every reachable state of the data phase keeps the protocol invariant under arbitrary loss, duplication and reordering |
| GoBackN.Reliable | lab4/server/mrt_server.c:624-683 | bytes read followed by bytes buffered are exactly the first `expected` bytes ever queued |
| GoBackN.Sandwich | lab4/client/mrt_client.c:604-613 | in every reachable state the head does not exceed the server's expected number, that not the first unsent byte, that not the next number; every ack in flight is at most the expected number and a segment boundary |
| GoBackN.AckSafe | lab4/client/mrt_client.c:863-894 | a heeded acknowledgement never frees an unsent segment, never underflows the counter, and leaves the first unsent byte where it was and the head at the acknowledged byte |
| GoBackN.WindowDiscipline | lab4/client/mrt_client.c:763-798 | never more than ten in flight, after a send as many as possible, and first transmissions are the stream's segments, each once and in order |
| Recovery.GoodRoundRecovers | lab4/client/mrt_client.c:832-894 | from any reachable state with segments in flight and room for them, one timeout resend delivered in order plus its last ack empties the old window, refills it and leaves strictly fewer bytes outstanding |
| Recovery.DeliverWindow | lab4/server/mrt_server.c:624-652 | delivering the first k window segments in order leaves at least those accepted, and acknowledged |
| Recovery.CanDrain | lab4/client/mrt_client.c:832-894 | no reachable state is stuck: some continuation delivers every queued byte, in order |
| Endpoints.FinAckClosesIff | lab4/client/mrt_client.c:640 | the server's own FINACK closes the client if and only if the server's port equals its node ID, and is otherwise ignored |
| Endpoints.ClientMovedBy | lab4/client/mrt_client.c:598-651 | the only segments that can change a client, state by state: from the recorded node and port and of the one kind it waits for, with the port in place of the node for a FINACK |
| Endpoints.ClientIgnoresStrangersIff | lab4/client/mrt_client.c:604-640 | a segment from another node or port leaves a client as it was, unless it is a FINACK that the client, waiting for one, tests by the wrong field |
| Endpoints.ServerIgnoresStrangersIff | lab4/server/mrt_server.c:409-480 | a segment from another node or port changes a server if and only if it is listening, which then takes the sender for its client; otherwise it draws an answer only if it is a FIN in the close wait |
| Endpoints.AnswersIff | lab4/server/mrt_server.c:547-597 | which segments are answered, and with what: a SYN again and again until the close, a FIN until the close wait ends, and data unless it is due and does not fit |
| Connection.StepRefines | lab4/server/mrt_server.c:381-495 | every step of either end, every delivery and every loss is explained by a step, or no step, of the data phase |
| Connection.RunRefines | lab4/client/mrt_client.c:566-665 | every state of every connection, handshake, loss and close included, is explained by a reachable state of the data phase |
| Connection.ConnectionReliable | lab4/server/mrt_server.c:547-683 | at every moment what the application has read is a prefix of the bytes queued; while the connection is open, that followed by the receive buffer is exactly the first `expected` of them |
| Connection.HandshakeAgreement | lab4/server/mrt_server.c:409-425 | a connected client's server has left LISTENING with this client on record, and a listening server has only SYNs on their way to it |
| Connection.LateSynHarmless | lab4/server/mrt_server.c:555-561 | a SYN that reaches a connected server finds nothing received yet, so its reset changes nothing |
| Connection.ConnectionAckSafe | lab4/client/mrt_client.c:598-613 | in every connection sends and timeouts are always defined, at most ten segments are in flight, and acknowledgements free only those, never reaching beyond them |
| Handshake.CanConnect | lab4/client/mrt_client.c:244-262 | whatever has been lost, as long as the client is still asking some further run without any loss connects both ends |
| Draining.ConnectionCanDrain | lab4/client/mrt_client.c:763-894 | whatever has happened to a connection, while both ends are connected some continuation without any loss hands every queued byte to the server's application, in order, and empties the client's buffer |
| Draining.Advance | lab4/client/mrt_client.c:832-894 | through the two channels, one round of sending or timing out, receiving and acknowledging moves the client's head forward |
| Draining.TakeWindow | lab4/server/mrt_server.c:624-652 | a window under way is taken segment by segment as in the data phase, none is refused, and the last reply acknowledges the server's expected number |
| Settling.FinsAlwaysLate | lab4/client/mrt_client.c:422-460 | no FIN is under way before the client disconnects |
| CloseDown.NeverCloses | lab4/client/mrt_client.c:422-487 | if the server's port is not its node ID, no run completes a disconnect |
| CloseDown.ClosingRun | lab4/client/mrt_client.c:422-487 | if it is, the undisturbed exchange does |
| CloseDown.CanCloseIff | lab4/client/mrt_client.c:636-651 | some run completes a disconnect if and only if the server's port equals its node ID |
| Completion.CanCompleteIff | lab4/server/mrt_server.c:471-478 | from any state in which the client waits for its FINACK, the close can still complete if and only if the server's port is its node ID and the server has not closed or a FINACK is under way |
| Completion.CompletesLosslessly | lab4/client/mrt_client.c:422-487 | and if it can, it can without any further loss |
| Strangers.StrangersReliable | lab4/server/mrt_server.c:431-469 | with third parties sending anything to either end at any time, what the application has read is a prefix of the bytes queued, unless one of them reached the server while it was listening |
| Strangers.RecordedIffSpared | lab4/server/mrt_server.c:411-427 | a server that has heard anyone has its own client on record if and only if no stranger reached it while it was listening, and only then is the client ever connected |
| Strangers.SparedRefines | lab4/client/mrt_client.c:598-651 | every state of a spared connection is explained by a reachable state of the data phase |
| Sending.SendCall | lab4/client/mrt_client.c:307-384 | in any connection a send call extends the stream by exactly the truncated message, advances the next number by its length and fills the window |
| Sending.MessagesQueuedIff | lab4/client/mrt_client.c:331-382 | what is queued for a list of messages is those messages if and only if every length is a multiple of 1464 |
| Sending.MessagesArrive | lab4/client/mrt_client.c:307-384 | for such messages, what the server's application has read is at all times a prefix of them |
| ClientTcb.Tcb.constructor | lab4/client/mrt_client.c:124-160 | a closed socket with an empty buffer |
| ClientTcb.Tcb.StartConnect | lab4/client/mrt_client.c:184-240 | records the server and returns a SYN numbered 0, only from CLOSED; segments left in the buffer keep the port they were addressed to |
| ClientTcb.Tcb.Link | lab4/client/mrt_client.c:725-753 | the list with one more segment at its tail, addressed to the present server, unsent pointer included |
| ClientTcb.Tcb.AppendSegment | lab4/client/mrt_client.c:718-757 | the abstract buffer grows by one chunk at the next number; the heap invariant is kept |
| ClientTcb.Tcb.SendOne | lab4/client/mrt_client.c:770-794 | transmits the first unsent segment and moves the unsent pointer on, or to null at the tail |
| ClientTcb.Tcb.Sending | lab4/client/mrt_client.c:763-798 | transmits exactly the unsent segments the window allows, in order, each to its own port; with an underflowed counter it does nothing |
| ClientTcb.Tcb.Timeout | lab4/client/mrt_client.c:832-857 | transmits exactly the segments in flight, in order, each to its own port, and changes nothing |
| ClientTcb.Tcb.DropBelow | lab4/client/mrt_client.c:869-890 | moves head and tail past the segments below the acknowledgement and counts each one |
| ClientTcb.Tcb.DropHeads | lab4/client/mrt_client.c:875-890 | the loop that moves the head past the segments below the acknowledgement |
| ClientTcb.Tcb.RecvAck | lab4/client/mrt_client.c:863-894 | removes exactly the prefix below the acknowledgement; the heap invariant is kept if and only if all of it was in flight |
| ClientTcb.Tcb.Destroy | lab4/client/mrt_client.c:901-934 | leaves an empty buffer with head, tail and unsent pointer null, having freed every segment once |
| ClientTcb.Tcb.FreeAll | lab4/client/mrt_client.c:908-921 | the walk from head to tail meets every segment once, in order |
| ClientTcb.Tcb.SendData | lab4/client/mrt_client.c:307-384 | refused unless connected; otherwise queues the full pieces in order and transmits what the window allows |
| ClientTcb.Tcb.QueuePieces | lab4/client/mrt_client.c:331-378 | the loop over the pieces appends the full ones in order and never the last |
| ClientTcb.SegmentsToServer | lab4/client/mrt_client.c:763-798 | buffered segments all addressed to the present server are the protocol's data segments |
| ClientTcb.Tcb.HandleSegment | lab4/client/mrt_client.c:598-662 | reacts to a segment as the protocol's client does, ignores one from any node or port but the recorded ones while connecting or connected, and sends on after an acknowledgement; the block stays in order if and only if no heeded acknowledgement reaches beyond the segments in flight |
| ClientTcb.HoldsIsContiguous | lab4/client/mrt_client.c:718-757 | the buffers the protocol reaches meet the list's contiguity invariant |
| ClientTcb.ContiguousIncreasing | lab4/client/mrt_client.c:718-757 | sequence numbers strictly increase along the list |
| ServerTcb.Tcb.constructor | lab4/server/mrt_server.c:100-138 | a closed socket with an empty receive buffer |
| ServerTcb.Tcb.SaveToBuffer | lab4/server/mrt_server.c:656-683 | copies the payload behind what is there exactly when the guard allows it; a refused one changes nothing |
| ServerTcb.Tcb.DataReceived | lab4/server/mrt_server.c:624-652 | accepts only the expected number, and answers with the expected number unless the segment was refused for want of room |
| ServerTcb.Tcb.SegmentRecv | lab4/server/mrt_server.c:547-597 | a SYN sets the expected number and is answered with SYNACK, a FIN with FINACK, anything else does nothing |
| ServerTcb.Tcb.HandleSegment | lab4/server/mrt_server.c:381-495 | reacts to a segment as the protocol's server does: the first heard becomes the client, a stranger changes nothing, a SYN or FIN that comes again is answered again |
| ServerTcb.Tcb.Recv | lab4/server/mrt_server.c:222-276 | hands out the oldest bytes and shifts the rest down; waits if there are too few; refused unless connected |
| ServerTcb.Tcb.CloseWaitEnds | lab4/server/mrt_server.c:601-620 | empties the buffer and closes |
| Framing.RunCollects | lab4/common/seg.c:86-123 | inside a frame a stretch without `!#` is collected whole, runs of `!` included |
| Framing.ReceiveFrame | lab4/common/seg.c:67-129 | a frame whose payload has no `!#` is read to its end, with the payload and the end mark in the buffer and the bytes after it left |
| Framing.ReceiveCut | lab4/common/pkt.c:62-113 | a payload with `!#` inside is cut off at its first one |
| Framing.FramingIff | lab4/common/pkt.c:62-113 | where the length is checked, a payload of the expected size is handed over with the stream left right behind it if it has no `!#`, and aborts the reader otherwise |
| Framing.CopyFramingIff | lab2/common/seg.c:84-94 | where it is not, a payload of the expected size comes out unchanged if and only if no `!#` starts before its last two bytes, and the stream is left right behind it if and only if it has none |
| Framing.StopAtEnd | lab2/common/seg.c:84-94 | a payload ending in `!#` comes out unchanged and leaves two stray bytes |
| Framing.PacketFramingIff | lab4/common/pkt.c:239-289 | the reader without a length check hands over a packet of any allowed length intact if and only if it has no `!#`, and otherwise a prefix |
| Framing.LoneAmpersand | lab4/common/seg.c:76-88 | a lone `&` in front of a payload opens a frame if and only if the reader's first state falls through; any other reader goes on as if it had not been there |
| Framing.TakesWholeFrame | lab4/common/seg.c:148-186 | a length-checking reader that does not fall through takes at least four bytes more than the payload it hands over |
| Framing.SkipsNoise | lab2/common/seg.c:66-74 | outside a frame, bytes other than `!` are skipped |
| Framing.ChannelIsLossyFifo | lab4/common/seg.c:67-129 | reading the stream of frames without `!#` in their payloads to its end returns exactly the ones the loss test keeps, in order and unaltered |
| Resync.FrameAfterNoise | lab4/common/pkt.c:70-80 | after any quiet bytes, which open no frame, a frame is read as if they had not been there |
| Resync.SkipsPair | lab4/common/pkt.c:75-80 | a `!` and a byte other than `&` are skipped by every reader |
| Resync.HandedOverWasFramed | lab4/common/pkt.c:239-289 | whatever any reader hands over stood in the stream between an opening and the first `!#` after it, with only quiet bytes in front |
| Resync.FrameSurvivesIff | lab4/common/seg.c:75-114 | a frame is received, and the stream left right behind it, if and only if the bytes in front of it are quiet for that reader |
| Resync.FrameAfterCut | lab2/common/seg.c:83-94 | after a payload cut at its first `!#`, the next frame is received if and only if what was left behind is quiet |
| Resync.FrameAfterStopAtEnd | lab2/common/seg.c:83-94 | in particular the frame behind a payload that ends in `!#` is received |
| Resync.FrameCharacters | lab4/common/seg.c:40-53 | a frame is `!&`, the payload and `!#`, in these characters |
| Resync.LoneAmpersandReaders | lab4/common/seg.c:77-88 | of the readers that check the length, exactly the receive function of the transport process takes a lone `&` for an opening |
| Resync.ShortFrames | lab4/common/pkt.c:91-97 | a short frame aborts the readers that check the length, is handed over by the one between overlay nodes, and leaves the lab 2 reader with bytes never received |
| Wire.Encode | lab4/common/seg.h:29-54 | a segment with its address always fills the exchanged structure exactly |
| Wire.EncodeRoundTrip | lab4/common/seg.h:29-54 | decoding the bytes of a segment and its address gives both back, every field included |
| Wire.Layout | lab4/common/seg.h:17-23 | the type is the code 0 to 5 of the header file in bytes 22 and 23, the length is in bytes 20 and 21, the data begin at byte 28 and zeros follow |
| Wire.NumberLayout | lab4/common/seg.h:29-54 | node ID, ports, sequence and acknowledgement number are the first five words, in this order, least byte first |
| Wire.SegmentChannelIsLossyFifo | lab4/common/seg.c:35-129 | segments without `!#` in their bytes, sent by one process, are received by the other as exactly the kept subsequence |
| Wire.DataCanAbort | lab4/common/seg.c:102 | a message that the send call queues whole aborts whichever process reads its segment |
| Wire.StopIff | lab4/common/seg.h:29-54 | the bytes of a segment contain `!#` if and only if two neighbouring bytes of its header numbers or of its data are it |
| Wire.AbortsIff | lab4/common/seg.c:86-123 | every segment is read back unaltered, or aborts its reader, the latter if and only if `!#` is in its header numbers or its data |
| Wire.SequenceCanAbort | lab4/common/seg.c:171 | after 47412 full segments of any data the next one aborts its reader |
| SegmentsOnWire.ConnectionClean | lab4/client/mrt_client.c:763-798 | if node IDs, ports, payloads and payload boundaries are clear of `!#`, so is every segment under way in either direction of any connection |
| SegmentsOnWire.ChannelCarried | lab4/common/seg.c:67-129 | then framing carries both channels of the connection as the lossy channels it is proved over |
| FrameReader.ReceiveFrame | lab4/common/seg.c:67-129 | the byte-by-byte loop over a buffer, with its length check and its loss test, is the automaton on the whole input |

## Left out

- lab1, lab2's client and server, lab3, all `main` functions, applications and Makefiles: plumbing, or earlier versions of what is modelled.
- Sockets, threads, `select`, `sleep`, signals and `printf`, including the one at `lab4/client/mrt_client.c:617` that reads the head of the buffer without a test: each mutex region is one atomic step, a byte stream is a sequence.
- Clock arithmetic in `sentTime` and `DATA_TIMEOUT`, and the number of timer threads: a timeout may happen at any time.
- The retry loops of connect and disconnect: a SYN may be sent any number of times while connecting and a FIN while closing; whether connect returns success is not modelled.
- A second connection on the same two sockets, a second accept, allocation of control blocks and their lookup by port: one client and one server, both fresh.
- Sequence-number wrap-around: numbers are naturals, so the theorems cover connections of fewer than 2^32 bytes.
- Topology file parsing, host names, overlay set-up and `waitTransport` (which reads one segment outside its loop, `lab4/network/network.c:618-638`): the topology is given, with costs between 0 and 999, symmetric, no node linked to itself.
- Memory: allocation failures, the read of uninitialised memory in `routing_entry_node_new`, destruction of the tables, and the `set_t` wrapper around each list, which is folded into the slot.
- The race in `mrt_server_recv` between its length test and its lock: the test and the copy are one step. A call waiting while the connection closes can still read in `Connection`.
- Connection.ConnectionReliable: supposes channels between the two ends that keep their order, because a late SYN would reset the expected number. `Framing` proves order for one framed stream; that a packet's route does not change on the way is supposed. `GoBackN.Reliable` needs no order.
- Strangers.StrangersReliable: third parties are those with another node ID or port; one that forges the peer's own is outside the model.
- Handshake.CanConnect: says that a connecting run exists; that the retries of the connect call suffice for it is not modelled.
- Framing.FramingIff: payloads longer than the expected size are not covered, because the receive buffer would overflow and the program's behaviour is undefined; the model stops there with `Overrun`.
- NetworkNode.Process: the rows of the neighbours are part of the process's value but not of the protocol's nodes, since nothing reads them back.
- AppendOnly.AlwaysNearerIff: speaks of the destinations a node lists; for the others `NodeLists.LastOfferWins` has the counterpart for overwriting tables.
- Topology.NodeList: lists neighbours in the order of the node list, not of the lines of the topology file; no theorem depends on the order.
- Sending.SendCall: the pieces are queued and sent without steps of other threads in between; other interleavings are runs of `Connection` too and fall under its theorems.
