# Verified model of net-perf's routing core

net-perf keeps a WireGuard mesh of sites on good paths: it measures the paths between sites, searches the weighted
graph of sites for short ones, and installs next hops at every site. This project models its routing core, its
multi-hop latency probe and four smaller components in Dafny, and proves what they promise over all inputs and all
runs.

- **Shortest paths** (`Graphs`, `Labels`, `ContainerHeap`, `PriorityQueues`, `Finder`). `Dijkstra` runs on a priority
  queue that hands out the *largest* label first. The proof is a label-correcting one and never looks at the order: every finite label is the
  cost of a simple path, every edge still to be relaxed starts at a queued node, and each relaxation removes a path
  from a finite set. It holds for every order in which the heap may hand out entries, so also for the intended one.
- **Path enumeration** (`Enumeration`, `PathQueues`, `CycleQueues`, `Finder`). The n best simple paths and the cycles
  through a required edge are two instances of one best-first search of a tree of node sequences.
- **Graph-based forwarding** (`GraphRouting`). Every site picks its own next hop; ties may be broken differently
  everywhere.
- **Centralised routing** (`RouteTables`, `TableFilling`, `Candidates`, `FillHistory`, `RouteWire`, `Centralised`). The
  leader fills the next-hop table greedily from measured round trips, checks it for loops and distributes its rows. Map
  order, measurement results, lost measurements, sort ties and failing calls are arbitrary. Every run carries a history
  of the pairs handled, each with the table before and after, the candidates measured and those tried; the run's
  promises about its last table are statements about that history. `LoopExample` shows that filling alone is not
  enough: the last hop of a return leg is neither written nor looked at, so good round trips can close a loop that only
  `checkForLoops` keeps from being handed out. It gives three sites and measurements under which every complete table
  loops, in whatever order the pairs are handled, and a run that completes one.
- **Pathping** (`Codec`, `PathPing`, `PingNetwork`, `PingRuns`, `PingTimes`). The packet format, one server, all
  servers over every run of a network that delays, reorders and drops, which measurements can be completed, and what
  times their results are.
- **Smaller components**: the latency cache with its cleaner (`LatencyCache`), string keys (`Keys`), the bandwidth
  server's statistics (`BandwidthStats`), the analyser's matrix (`Analyser`).

`Wrappers` holds outcome types and `MapRange` the range loops over Go maps.

Numbers are unbounded integers, except that the 16-, 32- and 64-bit conversions of the source are written out where
they matter; floats are reals. The source does not complete every measurement it accepts. The receive buffer is sized from the
*default* of `pathping.max` before flags are parsed, so packets with more than 16 nodes are always rejected on arrival,
and a count above 65535 is cut to 16 bits when sending but not when waiting. `CompletableIff` is the exact condition,
proved with an explicit run in one direction and an invariant of all runs in the other: an accepted measurement can be
completed if and only if its count is at most 65535, its path has at most 16 nodes, every site on it knows the next, and
every receiving site allows its length. `CompletableIffSmall` is the same between sites that know and allow each other.
The comment on heap.Pop in `finder.go` speaks of the minimum distance; the code pops the maximum, and the model follows
the code.

## Model

| member | source | states |
|---|---|---|
| Labels.RelaxLabels | internal/route/finder/finder.go:168-183 | lowering a label keeps every finite label the cost of a simple path from the start |
| Labels.RelaxShrinks | internal/route/finder/finder.go:173-175 | each relaxation removes a simple path from the finite set of those cheaper than the label of their end, so the search terminates for every order of the queue |
| Labels.RelaxQueue | internal/route/finder/finder.go:173-182 | every edge that could still lower a label starts at a node queued with its current label |
| Labels.EmptyQueueOptimal | internal/route/finder/finder.go:157-187 | with an empty queue the labels are the least costs over all walks, and infinite exactly where there is no walk |
| Labels.PrevLinksTight | internal/route/finder/finder.go:173-175 | at the end each prev link is an edge with dist[prev]+w = dist, so labels strictly fall along the links |
| Labels.RebuiltIsShortest | internal/route/finder/finder.go:203-209 | the rebuilt path is simple, starts at the start, costs dist[end], and no walk costs less |
| PriorityQueues.PriorityQueue.Swap | internal/route/finder/priorityqueue.go:21-25 | two items change places and every item still knows its position |
| PriorityQueues.PriorityQueue.Pop | internal/route/finder/priorityqueue.go:34-42 | the last item leaves, marked as out of the heap |
| PriorityQueues.PriorityQueue.HeapPop | internal/route/finder/finder.go:159-159 | because Less is reversed, a route with the largest distance leaves; the others stay, in any order |
| ContainerHeap.Pop | internal/route/finder/topn.go:62-62 | heap.Pop takes out some element that no other precedes, and nothing else |
| Finder.Graph.Dijkstra | internal/route/finder/finder.go:137-188 | returns for every node the least cost over all walks from the start, infinite iff unreachable, whatever the pop order; terminates |
| Finder.Graph.GetShortestPath | internal/route/finder/finder.go:191-210 | fails iff no walk exists; otherwise a simple path, shortest among all walks, with its cost |
| Finder.Graph.RefreshWeights | internal/route/finder/finder.go:82-113 | the matrix holds exactly the paths loaded before the first missing, zero or infinite cost, each with its last cost; it is fit for searching iff those are positive |
| Enumeration.Cover | internal/route/finder/topn.go:61-98 | every sequence of the search tree has been popped or has a queued prefix |
| Enumeration.NothingLighterLeft | internal/route/finder/topn.go:61-98 | what has not been popped is at least as heavy as everything that has been |
| Enumeration.SimpleGoals | internal/route/finder/topn.go:66-82 | the goals of the search are exactly the simple paths from start to end |
| Finder.Graph.GetTopNShortestPaths | internal/route/finder/topn.go:42-105 | distinct simple paths with their costs in order; one is missing only if n others cost no more; fails iff n is not positive or there is no path; terminates |
| PathQueues.CollectedIsTopN | internal/route/finder/topn.go:61-104 | a search that ended with n results or an empty queue has found the n best simple paths |
| PathQueues.TopNCount | internal/route/finder/topn.go:61-104 | the number of results is min(n, number of simple paths) |
| PathQueues.TopNFirst | internal/route/finder/topn.go:42-105 | the first result is as short as any walk: it agrees with GetShortestPath |
| Enumeration.CycleGoals | internal/route/finder/circular.go:74-104 | the accepted sequences are exactly the cycles through the required edge and never its reverse, except that none starts at edgeEnd |
| Enumeration.RequiredCycleLength | internal/route/finder/circular.go:94-97 | every such cycle has at least three edges |
| Enumeration.RotateCycle | internal/route/finder/circular.go:53-67 | a cycle started one node later is such a cycle again, so each is found once per admissible start node |
| CycleQueues.MissingCycle | internal/route/finder/circular.go:69-135 | a cycle not found from the current start node is longer than every one found from it, and the search was cut short |
| CycleQueues.PopCycling | internal/route/finder/circular.go:70-81 | a popped closed path has not been accepted before, and the length limit never cuts the search |
| Finder.Graph.FindNCircularPathsWithDirectEdge | internal/route/finder/circular.go:39-148 | distinct cycles through the required edge sorted by length; complete if fewer than n, otherwise all from the lower start nodes and the shortest from the last one; fails iff the edge does not exist |
| GraphRouting.HopIsTight | internal/route/algorithm.go:144-152 | taking path[1] of a shortest path lowers the remaining least cost by exactly the edge's weight |
| GraphRouting.GraphNextHop | internal/route/algorithm.go:144-152 | a site gets a next hop iff the origin is another, reachable site, and it is the second node of a shortest path |
| GraphRouting.GraphModeDelivers | internal/route/algorithm.go:144-157 | forwarding by everyone's own choice is loop-free and reaches the destination at least total cost |
| RouteTables.ChainLoops | internal/route/centralised.go:382-405 | the inner loop terminates and reports a loop iff the chain neither reaches its destination nor leaves the table |
| RouteTables.CheckForLoops | internal/route/centralised.go:379-410 | for any partial table, an error iff some entry's chain loops, and the reported entry does |
| RouteTables.FirstArrivalIsShort | internal/route/centralised.go:379-410 | in a complete table a walk first arrives within fewer hops than there are sites |
| RouteTables.DeliversIffLoopFree | internal/route/centralised.go:258-260 | a complete table delivers between all sites iff the check finds no loop |
| TableFilling.TryCandidate | internal/route/centralised.go:222-246 | succeeds iff the round trip fits the table; exactly the hops before the first clash are written, no filled entry changes |
| TableFilling.SelectRoute | internal/route/centralised.go:216-253 | candidates are tried by latency with any tie order, abandoned ones leave their writes; the winner is installed and every faster candidate contradicts the table; fails iff none fits |
| TableFilling.FitsIffExtendable | internal/route/centralised.go:231-246 | a round trip fits iff the table can be extended without a change to one that has it |
| TableFilling.FastestSurvives | internal/route/centralised.go:216-253 | what was said of a winner stays true while the table grows |
| TableFilling.FollowsForwardLeg | internal/route/centralised.go:231-238 | traffic from site to target follows the winner's forward leg exactly |
| TableFilling.FollowsReturnLeg | internal/route/centralised.go:231-245 | traffic from target to site follows the return leg up to its last node but one |
| TableFilling.GreedyFillingCanLoop | internal/route/centralised.go:231-246 | in any table, two round trips that each fit can close a loop, which stays whatever else is written |
| LoopExample.EveryFillingLoops | internal/route/centralised.go:149-256 | for three connected sites and four measured round trips, every complete filling has a loop and does not deliver |
| LoopExample.FillingCanEndInLoop | internal/route/centralised.go:149-260 | with those sites and measurements a run places every pair it handles, completes the table, and ends in a loop |
| Candidates.JoinIsTrip | internal/route/centralised.go:158-179 | a forward and a return path join to a round trip |
| Candidates.RoutePenalty | internal/route/centralised.go:412-424 | ten per node, and the latency once for each pass through site 0 unless that is an end |
| Candidates.MeasureAll | internal/route/centralised.go:171-205 | every measured combination of a forward and a return path is listed exactly once |
| Candidates.AtMost25 | internal/route/centralised.go:171-205 | at most 25 results, so the channel never blocks |
| Centralised.CentralisedRouter.FillPair | internal/route/centralised.go:158-253 | the pair's event: the candidates are exactly the measured combinations of the five best forward and return paths, the fastest fitting one is placed, or none fits; a missing path is justified |
| FillHistory.RunGrows | internal/route/centralised.go:149-256 | over a whole run the table is write-once |
| FillHistory.ChoiceSurvives | internal/route/centralised.go:216-253 | in every later table the choice for a pair is still the fastest fitting one, and traffic follows its forward leg and its return leg |
| FillHistory.EntriesProposed | internal/route/centralised.go:231-246 | every entry for another site is unchanged or a hop of a candidate tried for a pair handled in the run |
| FillHistory.ProposedIsEdge | internal/route/centralised.go:231-246 | every hop proposed in a run is an edge of the graph |
| FillHistory.HandledOnce | internal/route/centralised.go:149-157 | a pair once placed is not handled again |
| FillHistory.LinkedHolds | internal/route/centralised.go:149-256 | of the last table of every run: no entry was overwritten, all choices made stand, and all entries come from candidates tried |
| Centralised.CentralisedRouter.FillTable | internal/route/centralised.go:149-256 | the history leads from the blank table to the last one, in which all choices stand; on success it is complete and all pairs handled were placed; a refusal is justified by a missing path or by the last pair handled, whose candidates all clash |
| Centralised.CentralisedRouter.FillRow | internal/route/centralised.go:150-255 | a row extends the history by every entry it fills and leaves none unset |
| Centralised.CentralisedRouter.BuildTable | internal/route/centralised.go:112-260 | refuses the weights iff a cost is missing, zero or infinite; otherwise the graph holds exactly the reported paths and costs, and a table that passes is complete, sends traffic only along reported paths, delivers between all sites and has only entries of candidates tried for pairs whose choices stand; every refusal is justified, and a table refused for a loop does not deliver |
| Centralised.CentralisedRouter.Refresh | internal/route/centralised.go:112-268 | the graph holds exactly the reported paths and costs; no site is touched unless the table is complete, uses only reported paths, delivers and is what the history of choices wrote; every refusal is justified; when distribution succeeds every site has received its row |
| Centralised.CentralisedRouter.Distribute | internal/route/centralised.go:280-301 | succeeds iff every call is answered; each site has then received its row, and before a failure a site has its row or its old routes |
| Centralised.CentralisedRouter.UpdateSiteRoutes | internal/route/centralised.go:305-338 | reports a change iff a lookup or a surplus destination says so; afterwards every lookup answers as the new routes and no other destination is left |
| Centralised.CentralisedRouter.UpdateRoute | internal/server/distributed/distributed.go:34-39 | the received row is installed: all lookups answer as the row |
| RouteWire.InstallsIff | internal/route/centralised.go:305-338 | a site's routes answer as the row iff they contradict none of its entries, have no others, and miss only entries for next hop 0 |
| RouteWire.ConvertToInt32Map | internal/route/centralised.go:426-432 | every entry is the 32-bit truncation of an entry, in any order of collisions |
| RouteWire.ConvertToIntMap | internal/server/distributed/distributed.go:49-55 | the widening conversion changes nothing |
| RouteWire.FaithfulIffInInt32 | internal/route/centralised.go:426-432 | the wire format is faithful iff all keys and values are 32-bit numbers |
| RouteWire.InstalledDelivers | internal/route/algorithm.go:202-208 | forwarding by lookups in the installed rows, a missing key reading as 0, delivers as the leader's table does |
| Centralised.NetworkDelivers | internal/route/centralised.go:258-301 | once every site has received its row, traffic from every site reaches every site |
| Codec.DecodeEncode | internal/measure/pathping/pathping.go:512-582 | a well-formed packet is read back from its bytes, whatever follows them |
| Codec.EncodeDecode | internal/measure/pathping/pathping.go:512-582 | an accepted buffer is reproduced up to the packet's length |
| Codec.Layout | internal/measure/pathping/pathping.go:512-582 | every field lies at its offset, low bytes first, signed numbers in two's complement, the path before the versions |
| Codec.RejectedIff | internal/measure/pathping/pathping.go:541-566 | exactly which bytes are rejected, and with which error |
| Codec.ArrivesIffShort | internal/measure/pathping/pathping.go:25-25 | a packet survives the receive buffer iff it has at most 16 nodes, whatever the flag says |
| Codec.Serialize | internal/measure/pathping/pathping.go:512-538 | fills the buffer with the encoding of the packet |
| Codec.DeserializePacket | internal/measure/pathping/pathping.go:541-582 | computes the decoding, with both error cases |
| PathPing.PathPingServer.ForwardPacket | internal/measure/pathping/pathping.go:483-502 | the packet sent, its address and the cases without one, in 16-bit arithmetic |
| PathPing.PathPingServer.Receive | internal/measure/pathping/pathping.go:414-427 | a datagram is discarded, relayed or recorded as the protocol says; exactly that result or datagram is added |
| PathPing.PathPingServer.ProcessPacket | internal/measure/pathping/pathping.go:434-478 | records at the origin in the hop before last, forwards otherwise |
| PathPing.PathPingServer.SendAll | internal/measure/pathping/pathping.go:214-276 | a rejected request sends nothing; an accepted one sends uint16(Count) packets or stops at the first that cannot be sent |
| PathPing.AcceptedIff | internal/measure/pathping/pathping.go:220-256 | exactly which requests are accepted |
| PathPing.EmittedContents | internal/measure/pathping/pathping.go:259-277 | a packet sent reads back as that number of the measurement, at hop 0, with the clock plus the average processing time |
| PathPing.RecordsIff | internal/measure/pathping/pathping.go:434-466 | exactly which received bytes lead to a result, and to which |
| PathPing.PathPingServer.CleanUpResults | internal/measure/pathping/pathping.go:344-351 | deletes exactly the entries older than three timeouts |
| PingNetwork.ReactOnPath | internal/measure/pathping/pathping.go:434-502 | a datagram in flight is lost, recorded by its origin, or relayed to the node after the next |
| PathPing.PanicIff | internal/measure/pathping/pathping.go:434-502 | exactly which received bytes make a server index past the end of a path |
| PingNetwork.NoPanicsOrStrays | internal/measure/pathping/pathping.go:434-502 | over every run no server indexes past the end of a path or finds an unknown origin |
| PingNetwork.HopSafety | internal/measure/pathping/pathping.go:434-502 | over every run each datagram in flight is addressed to Path[CurrentHop+1] and has been sent at most PathLength-1 times |
| PingNetwork.Conservation | internal/measure/pathping/pathping.go:258-328 | over every run: created = in flight + lost + deleted + kept, and no more than Count results are kept |
| PingNetwork.CompleteMeansAllBack | internal/measure/pathping/pathping.go:310-323 | Measure sees Count results iff every packet asked for was sent and has come back |
| PingNetwork.LargeCountsNeverComplete | internal/measure/pathping/pathping.go:258-311 | with a count above 65535 the results are never complete |
| PingTimes.FlightContents | internal/measure/pathping/pathping.go:259-277 | over every run a datagram in flight reads back as its packet: number, path, hop, and a start time that is the clock of its creation plus the processing times of all its senders |
| PingTimes.KeptDurations | internal/measure/pathping/pathping.go:434-466 | over every run the durations kept are, in order, those of the packets recorded since the last deletion: recording time less creation and processing times |
| PingTimes.RecordedOnce | internal/measure/pathping/pathping.go:259-277 | over every run no packet of a test is recorded twice |
| PingRuns.RunTravelled | internal/measure/pathping/pathping.go:434-502 | over every run a datagram in flight has passed only sites that know the next one and allow its length, and results exist only for passable paths |
| PingRuns.MeasureMany | internal/measure/pathping/pathping.go:258-328 | over a passable path some run brings back any number of packets up to the count, none lost |
| PingRuns.CompletableIff | internal/measure/pathping/pathping.go:258-328 | an accepted measurement can be completed iff the count is at most 65535, the path has at most 16 nodes, all its sites know the next one and all receivers allow its length |
| PingRuns.CompletableIffSmall | internal/measure/pathping/pathping.go:258-328 | between sites that know and allow each other: completable iff at most 16 nodes and a count of at most 65535 |
| Keys.PairKeyInjective | internal/route/cost/path.go:38-40 | different pairs have different cache keys, negative numbers included |
| Keys.PathKeyInjective | internal/route/finder/topn.go:88-88 | different paths have different keys |
| Keys.TestIDInjective | internal/measure/pathping/pathping.go:448-448 | different tests have different result keys |
| LatencyCache.PathLatencyCache.GetPathLatency | internal/route/cost/path.go:57-82 | the answer and the new cache, for hits, misses and failures |
| LatencyCache.PathLatencyCache.RefreshPathLatency | internal/route/cost/path.go:114-121 | the entry is dropped before the lookup, so the answer is computed anew |
| LatencyCache.PathLatencyCache.OverwritePathLatency | internal/route/cost/path.go:100-110 | the entry is replaced and lives for a minute |
| LatencyCache.PathLatencyCache.CleanExpired | internal/route/cost/path.go:42-54 | exactly the expired entries are deleted |
| LatencyCache.CleanerIsInvisible | internal/route/cost/path.go:42-82 | over every run with a clock that does not go back, each use is answered as if there were no cleaner |
| LatencyCache.AnswersAreFresh | internal/route/cost/path.go:57-82 | every latency given out was computed by this use, or this is a lookup and it was stored for the same pair and has not expired |
| LatencyCache.RefreshIsComputed | internal/route/cost/path.go:114-121 | over every run a refresh is answered by what the metrics report then, never from the cache |
| LatencyCache.GetAnswers | internal/route/cost/path.go:57-82 | over every run a lookup returns what was put in for its pair less than a minute ago and left alone since, and is computed if there is nothing |
| LatencyCache.StoredIsSeen | internal/route/cost/path.go:57-82 | a latency written, refreshed or computed by a lookup is what lookups of that pair return for a minute, whatever the metrics report |
| LatencyCache.OverwriteIsSeen | internal/route/cost/path.go:100-110 | a value written by hand is what lookups of that pair return for a minute, whatever happens to other pairs |
| BandwidthStats.ClientStats.Process | internal/measure/bandwidth/server.go:172-207 | the statistics after a packet: the average moves by an nth of the distance to the jitter, the variance by the product of both deviations; and the division by zero when the counter wraps |
| BandwidthStats.JitterStep | internal/measure/bandwidth/server.go:190-194 | under truncating division the average moves towards the new jitter, so the variance term is not negative |
| BandwidthStats.StatsAreSound | internal/measure/bandwidth/server.go:172-207 | over every packet sequence: highest is the maximum, out-of-order and dropped are counted exactly, the highest jitter is the maximum after the first packet, the average lies between 0 and the maximum, the variance is not negative; the statistics exist iff there are fewer than 2^32 packets |
| BandwidthStats.AverageStep | internal/measure/bandwidth/server.go:193-193 | over every packet sequence, packet n moves the average towards its jitter by an nth of the distance, with a remainder below n |
| BandwidthStats.VarianceIsSum | internal/measure/bandwidth/server.go:194-194 | over every packet sequence the variance is the sum of the products of the deviations before and after each packet |
| BandwidthStats.VarianceGrows | internal/measure/bandwidth/server.go:194-194 | the variance never falls, so the client's square root is defined |
| Analyser.CanonicalIffSameUndirected | internal/analyser/analyser.go:313-318 | canonical forms agree iff the undirected edges do |
| Analyser.GenerateSegments | internal/analyser/analyser.go:219-225 | the consecutive pairs of the nodes |
| Analyser.BuildEdgeMap | internal/analyser/analyser.go:271-289 | numbers exactly the edges of the paths and the target edge, without gaps or repetitions |
| Analyser.BuildMatrix | internal/analyser/analyser.go:291-311 | row by row in the flat array, every entry counts the uses of its edge by its path; the lower block and the cost vector are filled in |
| Analyser.RowIsPathSum | internal/analyser/analyser.go:298-304 | for every weighting of the edges, a path's stretch of the flat array times the weights is the sum along the path, repeats counted |
| Analyser.LowerBlockIsIdentity | internal/analyser/analyser.go:306-309 | the stretch for an edge in the lower block has its only one at that edge's position |

## Left out

- Sockets, gRPC, HTTP and Prometheus queries, netlink, BIRD, logging and flags: graphs, latencies, clocks and failures are arbitrary inputs.
- Raft and the consensus service: a wrapper without a protocol of its own.
- Float rounding: weights and latencies are reals; integers are unbounded where the source's width cannot matter.
- Heap layout: container/heap is modelled by its contract, not by its sift operations; the results hold for every layout and every choice among equals.
- NewGraph: it loads the same queries as a refresh; graphs enter the model as matrices.
- Concurrency on a graph, the caches and the results: calls are sequential.
- Sharing of backing arrays by `append` (internal/route/centralised.go:179): joined paths are fresh sequences.
- In-place update of nested maps and packets: the next-hop table, the queues of paths and pathping packets are values that the methods replace, so aliasing between them is not captured; packets only leave a server as bytes.
- Finder.Graph.Dijkstra: assumes positive weights, as the other searches do; what a search does after a reload has stored a negative cost is not modelled.
- Finder.Graph.FindNCircularPathsWithDirectEdge: a negative n, which panics in the source, is excluded.
- Centralised.CentralisedRouter.Refresh: assumes costs that are not negative, and that weights are only reported between sites the first query has reported too and below the size of the graph; otherwise the source panics on a missing row.
- Centralised.NetworkDelivers: assumes site numbers below 2^31; the address plan uses one octet.
- PingNetwork.HopSafety: assumes test numbers, which are time stamps, to be new for their path, and paths of at most 65535 nodes.
- PingRuns.CompletableIff: says that some run completes, not how likely one is; the time limit of Measure is a deletion of results at any time.
- PathPing.PathPingServer.SendAll: the averaging of durations and the polling of Measure are not modelled; a deletion of the results at any time stands for its end.
- BandwidthStats.StatsAreSound: assumes jitter that is not negative, as a monotonic clock gives.
- The cost cache (internal/route/cost/cost.go): the same code as the latency cache with another lifetime.
- BGP path selection and the fallback order between routing methods: minima and counters only.
- findTargetContainingPaths and findShortCycles: their sibling paths share backing arrays.
- The map of gateways of the graph mode (PathMap), timers, start and stop, metrics.
