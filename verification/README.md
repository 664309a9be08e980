# Verified model of the road-safety services

This project models the stateful cores of the repository in Dafny and proves what they keep over whole runs. Floats
are `real` and rounding is the identity; distances come from an abstract metric, and from the great-circle formula where
its shape matters; times, fresh ids and other environment values are parameters. Each core has a form on values, on
which the theorems are stated, and beside it the classes and loops of the source, proved against that form.

| Core | Files |
|---|---|
| Routing: A* search, edge cost, cooperative planner | `RoadGraph`, `Routes`, `AStar`, `Pathfinder`, `FastDetour`, `Distributor` |
| Edge V2X mesh: discovery, pruning, local risk | `Vehicles`, `RiskPrioritizer`, `MeshProtocol`, `MeshViews`, `MeshAlarms`, `MeshCounters`, `MeshInternet`, `MeshManager` |
| Message priority queue | `QueueModel`, `QueueAccounting`, `QueueCapacity`, `QueueFifo`, `MessageQueue` |
| Store-and-forward, token bucket | `StoreForward`, `TokenBucket` |
| Hazard fusion: grid index, engine, lifecycle, evidence | `Hazards`, `HazardIndex`, `GreatCircle`, `HazardFusion`, `HazardMatching`, `HazardHistory`, `HazardEngine`, `DetectorFusion`, `DetectorHistory`, `EvidenceWeight`, `Corroboration` |
| Alert prioritiser | `Alerts`, `AlertStore`, `AlertEvaluation`, `AlertCap`, `AlertPrioritizer` |
| Mobility graph windows, closest approach | `MobilityWindows`, `MobilityArrivals`, `MobilityGraph`, `ClosestApproach` |

`Basics` holds the shared vocabulary, among it Python's insertion-ordered dictionary. `dafny verify dfyconfig.toml`
checks everything.

## Where the code differs from what is said about it

The model follows the code. In these places a comment or a stated guarantee does not hold of it; lemmas give a
concrete input that shows it, the exact condition under which the guarantee holds, or both.

- The search's straight-line estimate is called admissible. It is admissible, and consistent, exactly when every edge
  costs at least its straight line at 13.9 m/s, and overshoots on faster edges (`Routes.HeuristicAdmissibleIff`,
  `Routes.HeuristicConsistentIff`, `Routes.FastEdgeBreaksAdmissibility`). There the search can return a dearer route
  than the cheapest (`FastDetour.SearchReturnsDearerRoute`).
- "Saturating" an edge for diversity can lower its load when its capacity is zero
  (`Distributor.SaturationNeverLowersIff`). The cost stated for an offered alternative then understates the true one
  across an open edge without capacity or vehicles whose ratio is below one (`Distributor.HollowHopUnderstates`,
  `Distributor.NeverUnderstatesIff`). A route that is taken must fit under the true loads, so a reroute is a real gain
  all the same, wherever vehicle counts are not negative (`Distributor.FittingCostNeverUnderstates`,
  `Distributor.CountsFitWithinCapacity`).
- The message queue can hold more live messages than its capacity: expired and shed entries stay in the sender map
  and are tombstoned later (`QueueCapacity.AlwaysFitsIff`, `QueueAccounting.AccountingOverRuns`).
- Creating a mesh node under an id in use leaves neighbours with the old node's state
  (`MeshViews.RecreateKeepsExactIff`). Both callers check the id first.
- The hazard grid does not widen its window with latitude and does not wrap round, and misses hazards in range far
  north and across the antimeridian (`HazardIndex.QueriesAreExactIff`, `GreatCircle.FarNorthMiss`,
  `GreatCircle.AntimeridianMiss`).
- A hundred observations from one source are said to be worth far less than ten from independent sources. For weak
  detectors they are worth more (`Corroboration.ManyCountLessThanFewIff`, `Corroboration.HundredAgainstTen`).
- The detectors' source cap is said to reserve high confidence for independent sources. It slows a single source but
  does not stop it, unless repetitions weigh nothing at all (`EvidenceWeight.OneSourceReachesCertaintyIff`).
- A hazard is said to turn stale after the silence threshold. With enough confidence left it is verified instead;
  the default settings never leave enough (`DetectorFusion.SilenceEndsIff`, `DetectorFusion.DefaultsEndInSilence`).
- The alert limits count occurrences, so an alert that repeats an actor uses up more than its share
  (`AlertCap.RepeatedActorUsesUpLimit`) and can take it past the limit (`AlertStore.AlwaysCappedIff`), and a list
  passed by a caller that shows a wrong alert to give up lets an actor past the limit (`AlertStore.LimitHoldsIff`).
- The mobility windows drop history by the time of the latest call. A look back in time misses dropped samples once
  that call is too far ahead (`MobilityWindows.WindowsEqualFullHistoryIff`), and entries out of order are counted in
  the flow rate after their time (`MobilityWindows.FlowCountsWindowIff`).
- A pair still closing at the end of the horizon is not reported, even if it is within clearance before
  (`ClosestApproach.ClosingPairIsMissed`).

## Model

| member | source | states |
|---|---|---|
| RoadGraph.MobilityGraph.AddNode | services/routing/marga_routing/graph.py:70-73 | adding a node enters it in the node table and gives it an adjacency list if it has none; nothing else changes |
| RoadGraph.MobilityGraph.AddEdge | services/routing/marga_routing/graph.py:75-77 | adding an edge replaces the entry under its id and appends the id to the list of its source; every listed edge still leaves the node that lists it exactly when no other node already lists that id |
| RoadGraph.MobilityGraph.IngestMetrics | services/routing/marga_routing/graph.py:79-81 | fresh metrics reach exactly the named edge, and unknown ids change nothing |
| RoadGraph.Graph.EdgesFromMembers | services/routing/marga_routing/graph.py:109-110 | the edges offered at a node are the listed ids that are still in the edge table |
| RoadGraph.EdgeCostMonotoneInLoad | services/routing/marga_routing/cost.py:24-59 | more assigned vehicles never make an edge cheaper |
| RoadGraph.EdgeCostAtLeastTravelTime | services/routing/marga_routing/cost.py:24-59 | on sane metrics an open edge costs at least its travel time, whatever the load |
| RoadGraph.ClosedCostsAnHour | services/routing/marga_routing/cost.py:34-36 | a closed edge, and a full one on which nothing moves, costs an hour whatever else is known of it |
| RoadGraph.DisturbancesAddUp | services/routing/marga_routing/cost.py:38-59 | on an open edge each disturbance costs its own time: 60 s for a full hazard, 10 s for full congestion downstream, 15 s for a lost position, and further metres their driving time, each independently of the others and of the load |
| RoadGraph.UndisturbedCostsTheDrive | services/routing/marga_routing/cost.py:38-59 | an undisturbed edge up to seven tenths of its capacity costs its driving time |
| RoadGraph.CrowdingCosts | services/routing/marga_routing/cost.py:42-48 | above that, a share of the remaining three tenths costs two minutes times its square, and never more than two minutes |
| RoadGraph.LoadIsAShare | services/routing/marga_routing/cost.py:43 | the vehicles already assigned count as a share of the capacity |
| Routes.ComputePathCost | services/routing/marga_routing/pathfinder.py:106-117 | the accumulating loop yields the sum of the step costs, or infinity as soon as an edge is unknown |
| Routes.ComputePathEta | services/routing/marga_routing/pathfinder.py:130-139 | the travel-time loop sums over known edges and skips unknown ones |
| Routes.EtaAddsUp | services/routing/marga_routing/pathfinder.py:130-139 | travel times add up along a path |
| Routes.EtaOfStep | services/routing/marga_routing/pathfinder.py:130-139 | an edge takes its length at its speed, of at least 0.5 m/s, and an unknown one no time |
| Routes.EtaNeverExceedsCost | services/routing/marga_routing/pathfinder.py:106-139 | along open edges with sane metrics the travel time never exceeds the cost, whatever the loads |
| Routes.PathCostMonotone | services/routing/marga_routing/pathfinder.py:106-117 | pointwise larger loads make no path cheaper |
| Routes.RouteIsConnected | services/routing/marga_routing/pathfinder.py:78-101 | in a linked graph every edge of a route leaves the node before it |
| Routes.SimpleRouteUsesEdgesOnce | services/routing/marga_routing/pathfinder.py:78-101 | a simple route uses no edge twice |
| Routes.HeuristicConsistentIff | services/routing/marga_routing/pathfinder.py:52-62 | the straight-line estimate is consistent towards every destination exactly when each edge costs at least its straight line driven at 13.9 m/s |
| Routes.ZeroHeuristicConsistentIff | services/routing/marga_routing/pathfinder.py:56-62 | without the heuristic, consistency says exactly that no listed edge has a negative price |
| Routes.CalibratedGraphIsConsistent | services/routing/marga_routing/pathfinder.py:52-62 | lengths no shorter than the straight line, speeds up to 13.9 m/s, non-negative penalties and short enough closed edges make the estimate consistent under any load |
| Routes.FastEdgeBreaksAdmissibility | services/routing/marga_routing/pathfinder.py:52-62 | a concrete edge driven at 27.8 m/s: the estimate exceeds the true cost, so the comment that calls it admissible fails above 13.9 m/s |
| Routes.HeuristicAdmissibleIff | services/routing/marga_routing/pathfinder.py:52-62 | the estimate never exceeds the cost of any route between registered nodes exactly when each edge costs at least its straight line driven at 13.9 m/s |
| AStar.Search | services/routing/marga_routing/pathfinder.py:64-103 | for any price and estimate the search terminates, by a run of its loop, with a simple route exactly when the destination is reachable; under a consistent estimate the route is a cheapest one |
| AStar.Expand | services/routing/marga_routing/pathfinder.py:88-101 | relaxing the edges of the node just closed keeps every heap item a priced route and leaves all its edges relaxed |
| AStar.Reconstruct | services/routing/marga_routing/pathfinder.py:78-86 | following parents from an item rebuilds exactly its route |
| AStar.PoppedIsCheapest | services/routing/marga_routing/pathfinder.py:70-88 | under a consistent estimate an item popped by least f is a cheapest route to its node, so the closed set never needs reopening |
| AStar.ExhaustedCoversReachable | services/routing/marga_routing/pathfinder.py:68-103 | when the heap runs empty every reachable node has been closed |
| Pathfinder.PriceIsPathCost | services/routing/marga_routing/pathfinder.py:95-117 | the cost the search accumulates along a route is its path cost |
| Pathfinder.FindPath | services/routing/marga_routing/pathfinder.py:33-103 | the answer is empty exactly when the destination is unreachable or an end is unknown; otherwise it is a simple route from origin to destination with its exact path cost, found by a run of the search and minimal over all routes whenever the estimate is consistent |
| Pathfinder.NoCheaperParallelEdge | services/routing/marga_routing/pathfinder.py:33-103 | under a consistent estimate, of parallel edges between two nodes of the route none is cheaper than the one taken |
| Pathfinder.LeastHazardousIsTaken | services/routing/marga_routing/pathfinder.py:33-103 | of parallel open edges that differ only in their hazard the route takes a least hazardous one |
| FastDetour.DirectIsReturned | services/routing/marga_routing/pathfinder.py:52-103 | where the origin has a direct edge to the destination and a side edge whose estimate looks worse, every run of the search returns the direct edge, whatever the rest costs |
| FastDetour.SearchReturnsDearerRoute | services/routing/marga_routing/pathfinder.py:52-103 | a concrete graph with edges faster than 13.9 m/s on which the search returns a route of 10 s although one of 6 s exists |
| Distributor.CheckTrigger | services/routing/marga_routing/distributor.py:168-181 | the reason is that of the first closed or critically hazardous edge, and none exactly when there is no such edge |
| Distributor.MaxHazard | services/routing/marga_routing/distributor.py:183-191 | the largest hazard penalty of the path, and one that occurs on it when positive |
| Distributor.FitsCapacity | services/routing/marga_routing/distributor.py:193-204 | a path fits exactly when every known edge has room below three quarters of its capacity |
| Distributor.KAlternatives | services/routing/marga_routing/distributor.py:136-166 | the list is exactly that of the diversity loop: the answer under the current loads, then, step by step along its route until there are k, the answer with that edge saturated, unless it is the primary route or listed already |
| Distributor.SaturatedLoadsAre | services/routing/marga_routing/distributor.py:155-159 | saturating an edge puts as many vehicles on it as it holds, and leaves the load of every other edge |
| Distributor.DiverseIs | services/routing/marga_routing/distributor.py:136-166 | any such list holds at most k distinct simple routes with costs under the current loads or with one edge saturated; it is empty exactly when the destination is unreachable, and starts with the answer of the search under the current loads |
| Distributor.SaturationNeverLowersIff | services/routing/marga_routing/distributor.py:148-160 | replacing an edge load by its capacity never lowers an attainable load exactly when the saturated edge is over the cap; a capacity of zero fails this |
| Distributor.PositiveCapacityBlocks | services/routing/marga_routing/distributor.py:148-160 | every edge of positive capacity meets that condition |
| Distributor.OfferedCostNeverUnderstates | services/routing/marga_routing/distributor.py:136-166 | where it is met the cost stated for an alternative, whether it fits or not, never understates the true one |
| Distributor.SaturationNeverCheapensIff | services/routing/marga_routing/distributor.py:148-160 | saturating an edge never makes it cheaper than an attainable load does, unless it has no capacity, no vehicles and a ratio below one and is open |
| Distributor.HollowHopUnderstates | services/routing/marga_routing/distributor.py:148-160 | across such an edge with one vehicle assigned to it, the alternative with the edge saturated is stated at less than it costs |
| Distributor.NeverUnderstatesIff | services/routing/marga_routing/distributor.py:136-166 | the costs stated for alternatives never understate the true ones if and only if no such edge can be driven |
| Distributor.FitsWithinCapacityIff | services/routing/marga_routing/distributor.py:193-204 | no load that fits exceeds the capacity exactly when the least load past the capacity does not fit |
| Distributor.CountsFitWithinCapacity | services/routing/marga_routing/distributor.py:193-204 | so it is on every edge whose vehicle count is not negative, whatever its capacity |
| Distributor.FittingCostNeverUnderstates | services/routing/marga_routing/distributor.py:101-110 | there the stated cost of an alternative that fits never understates the true one, also when a zero capacity was taken as the saturated load |
| Distributor.OutcomeIsRealGain | services/routing/marga_routing/distributor.py:84-128 | wherever no fitting load exceeds the capacity, a triggered assignment changes the path and is truly cheaper under the loads of the moment, by a fifth when nothing forced it; an untriggered one keeps path and cost |
| Distributor.UntriggeredHadNoAlternative | services/routing/marga_routing/distributor.py:93-128 | among the alternatives that the diversity loop lists for a vehicle left on its path, none fits, is stated cheaper and, when nothing forces it, materially so: the reason NO_ALTERNATIVE is truthful |
| Distributor.Choose | services/routing/marga_routing/distributor.py:93-110 | the first offered alternative that fits, is stated to be cheaper, and is materially cheaper when nothing forces the reroute; the old path at its cost only if there is none |
| Distributor.PlanVehicle | services/routing/marga_routing/distributor.py:67-128 | the assignment of one vehicle: exact old cost and travel times, the first justified alternative of those considered or the old path if none is, and the exact reason, forced or not; with a consistent estimate a vehicle that stays has a cheapest route that it does not take |
| Distributor.Plan | services/routing/marga_routing/distributor.py:56-130 | one cycle assigns the vehicles in order, each under the loads of the reroutes before it |
| Distributor.LoadCountsVehicles | services/routing/marga_routing/distributor.py:123-126 | the load of an edge is the number of rerouted vehicles whose new path uses it |
| Distributor.PlanLoadsExactAndBounded | services/routing/marga_routing/distributor.py:56-130 | over a whole cycle loads are exact, and a loaded edge holds at most one vehicle more than three quarters of its capacity |
| Distributor.PlanMakesRealGains | services/routing/marga_routing/distributor.py:56-130 | every assignment of a cycle is a real gain under the loads of its moment |
| Distributor.NeverRevisitsRoute | services/routing/marga_routing/distributor.py:67-128 | under fixed metrics, repeated single-vehicle cycles never drive again a route once left |
| Distributor.ReroutingStops | services/routing/marga_routing/distributor.py:67-128 | no run of such cycles, however long, reroutes more often than a bound that depends on the map and the origin alone |
| RiskPrioritizer.Prioritize | services/edge_v2x/prioritizer.py:119-137 | the selection loop returns the first risk of highest composite score, and none exactly for no risks |
| RiskPrioritizer.TopIndex | services/edge_v2x/prioritizer.py:128-137 | the position found is that of the first risk of highest composite score |
| RiskPrioritizer.Score | services/edge_v2x/prioritizer.py:91-117 | the composite score lies in [0, 1], so the loop sentinel is below every score |
| RiskPrioritizer.DefaultScoreIs | services/edge_v2x/prioritizer.py:91-117 | under the default policy and the bounds of the risk schema the score is the documented sum of 30, 25, 15, 20 and 10 percent, and the clamp has no effect |
| RiskPrioritizer.UrgencyIs | services/edge_v2x/prioritizer.py:39-45 | the urgency is the share of the horizon that is left, 1 at once and 0 from the horizon on or without a time |
| RiskPrioritizer.WorseScoresHigher | services/edge_v2x/prioritizer.py:91-117 | of two risks that are otherwise alike the sooner one scores higher, and a risk that is worse in no respect never does |
| MeshViews.EveryRunIsExact | services/edge_v2x/manager.py:80-186 | after every complete create, remove, update or internet call of every run, each node knows exactly the other positioned nodes in its range with their latest states, and its active risk scores highest among all risks its evaluator finds over that view, absent exactly when none is found |
| MeshViews.KnowsIffInRange | services/edge_v2x/manager.py:80-186 | after every run two positioned nodes know each other, with their latest states, if and only if they are at most the radio range apart |
| MeshViews.UpdateKeepsExact | services/edge_v2x/manager.py:139-186 | the main step keeps this whatever order the entering nodes answer the discovery in: pruning, handshake and broadcast together leave nothing stale or missing |
| MeshViews.CreateKeepsExact | services/edge_v2x/manager.py:80-115 | creating an unknown id keeps every view exact |
| MeshViews.RemoveKeepsExact | services/edge_v2x/manager.py:117-129 | removing a node keeps every view exact: its former neighbours forget it and reassess |
| MeshViews.SetInternetKeepsExact | services/edge_v2x/manager.py:206-217 | switching the internet keeps every view exact |
| MeshViews.ActiveRiskIsTop | services/edge_v2x/node.py:297-318 | so it is in every exact network: the active risk is a top one over the view by the node's own evaluator and policy |
| MeshAlarms.EveryAlarmIsANewConflict | services/edge_v2x/manager.py:139-186 | over every run what the listeners observe, risks and messages, is the log of new conflicts: each is emitted once, and announced to the nodes in range, when an update of the node itself or a state it hears gives it an active risk of another kind or between other actors than before; nothing is emitted otherwise |
| MeshAlarms.UpdateIsLogged | services/edge_v2x/manager.py:139-186 | the log of one update, in order: the alarms of the moved node as the entering nodes reply, the alarms of its neighbours as they hear its state, that state, and the alarm of its own update |
| MeshAlarms.NeighbourAlarmsOnce | services/edge_v2x/node.py:271-324 | when another node moves, a node emits exactly one risk, its active one, if that node is in its range and its conflict is a new one, and none otherwise |
| MeshAlarms.RiskReachesAllInRange | services/edge_v2x/node.py:199-238 | an announced risk is received exactly by the nodes in range of its sender |
| MeshAlarms.RiskIsSentOnce | services/edge_v2x/node.py:199-238 | announcing a risk is one transmission of its sender and makes nobody else send |
| MeshCounters.EveryDeliveryIsReceived | services/edge_v2x/manager.py:80-186 | over every run the deliveries that senders count equal in number the messages that receivers count, nodes that were removed included |
| MeshViews.RecreateKeepsExactIff | services/edge_v2x/manager.py:80-115 | re-creating an id in use keeps the views exact exactly when nobody is in its range |
| MeshInternet.InternetNeverAffectsSafety | services/edge_v2x/node.py:92-103 | two runs that differ only in internet switches end with the same views, active risks and counters and have delivered the same messages and emitted the same risks |
| MeshInternet.RunsAlike | services/edge_v2x/transport.py:197-233 | the same from any two networks that agree up to the cloud side |
| MeshProtocol.SendUnfolds | services/edge_v2x/transport.py:197-233 | a transmission is the delivery to the registered peers in range, one after the other, and reports whether there was one |
| MeshManager.EvaluatePeers | services/edge_v2x/risk.py:132-145 | the pairwise loop collects every risk found against the peers, in order |
| MeshManager.Assess | services/edge_v2x/node.py:297-302 | evaluating the peers and prioritizing gives the risk that the protocol assesses |
| MeshManager.EvaluateRisks | services/edge_v2x/node.py:297-318 | the view refreshed with the top risk, and that risk as the activation when it is a new conflict |
| MeshManager.EdgeV2XManager.OnMessage | services/edge_v2x/node.py:271-295 | the receive handler follows the protocol: a peer state in range enters the view, a newly activated risk is broadcast and emitted, a risk message is only counted |
| MeshManager.EdgeV2XManager.Send | services/edge_v2x/transport.py:197-233 | the delivery loop follows the protocol and touches the cloud only when the sender is online |
| MeshManager.EdgeV2XManager.NearbyNodes | services/edge_v2x/transport.py:247-253 | the registered peers in range, in registration order |
| MeshManager.EdgeV2XManager.RefreshDirectPeers | services/edge_v2x/node.py:142-148 | out-of-range observations go and the risk is reassessed, unless only a change calls for it and there is none; the activation returned is that of the narrowed view, and none when nothing was done |
| MeshManager.EdgeV2XManager.SendRisk | services/edge_v2x/node.py:199-234 | a risk is broadcast over the direct radio and published when someone received it; the flag says whether a peer was in range |
| MeshManager.EdgeV2XManager.SendState | services/edge_v2x/node.py:236-269 | the state is broadcast likewise, with the same flag; a node without a state sends nothing |
| MeshManager.EdgeV2XManager.CreateNode | services/edge_v2x/manager.py:80-115 | the new transport is connected with every other one both ways, as in the protocol step |
| MeshManager.EdgeV2XManager.RemoveNode | services/edge_v2x/manager.py:117-129 | the removed node is unregistered and forgotten everywhere, as in the protocol step |
| MeshManager.EdgeV2XManager.UpdateActorState | services/edge_v2x/manager.py:139-186 | the entry point follows the protocol step, creating unknown actors first |
| MeshManager.EdgeV2XManager.SetInternet | services/edge_v2x/manager.py:206-217 | the switch reaches the manager and every node, as in the protocol step |
| QueueFifo.DequeueIsOldestOfHighest | services/messaging/marga_messaging/priority.py:110-145 | dequeue returns the oldest live unexpired message of the highest lane that has one, and nothing exactly when no live unexpired message exists |
| QueueFifo.DequeueFromRefines | services/messaging/marga_messaging/priority.py:110-145 | dequeuing from tombstoned lanes is dequeuing from four plain queues |
| QueueFifo.EnqueueRefines | services/messaging/marga_messaging/priority.py:69-108 | enqueuing is enqueuing into plain queues whose capacity is larger by the tombstones whose entry has left |
| QueueFifo.DequeueNeverSuperseded | services/messaging/marga_messaging/priority.py:94-108 | over any run dequeue never returns a message that its sender has superseded |
| QueueFifo.OneLivePerSender | services/messaging/marga_messaging/priority.py:94-104 | a compacting lane holds at most one live entry per sender |
| QueueFifo.ShedFromRefines | services/messaging/marga_messaging/priority.py:147-179 | shedding drops the oldest live entry of the lowest nonempty lane strictly below the incoming priority |
| QueueFifo.ShedSparesEqualAndHigher | services/messaging/marga_messaging/priority.py:147-179 | backpressure never evicts a message of equal or higher priority than the incoming one |
| QueueCapacity.OverfillingRun | services/messaging/marga_messaging/priority.py:127-132 | for every positive capacity a run after which the code counts exactly the capacity and more messages are live |
| QueueCapacity.AlwaysFitsIff | services/messaging/marga_messaging/priority.py:66-132 | the live messages fit the capacity after every run exactly when compaction is off or the capacity is not positive |
| QueueAccounting.LiveIsTotalPlusGhosts | services/messaging/marga_messaging/priority.py:65-67 | the live entries are what the capacity check counts plus the tombstones whose entry has already left its lane |
| QueueAccounting.AccountingOverRuns | services/messaging/marga_messaging/priority.py:66-108 | over any run the count stays within capacity, and the live entries exceed it by exactly the calls that superseded an entry no longer queued |
| QueueAccounting.RepairedQueueFitsCapacity | services/messaging/marga_messaging/priority.py:170-176 | with the sender map cleaned up on expiry and shedding as well, the live entries fit the capacity |
| QueueFifo.CountersTellFromStart | services/messaging/marga_messaging/priority.py:69-179 | over any run of a new queue the counters are the messages accepted, and one drop for every call that met the queue full |
| MessageQueue.HeapPop | services/messaging/marga_messaging/priority.py:110-135 | a popped heap keeps its other entries and a least one in front |
| MessageQueue.FrontIsOldest | services/messaging/marga_messaging/priority.py:117-119 | a heap and a lane in arrival order with the same entries have the same first entry |
| MessageQueue.MessagePriorityQueue.Enqueue | services/messaging/marga_messaging/priority.py:69-108 | the heap-based enqueue follows the model and keeps every heap coupled to its lane |
| MessageQueue.MessagePriorityQueue.Dequeue | services/messaging/marga_messaging/priority.py:110-145 | the heap-based dequeue follows the model and returns its message |
| MessageQueue.MessagePriorityQueue.ShedOne | services/messaging/marga_messaging/priority.py:147-179 | the shedding loops follow the model and report whether something was shed |
| MessageQueue.MessagePriorityQueue.GetStats | services/messaging/marga_messaging/priority.py:181-193 | the reported total counts the live entries: the capacity count plus the tombstones whose entry has left |
| StoreForward.MessagesAreConserved | services/messaging/marga_messaging/store_forward.py:56-165 | over any run stored = pending + forwarded + expired, the deduplication index is the exact inverse of the entry table, and no two pending entries hold the same message version |
| StoreForward.ConservedFromStart | services/messaging/marga_messaging/store_forward.py:48-165 | so it is over every run of a new manager |
| StoreForward.FlushDeliversInOrder | services/messaging/marga_messaging/store_forward.py:100-136 | a flush delivers exactly the unexpired entries whose class the connectivity permits, each once, by class and then by insertion |
| StoreForward.FlushPasses | services/messaging/marga_messaging/store_forward.py:16-36 | critical messages pass any link, regional ones any but an isolated one, analytics only a full connection; a message expires once it is older than its time to live |
| StoreForward.FlushLeavesOnlyBlocked | services/messaging/marga_messaging/store_forward.py:100-145 | what stays is unchanged and exactly what is neither expired nor permitted: no critical entry, and nothing at all on a full connection |
| StoreForward.PendingIsNewest | services/messaging/marga_messaging/store_forward.py:56-98 | however many versions of a message are stored in a row, exactly the newest is pending, with its class |
| StoreForward.PendingOverRuns | services/messaging/marga_messaging/store_forward.py:56-165 | over any run of stores, flushes and clean-ups what is pending of a message is the newest version stored since it last left, with its class, and nothing if there is none; it leaves with a flush that finds that version expired or permitted, and with a clean-up that finds it expired |
| StoreForward.NothingIsRetried | services/messaging/marga_messaging/store_forward.py:56-145 | no entry ever counts a retry: a flush delivers a message or leaves it as it was |
| StoreForward.FlushDeliversNewest | services/messaging/marga_messaging/store_forward.py:100-145 | after any run a flush delivers of each message exactly that version, if it is neither expired nor blocked |
| StoreForward.NewestIsNewest | services/messaging/marga_messaging/store_forward.py:57-64 | the newest version is the first among those of latest timestamp |
| StoreForward.StoreForwardManager.StoreMessage | services/messaging/marga_messaging/store_forward.py:56-98 | storing follows the step on values and keeps index and totals consistent |
| StoreForward.StoreForwardManager.SortedIds | services/messaging/marga_messaging/store_forward.py:111-120 | the stable sort by class |
| StoreForward.StoreForwardManager.Select | services/messaging/marga_messaging/store_forward.py:122-136 | the first loop counts, and lists what is delivered and what leaves |
| StoreForward.StoreForwardManager.RemoveEntries | services/messaging/marga_messaging/store_forward.py:138-143 | the removal loop takes exactly the listed entries out of the table and their keys out of the index |
| StoreForward.StoreForwardManager.FlushMessages | services/messaging/marga_messaging/store_forward.py:100-145 | flushing follows the step on values and returns the messages in delivery order |
| StoreForward.StoreForwardManager.CleanupExpired | services/messaging/marga_messaging/store_forward.py:147-165 | cleaning up removes exactly the expired entries and counts them |
| TokenBucket.RateBound | services/messaging/marga_messaging/network_model.py:86-105 | over any run, between any two times the bucket accepts at most its capacity plus the rate times the elapsed time, and its tokens stay between zero and the capacity |
| TokenBucket.RefusesOnlyOverrun | services/messaging/marga_messaging/network_model.py:95-105 | a request is accepted if and only if it fits every window ending now: the limiter refuses nothing it need not refuse |
| TokenBucket.Limiter.TryConsume | services/messaging/marga_messaging/network_model.py:95-105 | one call refills by elapsed time, caps, and takes the tokens when they suffice |
| HazardIndex.QueriesAreExactIff | services/hazards/marga_hazards/spatial.py:57-99 | queries at a position return exactly the listed hazards in range and of the type, each once, after every run of inserts, moves and removes, if and only if no position on the globe within the radius lies outside the window of cells |
| HazardIndex.QueriesAreExactAfterAnyRun | services/hazards/marga_hazards/spatial.py:57-99 | the sufficiency for a single run |
| HazardIndex.OutsideIsMissed | services/hazards/marga_hazards/spatial.py:88-99 | a hazard within the radius but outside the window is missed |
| HazardIndex.QueryIsExactIff | services/hazards/marga_hazards/spatial.py:71-99 | a query equals a linear scan exactly when no matching hazard lies outside the window of cells |
| HazardIndex.QueryEqualsScan | services/hazards/marga_hazards/spatial.py:81-86 | it does wherever the window covers the surroundings of the position |
| HazardIndex.NearbyIs | services/hazards/marga_hazards/spatial.py:88-99 | a query returns each matching hazard of the window once and nothing else |
| GreatCircle.WithinIff | services/hazards/marga_hazards/spatial.py:21-28 | two positions are within a distance exactly when their haversine is at most that of its angle |
| GreatCircle.FiftyMetresAreNear | services/hazards/marga_hazards/spatial.py:21-28 | within 50 m of a position up to 60 degrees of latitude neither coordinate differs by more than a thousandth of a degree, the shorter way round |
| GreatCircle.FiftyMetresCoveredToSixtyDegrees | services/hazards/marga_hazards/spatial.py:43-44 | by the great-circle distance, queries of 50 m over cells of a thousandth of a degree are exact at every position up to 60 degrees of latitude and a degree from the antimeridian |
| GreatCircle.FarNorthMiss | services/hazards/marga_hazards/spatial.py:81-86 | at 80 degrees of latitude a hazard within 50 m by the great-circle distance is missed, because the window is not widened east-west |
| GreatCircle.AntimeridianMiss | services/hazards/marga_hazards/spatial.py:31-33 | across the antimeridian a hazard at distance zero is missed |
| HazardIndex.PlaceKeepsValid | services/hazards/marga_hazards/spatial.py:57-65 | inserting or moving files a hazard in exactly one bucket and leaves the others alone |
| HazardIndex.TakeKeepsValid | services/hazards/marga_hazards/spatial.py:108-115 | removing unfiles it and drops its bucket when empty |
| HazardIndex.HazardSpatialIndex.Insert | services/hazards/marga_hazards/spatial.py:57-65 | the index object follows the step on values |
| HazardIndex.HazardSpatialIndex.RemoveFromGrid | services/hazards/marga_hazards/spatial.py:108-115 | removal follows the step on values |
| HazardIndex.HazardSpatialIndex.QueryNearby | services/hazards/marga_hazards/spatial.py:71-99 | the nested loops compute the query result in its order |
| HazardFusion.StoresStayConsistent | services/hazards/marga_hazards/fusion.py:92-156 | over any mix of observations, negative evidence and sweeps: active ids are the indexed ids; active and archived ids partition all ids ever created; no active hazard has expired and every archived one has; confidence stays in [0, 1]; a verified hazard has enough distinct sources |
| HazardFusion.LifecycleIsOneWay | services/hazards/marga_hazards/lifecycle.py:73-125 | a state never moves back in CANDIDATE, VERIFIED, STALE, EXPIRED, whatever comes between two moments of a run |
| HazardFusion.MergesIntoBestOfAll | services/hazards/marga_hazards/fusion.py:185-202 | where the window covers the observation's surroundings, it is merged into a hazard that scores best among all active ones, and starts a new one only if none reaches the minimum score |
| HazardFusion.BestIsBest | services/hazards/marga_hazards/fusion.py:193-202 | the matching loop picks a candidate of highest score above zero, and none exactly when none scores above zero |
| HazardFusion.ScoreInUnit | services/hazards/marga_hazards/fusion.py:204-235 | an association score lies in [0, 1]; a positive one needs compatible types, no clash of road segments and a distance within the radius |
| HazardMatching.ScoreNeverRises | services/hazards/marga_hazards/fusion.py:201-238 | the same report from further away, or with a longer gap, never scores higher |
| HazardMatching.ScoreOnTheSpot | services/hazards/marga_hazards/fusion.py:57-63 | on the spot the score of the same type falls evenly from 1 to 0 over two hours; a known source counts for seven tenths |
| HazardMatching.ScoreOfDistance | services/hazards/marga_hazards/fusion.py:219-223 | a simultaneous report of the same type from a new source scores the share of the radius that is left |
| HazardMatching.ScoreOfTypes | services/hazards/marga_hazards/fusion.py:45-54 | potholes and bumps pass for each other at six tenths of the score, and no other two types do |
| HazardMatching.FreshReportIsMerged | services/hazards/marga_hazards/fusion.py:88-101 | where the window covers its surroundings, a report on the spot of the same type from a new source, with a gap of at most (1 - minimum score) times two hours, is merged |
| HazardMatching.LoneHazardIsMergedIff | services/hazards/marga_hazards/fusion.py:88-101 | next to a single active hazard, with that gap and only with it |
| HazardMatching.MergeVerifiesIff | services/hazards/marga_hazards/fusion.py:320-323 | a merge verifies a candidate exactly when it now has the sources that verification needs |
| HazardMatching.SweepExpiresIff | services/hazards/marga_hazards/lifecycle.py:55-123 | a sweep archives exactly the active hazards that are past the time to live of their type or decayed below a tenth, makes those below three tenths stale, and leaves the decayed confidence to within a millionth |
| HazardMatching.DenialTakesAFifth | services/hazards/marga_hazards/fusion.py:128-150 | negative evidence takes a fifth of the confidence, and expires a hazard below a tenth or makes it stale below three tenths |
| HazardMatching.DenialReaches | services/hazards/marga_hazards/fusion.py:107-165 | it reaches exactly the hazards of its type that the index finds around its place |
| HazardFusion.SweepIs | services/hazards/marga_hazards/lifecycle.py:79-123 | a sweep decays every active hazard and moves exactly the expired ones to the archive and out of the index |
| HazardFusion.ContradictAllKeeps | services/hazards/marga_hazards/fusion.py:126-156 | negative evidence keeps the stores consistent and creates nothing |
| HazardHistory.HazardsSummariseTheirHistory | services/hazards/marga_hazards/fusion.py:241-321 | over any run every hazard summarises its history exactly: mean position and severity, number of observations, distinct sources, the one road segment its observations carry, first and latest times, compatible types |
| HazardHistory.MeanSnoc | services/hazards/marga_hazards/fusion.py:282-289 | weighting a newcomer at 1/(n+1) turns the mean of n observations into that of n+1 |
| HazardEngine.MergeInto | services/hazards/marga_hazards/fusion.py:282-316 | the field updates of a merge, in the order the engine makes them |
| HazardEngine.HazardFusionEngine.FindBestMatch | services/hazards/marga_hazards/fusion.py:185-202 | the matching loop over the query result |
| HazardEngine.HazardFusionEngine.IngestObservation | services/hazards/marga_hazards/fusion.py:92-104 | ingesting follows the step on values, keeps the stores consistent and returns the hazard concerned |
| HazardEngine.HazardFusionEngine.ApplyNegativeEvidence | services/hazards/marga_hazards/fusion.py:110-156 | the contradiction loop follows the step on values and returns the hazards found |
| HazardEngine.HazardFusionEngine.SweepHazards | services/hazards/marga_hazards/lifecycle.py:73-125 | the two sweep loops follow the step on values and return exactly the hazards that changed |
| EvidenceWeight.DetectorDoubt | services/safety-detectors/detectors/hazard_fusion.py:499-532 | the doubt left after positive reports is the product of one factor per report, 1 - c for a source's first and 1 - cw/k for its k-th |
| EvidenceWeight.RepeatsCountLess | services/safety-detectors/detectors/hazard_fusion.py:499-532 | whoever reports, the doubt left is at least that of independent sources, and when no report is certain it is strictly more exactly when some source repeated itself |
| EvidenceWeight.OneSourceCannotImitateMany | services/safety-detectors/detectors/hazard_fusion.py:9-12 | n reports of confidence c from one source leave at least (1-c)/n and at least (1-c)^n of doubt, for n >= 2 strictly more than the latter exactly when 0 < c < 1 |
| EvidenceWeight.OneSourceReachesAnyConfidence | services/safety-detectors/detectors/hazard_fusion.py:9-12 | the cap does not keep one source from certainty: enough repetitions of any positive report push the doubt below any bound |
| EvidenceWeight.OneSourceReachesCertaintyIff | services/safety-detectors/detectors/hazard_fusion.py:499-532 | one source alone can push the doubt below every bound exactly when its report is certain, or has positive confidence and repetitions have a positive weight |
| EvidenceWeight.WeightlessDoubtStays | services/safety-detectors/detectors/hazard_fusion.py:519-528 | without a weight for repetitions the doubt of the first report stays for ever |
| Corroboration.FusionDoubt | services/hazards/marga_hazards/fusion.py:323-344 | in the cooperative engine the doubt left is the product of 1 - c/2 for new and 1 - c/20 for known sources |
| Corroboration.RepeatsCountLess | services/hazards/marga_hazards/fusion.py:323-344 | it is at least that of independent sources, strictly more exactly when a source repeated itself with positive confidence |
| Corroboration.OneSourceCannotImitateMany | services/hazards/marga_hazards/fusion.py:8-10 | n observations from one source leave at least the doubt of n independent ones, for n >= 2 strictly more exactly when c > 0 |
| Corroboration.SameDoubtClosed | services/hazards/marga_hazards/fusion.py:323-344 | the doubt of n observations from one source is (1 - c/2)(1 - c/20)^(n-1) |
| Corroboration.ManyCountLessThanFewIff | services/hazards/marga_hazards/fusion.py:8-10 | k*j+1 observations from one source count for less than j+1 independent ones exactly when (1 - c/20)^k > 1 - c/2 |
| Corroboration.HundredAgainstTen | services/hazards/marga_hazards/fusion.py:8-10 | a hundred against ten: less for detectors half sure, as documented, but more for detectors a tenth sure |
| DetectorFusion.LifecycleOverRuns | services/safety-detectors/detectors/hazard_fusion.py:407-497 | over any run of reports and decays confidence stays in [0, 1], a verified hazard has at least the promotion confidence, nothing becomes a candidate again and an expired hazard never changes |
| DetectorFusion.LifecycleFromFirstReport | services/safety-detectors/detectors/hazard_fusion.py:407-532 | so it is for every hazard from its first report on, under any source cap between 0 and 1 |
| DetectorHistory.LiveHazardSummarisesReports | services/safety-detectors/detectors/hazard_fusion.py:407-497 | as long as it has not expired a hazard is a summary of its reports: how many confirmed it and from which sources, the greatest severity, first and latest time, the latest road named, and how many each source made |
| DetectorHistory.DenialCosts | services/safety-detectors/detectors/hazard_fusion.py:534-560 | a denial takes a quarter of its confidence off, twice that from a temporary hazard, down to zero, and changes nothing else but the state and the source count |
| DetectorHistory.ConfirmationMoves | services/safety-detectors/detectors/hazard_fusion.py:407-497 | a confirmation never lowers the confidence and moves the position a share of the way, the larger the more confident, up to a fifth |
| DetectorHistory.ReportedStateIs | services/safety-detectors/detectors/hazard_fusion.py:575-603 | expired without confidence, verified with enough of it, stale when a verified hazard lost it |
| DetectorHistory.ExpiredStaysExpired | services/safety-detectors/detectors/hazard_fusion.py:575-603 | a report never brings an expired hazard back |
| DetectorHistory.DecayIs | services/safety-detectors/detectors/hazard_fusion.py:609-668 | a live hazard expires exactly past its time to live or almost without confidence; otherwise it is verified with enough confidence left, and stale if it lost that or was silent for the threshold |
| DetectorHistory.NoDecayBackwards | services/safety-detectors/detectors/hazard_fusion.py:619-628 | nothing decays before it was last seen, and an expired hazard stays as it is |
| DetectorFusion.SilenceMakesStaleIff | services/safety-detectors/detectors/hazard_fusion.py:609-668 | after the silence threshold a live hazard is stale or expired, as documented, exactly when its faded confidence is below the promotion confidence or it runs out |
| DetectorFusion.SilenceCanVerify | services/safety-detectors/detectors/hazard_fusion.py:664-666 | under a slow decay a concrete candidate that silence turns into a verified hazard |
| DetectorFusion.SilenceEndsIff | services/safety-detectors/detectors/hazard_fusion.py:609-668 | a gap of silence ends every live hazard stale or expired exactly when it fades even full confidence below the promotion confidence or the least one |
| DetectorFusion.DefaultsEndInSilence | services/safety-detectors/detectors/hazard_fusion.py:630-646 | under the default settings it always does |
| DetectorFusion.HazardRecord.Update | services/safety-detectors/detectors/hazard_fusion.py:407-497 | integrating a report updates the record as the step on values says |
| DetectorFusion.HazardRecord.Decay | services/safety-detectors/detectors/hazard_fusion.py:609-668 | decaying updates the record as the step on values says |
| AlertStore.CountersStayExact | services/safety-detectors/detectors/alert_prioritization.py:221-323 | over any run, whatever alert lists the callers pass, each counter equals its actor's occurrences in ACTIVE stored alerts |
| AlertStore.CountersExactFromStart | services/safety-detectors/detectors/alert_prioritization.py:221-323 | so it is over every run of a new prioritizer |
| AlertStore.ClampNeverBites | services/safety-detectors/detectors/alert_prioritization.py:313-323 | every counter that is stepped down is at least one, so the clamp at zero has no effect |
| AlertStore.LimitHoldsOverRuns | services/safety-detectors/detectors/alert_prioritization.py:246-254 | when callers name actors once, and the alert their list shows an actor at its limit to give up is stored ACTIVE and names the actor, no actor ever exceeds the limit of concurrent stored alerts |
| AlertStore.LimitHoldsFromStart | services/safety-detectors/detectors/alert_prioritization.py:221-273 | so it is over every such run of a new prioritizer |
| AlertStore.LimitHoldsIff | services/safety-detectors/detectors/alert_prioritization.py:221-273 | whatever risk comes next, no actor is taken past the limit if and only if the list is right in that one respect, however stale it is elsewhere |
| AlertStore.WrongAlertPassesLimit | services/safety-detectors/detectors/alert_prioritization.py:246-254 | otherwise one risk a level higher takes the actor past it |
| AlertStore.NamedTwicePassesLimit | services/safety-detectors/detectors/alert_prioritization.py:221-273 | a risk that names an actor twice takes it from one below the limit past it |
| AlertStore.AlwaysCappedIff | services/safety-detectors/detectors/alert_prioritization.py:221-273 | a risk takes no actor past the limit, wherever the list is right, if and only if it names its actors once |
| AlertStore.StaleListPassesLimit | services/safety-detectors/detectors/alert_prioritization.py:246-254 | a concrete out-of-date list that lets an actor past the limit |
| AlertStore.LowestIsLowest | services/safety-detectors/detectors/alert_prioritization.py:337-357 | the alert found is ACTIVE, the actor's, and none of the actor's ranks lower; none is found exactly when there is none |
| AlertStore.EvaluateLogs | services/safety-detectors/detectors/alert_prioritization.py:221-273 | an evaluation logs its suppression key exactly when it issues an alert, and issues none within the window |
| AlertEvaluation.IssuesIff | services/safety-detectors/detectors/alert_prioritization.py:221-273 | an alert is issued if and only if the risk does not repeat one within the window or with about the same score and there is room; it is stored as the ACTIVE alert of that risk and its actors |
| AlertEvaluation.EvaluationLeaves | services/safety-detectors/detectors/alert_prioritization.py:260-273 | a critical alert with pre-emption on resolves exactly the stored alerts that the list shows as ACTIVE minor alerts of its actors; all others are as making room left them |
| AlertEvaluation.CriticalStandsAlone | services/safety-detectors/detectors/alert_prioritization.py:325-335 | so no minor alert that the list shows to share an actor stays ACTIVE beside a critical one |
| AlertEvaluation.RoomCostsOnlyLowest | services/safety-detectors/detectors/alert_prioritization.py:246-254 | room is made only by resolving the lowest shown alerts of actors at their limit that rank below the new one |
| AlertEvaluation.RoomForOne | services/safety-detectors/detectors/alert_prioritization.py:246-254 | for a risk to one actor: room as it is below the limit, by giving up a lower alert at it, and none otherwise |
| AlertEvaluation.NothingGivenUpBelowLimit | services/safety-detectors/detectors/alert_prioritization.py:246-273 | while its actors are below the limit a risk that does not pre-empt costs no stored alert anything |
| AlertEvaluation.RefusedRiskCostsAlert | services/safety-detectors/detectors/alert_prioritization.py:246-254 | a risk to two actors that is refused for the second has already cost the first its alert |
| AlertEvaluation.FirstOfIsFirst | services/safety-detectors/detectors/alert_prioritization.py:282-286 | the alert that resolving a risk finds is the first stored ACTIVE one of that risk, and none is found exactly when there is none |
| AlertEvaluation.ResolveRiskLeavesOthers | services/safety-detectors/detectors/alert_prioritization.py:282-295 | and it alone is resolved |
| AlertStore.SameKeyAlertsAreApart | services/safety-detectors/detectors/alert_prioritization.py:297-309 | two alerts with the same suppression key are at least a window apart, whatever comes between |
| AlertEvaluation.KeyAlertsOnceAWindow | services/safety-detectors/detectors/alert_prioritization.py:221-309 | so in a run of a new prioritizer on a forward clock any two calls that issue alerts for the same key are a window apart |
| AlertPrioritizer.FindLowest | services/safety-detectors/detectors/alert_prioritization.py:337-357 | the nested loops find that alert |
| AlertPrioritizer.Prioritizer.EvaluateRiskEvent | services/safety-detectors/detectors/alert_prioritization.py:221-273 | evaluating a risk follows the step on values and keeps the counters exact |
| AlertPrioritizer.Prioritizer.ResolveRiskById | services/safety-detectors/detectors/alert_prioritization.py:282-295 | resolving a risk follows the step on values, keeps the counters exact, and returns the first ACTIVE alert of the risk as resolved, or nothing if there is none |
| AlertPrioritizer.Prioritizer.ResolveStoredAlert | services/safety-detectors/detectors/alert_prioritization.py:313-323 | resolving a stored alert follows the step on values |
| AlertPrioritizer.Prioritizer.MakeRoomFor | services/safety-detectors/detectors/alert_prioritization.py:246-254 | the loop over the affected actors follows the step on values |
| AlertPrioritizer.Prioritizer.SuppressLowerPriority | services/safety-detectors/detectors/alert_prioritization.py:325-335 | the suppression loop follows the step on values |
| AlertCap.EnforceMaxConcurrent | services/safety-detectors/detectors/alert_prioritization.py:653-685 | the same alerts in the same order, an ACTIVE one suppressed exactly when one of its actors is at the limit among the results before it |
| AlertCap.NoActorOverLimit | services/safety-detectors/detectors/alert_prioritization.py:653-685 | no actor is left in more ACTIVE alerts than the limit |
| AlertCap.SuppressedIff | services/safety-detectors/detectors/alert_prioritization.py:668-679 | an alert is suppressed exactly when an actor of it already occurs that often in ACTIVE alerts ranked before it; if no alert repeats an actor, in that many alerts |
| AlertCap.RepeatedActorUsesUpLimit | services/safety-detectors/detectors/alert_prioritization.py:668-683 | an alert that repeats an actor uses up a limit of two alone |
| AlertCap.ApplyPreemption | services/safety-detectors/detectors/alert_prioritization.py:593-651 | unless switched off by the configuration, minor alerts that share an actor with an ACTIVE critical collision alert are suppressed; all others stay |
| AlertCap.PreemptionSuppressesIff | services/safety-detectors/detectors/alert_prioritization.py:593-651 | pre-emption suppresses exactly the minor alerts that share an actor with an ACTIVE critical collision, and leaves every other alert as it is |
| AlertCap.NoMinorBesideCritical | services/safety-detectors/detectors/alert_prioritization.py:209-217 | after both passes, with pre-emption on, no minor alert is ACTIVE beside an ACTIVE critical collision alert of a shared actor |
| AlertCap.NoMinorBesideCriticalIff | services/safety-detectors/detectors/alert_prioritization.py:209-217 | that is so for all alerts exactly when pre-emption is on or the limit is at most one |
| AlertCap.CapPrefersHigherLevels | services/safety-detectors/detectors/alert_prioritization.py:209-217 | on sorted alerts whatever is ACTIVE before a capped alert has at least its level, at the same level at least its confidence, and is no older at the same one |
| AlertCap.SortKeyDecides | services/safety-detectors/detectors/alert_prioritization.py:688-706 | alerts are ordered ACTIVE ones first, then by level, by confidence, and the latest first |
| MobilityWindows.WindowsEqualFullHistoryIff | services/mobility_graph/service.py:230-251 | for histories in whatever order of times, a window computed at a time from the trimmed deques equals the one over the untrimmed history, on all histories up to a latest call time, if and only if that is at most the unused part of the 60 s ahead |
| MobilityWindows.RunsAgree | services/mobility_graph/service.py:106-162 | in whatever order the calls come, a run that trims and one that keeps everything agree but for items more than 60 s before the latest call |
| MobilityWindows.SampleCountsGrow | services/mobility_graph/service.py:236-251 | a longer window never has fewer samples |
| MobilityWindows.LateCallLosesSample | services/mobility_graph/service.py:230-234 | a concrete run of the service, a registration and a later refresh, after which a look back in time finds one sample of two |
| MobilityWindows.FlowCountsWindowIff | services/mobility_graph/service.py:145-146 | the count behind the flow rate is that of the last 60 s exactly when no outdated entry stands behind a current one |
| MobilityWindows.ForwardFlowIsExact | services/mobility_graph/service.py:145-146 | which is so when times never go backwards |
| MobilityArrivals.EntriesAreArrivals | services/mobility_graph/service.py:106-122 | over any run the untrimmed entries of an edge are, in order, exactly the observations that place an actor there whose preceding observation placed it elsewhere or nowhere |
| MobilityArrivals.FlowIsArrivalRate | services/mobility_graph/service.py:145-146 | on a forward clock the flow shown is 60 times the number of those arrivals in the last minute |
| MobilityArrivals.WindowFlowIsArrivalRate | services/mobility_graph/service.py:236-251 | and that of each of the windows of 5, 15, 30 and 60 s the hourly rate of the arrivals within it, in whatever order the calls came |
| MobilityArrivals.SamplesAreReadings | services/mobility_graph/service.py:106-162 | the untrimmed samples of an edge are exactly its readings, one for every call by which an actor arrives, stays or leaves, or that registers or refreshes it |
| MobilityArrivals.ReadingCounts | services/mobility_graph/service.py:132-145 | a reading counts the vehicles last reported on the edge and those of them at 2 m/s or less, and relates them to the capacity last registered |
| MobilityArrivals.ReadingSpeedIsMean | services/mobility_graph/service.py:138 | its speed lies between the slowest and the fastest on the edge, and is zero on an empty one |
| MobilityArrivals.WindowSummarisesReadings | services/mobility_graph/service.py:236-251 | every window counts the readings within it, and its means lie between the least and the greatest of them, zero without any |
| MobilityArrivals.ObservationShowsLooks | services/mobility_graph/service.py:106-162 | the states that observing an actor returns are what a look at those edges at the same moment shows |
| MobilityArrivals.RecordedShowsLook | services/mobility_graph/service.py:45-47 | so is the state of an edge that is registered |
| MobilityArrivals.LateLookLosesSample | services/mobility_graph/service.py:230-234 | a look far ahead drops old samples for good |
| MobilityWindows.AffectedIsSorted | services/mobility_graph/service.py:116-122 | the edges an observation affects are the new one and the former one, each once, in code point order |
| MobilityWindows.CountsAddUp | services/mobility_graph/service.py:127-136 | over any run the vehicle counts of all edges add up to the vehicles that have a road segment |
| MobilityGraph.LookShowsFullHistoryIff | services/mobility_graph/service.py:87-90 | when no call is later than a look, all it shows is what the untrimmed history shows exactly when no outdated entry stands behind a current one; on a forward clock it always is |
| MobilityGraph.TrimItems | services/mobility_graph/service.py:230-234 | the trimming loop |
| MobilityGraph.MobilityGraphService.StateOf | services/mobility_graph/service.py:132-162 | an edge state shows its current sample, the flow over the trimmed entries and the four windows, and records a sample when asked |
| MobilityGraph.MobilityGraphService.ObserveActor | services/mobility_graph/service.py:106-122 | observing an actor moves it between edges, counts an entry when the edge is new to it, records the affected edges in alphabetical order and returns their states |
| MobilityGraph.MobilityGraphService.Observe | services/mobility_graph/service.py:49-50 | observing a vehicle stores it and returns the states of the edge it left and the edge it is on, as the step on values does |
| MobilityGraph.MobilityGraphService.ObserveWalker | services/mobility_graph/service.py:52-53 | so it is for a pedestrian |
| MobilityGraph.MobilityGraphService.RegisterEdge | services/mobility_graph/service.py:45-47 | registering an edge sets its capacity and returns its state, recording a sample |
| MobilityGraph.MobilityGraphService.GetEdge | services/mobility_graph/service.py:87-90 | a look at a known edge returns its state without recording a sample |
| ClosestApproach.ClosestIsMinimal | services/risk/engine.py:48-61 | the separation at the clamped time is at most that at every time of the horizon |
| ClosestApproach.DistanceTestIff | services/risk/engine.py:61-65 | the distance test rejects exactly the pairs that stay beyond clearance for the whole horizon |
| ClosestApproach.ReportedIff | services/risk/engine.py:30-75 | a pair is reported exactly when the actors differ, are near, move relative to each other, come within clearance during the horizon, are no longer closing at its end, and do not follow each other in lanes |
| ClosestApproach.ReportIsClosest | services/risk/engine.py:52-61 | a reported distance is that of the reported time and the least of the horizon |
| ClosestApproach.ReportedKindIff | services/risk/engine.py:76-83 | a report is head-on from a heading difference of 150 degrees on, rear-end up to 30, and otherwise crossing |
| ClosestApproach.ReportedSeverityIs | services/risk/engine.py:86-88 | its severity is one minus 0.55 times the distance as a share of the clearance minus 0.45 times the time as a share of the horizon |
| ClosestApproach.ClosingPairIsMissed | services/risk/engine.py:64-65 | a concrete head-on pair, within clearance well before the horizon ends, that is not reported because it is still closing then |
| ClosestApproach.SeverityFalls | services/risk/engine.py:86-88 | severity lies in [0, 1] and falls with distance and with time |
| ClosestApproach.SlopeAtClosest | services/edge_v2x/risk.py:230-241 | the edge evaluator clamps the same way: the slope at the clamped time is zero inside the horizon, not falling at its start and not rising at its end |
| ClosestApproach.PairsCoverOnce | services/risk/engine.py:126-133 | every two actors are paired exactly once, in order |
| ClosestApproach.EvaluateAll | services/risk/engine.py:126-133 | the nested loop returns the conflicts of all those pairs in order |

## Left out

- Web routers, message brokers, databases, telemetry, simulators, device stubs, the dashboard: input and output over
  libraries that are not part of this model.
- Rounding of results, JSON encoding of states (taken as the identity), logging, metrics and listener errors.
- Interleaving of asynchronous calls: each call of the mesh manager is one atomic step, with handlers in process.
- Trigonometry, projections, headings, square roots and exponentials: functions with only the facts that are used
  (symmetry, triangle inequality, range, monotonicity, being a square root; for the great-circle distance the facts
  of the haversine and the cosine that `GreatCircle.Ok` lists).
- `heapq` and `sorted`: modelled by what they promise, a least element in front and a stable sort. In the search,
  ties between equally good heap items are broken arbitrarily.
- Mesh nodes and transports as separate objects: they are records in the manager's tables, and the reference of one
  transport to another is a registration under its id. `last_direct_contact`, link quality, closed transports and
  several handlers per transport are not modelled.
- The state a mesh removal leaves in the removed node itself, and risk activations returned by the pruning of other
  nodes, which the code does not emit either.
- Hazard objects shared between store, archive and index: one table of objects by id, to which the others refer.
- Entries that the store-and-forward manager returns while it keeps them: returned by id.
- Edge objects shared between a caller and the road graph; the map routines `path_to_geometry`, node and edge counts.
- MobilityGraph.MobilityGraphService.StateOf: does not describe hazard penalty, position quality, downstream
  congestion and confidence, one-line aggregates without history.
- Intersections and subscribers of the mobility graph; an unknown edge in `observe_hazard` raises an error there.
- Distances, quality and texts that the mesh reports for display; the emergency-braking check and conflict
  classification of the edge evaluator, which enter the mesh as an arbitrary pairwise evaluator.
- The detectors' association score and geometry other than points; the removal of long-expired records.
- Alert levels, titles and texts, computed from thresholds; they enter as the level of a risk. The per-tick update and
  resolution loop of `prioritize` before sorting, and the pruning of its suppression log.
- The remaining detectors, schema validators and lookup tables, which would only add easy members.
- AStar.Search: minimality is stated for a consistent estimate; for others it can fail
  (`FastDetour.SearchReturnsDearerRoute`).
- MeshViews.RecreateKeepsExactIff: on re-creation the code keeps the replaced node's transport registered under the
  same id, and that node alive; the model lets the new node take its place. Both callers rule the case out.
- MeshManager.EdgeV2XManager.CreateNode: requires an unknown id for the same reason.
- HazardIndex.QueriesAreExactAfterAnyRun: requires a covered surrounding, which `HazardIndex.QueriesAreExactIff` shows
  to be necessary.
- HazardFusion.MergesIntoBestOfAll: requires a covered surrounding, without which the grid can hide the best match.
- AlertStore.LimitHoldsOverRuns: requires lists right in the alerts given up, which `AlertStore.LimitHoldsIff` shows to
  be necessary, and actors named once, which `AlertStore.AlwaysCappedIff` does.
