# VRPT-SWTS route planning, modelled in Dafny

This project models the optimisation engine of a two-echelon waste-collection planner, the
Vehicle Routing Problem with Transfer Stations (VRPT-SWTS). The C# program solves it in two
stages.

1. **Collection routes.** Collection trucks leave the depot and visit collection areas, which
   have a demand and a processing time. When a truck is full they detour to a transfer station (TS)
   to unload, and they return to the depot within a work duration.
   - The routes are built by a greedy construction. Its next-area choice is either the nearest
     area (greedy) or a random pick among the k nearest (GRASP).
   - GRASP keeps the best of 21 constructions.
   - Five local-search operators improve the routes by best-improvement descent of the total
     collection time:
     - reinsertion within a route;
     - reinsertion between routes;
     - swap within a route;
     - swap between routes;
     - 2-opt segment reversal.
   - The operators are chained in a fixed order (sequential search) or drawn at random (RVND).
   - A multi-start driver repeats GRASP and the sequential search 21 times and keeps the fastest result.
2. **Transport routes.** Every unload at a transfer station becomes a transport task. Transport
   trucks based at the dumpsite serve these tasks in order of arrival, each task going to the
   cheapest truck that can still serve it.

## How the model is written

- **Nodes.** A node has an id, a position and a kind: depot, dumpsite, transfer station, or
  collection area carrying a demand and a processing time.
- **Distances and times.** The distance between nodes is an abstract real-valued `Metric`.
  Travel time is distance / speed * 60, as everywhere in the source. Symmetry and the triangle
  inequality are hypotheses of the lemmas that need them.
- **Values and objects.**
  - `CollectionRoute`, `Routes`, `TransportTask` and `TransportTruck` are datatypes. The source
    copies them or builds them anew for each candidate.
  - The instance, the resolver, each local-search object, the operator pool, RVND, the
    sequential search, GRASP and multi-start are classes. Their fields change in place, as in the source.
- **Randomness.** `System.Random` is replaced by a `RandomSource` object that reads an arbitrary
  stream of naturals (an oracle).
- **Loops.** Loops of the source are methods with loop invariants, proved against specification
  functions. Among them:
  - the construction;
  - task generation;
  - transport assignment;
  - the argmin scans;
  - the capacity scans;
  - the neighbour generators;
  - the descents.
- **The operators.** Each operator's move, time formula and clean-up are functions. A lemma
  proves that the formula's new time minus the old time equals the change in true route cost.
- **Soundness.** Every neighbour an operator stores is proved sound: its routes stay workable, it
  serves exactly the same areas, and the route times it records change exactly as the real cost does.
  - Workable routes run from depot to depot, with only areas and stations inside, and do not
    end with an area before the depot.
- **The drivers.**
  - Each descent returns its start or a strictly faster solution that serves the same areas.
  - GRASP keeps the lexicographically best construction.
  - Multi-start returns the first fastest of its 21 local minima, with a transport plan for it.
- **The transport plan.** Every truck's tasks start and end at the dumpsite and are in arrival
  order. When the tasks are servable at all, loads fit and time budgets hold. Every unload is
  served exactly once.

Source paths below are relative to the repository root. `Algorithms/…`, `Searchs/…`,
`InstanceManagement/…` and `Graph/…` live under `DyAA-p05-VRPT-SWTS-main/VrptSwts/`.

## Model

| member | source | states |
|---|---|---|
| Graph.MinutesAdd | DyAA-p05-VRPT-SWTS-main/VrptSwts/Algorithms/VrptSwtsResolver.cs:256-259 | Converting a sum of distances to minutes gives the sum of the per-leg minutes. The single conversion in GetSecureTime is therefore the time of its three legs. |
| Graph.TravelTime | DyAA-p05-VRPT-SWTS-main/VrptSwts/Algorithms/VrptSwtsResolver.cs:54 | A leg's travel time (distance / speed * 60) is never negative when distances are not. |
| Graph.TravelTimeSymmetric | DyAA-p05-VRPT-SWTS-main/VrptSwts/Graph/Node.cs:33-40 | With a symmetric (Euclidean) distance, going from a to b takes as long as going from b to a. |
| Graph.TravelTimeTriangle | DyAA-p05-VRPT-SWTS-main/VrptSwts/Graph/Node.cs:33-40 | Under the triangle inequality, a direct leg takes no longer than a detour through a third node. |
| Routing.TravelConcat | DyAA-p05-VRPT-SWTS-main/VrptSwts/Algorithms/VrptSwtsResolver.cs:98-99 | The travel time of a concatenation is that of its parts plus the connecting leg. |
| Routing.ProcessingConcat | DyAA-p05-VRPT-SWTS-main/VrptSwts/Algorithms/VrptSwtsResolver.cs:98-99 | Processing time adds up over a concatenation. |
| Routing.RouteCostAppend | DyAA-p05-VRPT-SWTS-main/VrptSwts/Algorithms/VrptSwtsResolver.cs:96-100 | Appending a node adds exactly the leg to it and its processing time to the route cost. This is how timeCount grows during construction. |
| Routing.TravelRemoveAt | DyAA-p05-VRPT-SWTS-main/VrptSwts/Searchs/LocalSearchs/ReinsertionInter.cs:141-153 | Removing an inner node changes travel by minus its two legs plus the bypass leg, and processing by minus its processing time. |
| Routing.TravelInsert | DyAA-p05-VRPT-SWTS-main/VrptSwts/Searchs/LocalSearchs/ReinsertionInter.cs:164-176 | Inserting a node at k changes travel by minus the broken leg plus the two new legs, and processing by plus its processing time. |
| Routing.TravelReplace | DyAA-p05-VRPT-SWTS-main/VrptSwts/Searchs/LocalSearchs/SwapInter.cs:145-159 | Replacing an inner node changes travel by its two old and two new legs, and processing by the difference of the two processing times. |
| Routing.TravelReversed | DyAA-p05-VRPT-SWTS-main/VrptSwts/Searchs/LocalSearchs/TwoOpt.cs:114 | With a symmetric distance, a reversed node sequence has the same travel and processing time. |
| Routing.TravelReverseRange | DyAA-p05-VRPT-SWTS-main/VrptSwts/Searchs/LocalSearchs/TwoOpt.cs:130-143 | With a symmetric distance, reversing positions lo..hi changes travel only through the two boundary legs, and processing not at all. |
| Routing.AreaNodesConcat | DyAA-p05-VRPT-SWTS-main/VrptSwts/Searchs/LocalSearchs/ReinsertionInter.cs:128-130 | The areas visited by a concatenation are those of its parts, in order. |
| Routing.AreasCount | DyAA-p05-VRPT-SWTS-main/VrptSwts/Searchs/LocalSearchs/ReinsertionInter.cs:128-130 | A route serves a node as many times as it visits it if the node is an area, and never otherwise. |
| Routing.AreasPermutation | DyAA-p05-VRPT-SWTS-main/VrptSwts/Searchs/LocalSearchs/SwapIntra.cs:107-110 | Two routes holding the same nodes serve the same areas. |
| Routing.AreasRemoveNonArea | DyAA-p05-VRPT-SWTS-main/VrptSwts/Searchs/LocalSearchs/ReinsertionIntra.cs:150-173 | Deleting a station or depot visit keeps the areas served. |
| Routing.AreasRemoveArea | DyAA-p05-VRPT-SWTS-main/VrptSwts/Searchs/LocalSearchs/ReinsertionInter.cs:129 | Removing an area visit removes exactly that area from those served. |
| Routing.AreasInsertArea | DyAA-p05-VRPT-SWTS-main/VrptSwts/Searchs/LocalSearchs/ReinsertionInter.cs:130 | Inserting an area adds exactly that area to those served. |
| Routing.WasteAppend | DyAA-p05-VRPT-SWTS-main/VrptSwts/Algorithms/VrptSwtsResolver.cs:94-118 | The load carried since the last station drops to 0 at a station and otherwise grows by the appended node's demand. The recorded station positions gain the new index exactly for a station. |
| Routing.WastePrefix | DyAA-p05-VRPT-SWTS-main/VrptSwts/Algorithms/VrptSwtsResolver.cs:45-53 | The same law, stated for prefixes of a route, as task generation walks it. |
| Routing.AreaNodesAppend | DyAA-p05-VRPT-SWTS-main/VrptSwts/Algorithms/VrptSwtsResolver.cs:96 | Appending an area adds it to those served; appending anything else adds nothing. |
| Routing.CapacityRespectedAppend | DyAA-p05-VRPT-SWTS-main/VrptSwts/Algorithms/VrptSwtsResolver.cs:94-97 | Appending a node keeps every load within capacity, provided an appended area's load fits. |
| Lists.RemoveAt | DyAA-p05-VRPT-SWTS-main/VrptSwts/Searchs/LocalSearchs/ReinsertionIntra.cs:111 | List.RemoveAt: the list is one shorter, earlier elements are unchanged and later ones move down one place. |
| Lists.Insert | DyAA-p05-VRPT-SWTS-main/VrptSwts/Searchs/LocalSearchs/ReinsertionIntra.cs:112 | List.Insert: x sits at k, earlier elements are unchanged and later ones move up one place. |
| Lists.Reversed | DyAA-p05-VRPT-SWTS-main/VrptSwts/Searchs/LocalSearchs/TwoOpt.cs:114 | The reversal has the same length, with element i taken from the mirrored position. |
| Lists.ReverseRangesMultiset | DyAA-p05-VRPT-SWTS-main/VrptSwts/Searchs/LocalSearchs/TwoOpt.cs:114 | List.Reverse(index, count) keeps the elements of the list: every range reversal is a permutation. |
| TwoOpt.ReversalPermutes | DyAA-p05-VRPT-SWTS-main/VrptSwts/Searchs/LocalSearchs/TwoOpt.cs:114 | The reversal keeps both ends and the route's nodes. |
| Lists.ReverseRangeAt | DyAA-p05-VRPT-SWTS-main/VrptSwts/Searchs/LocalSearchs/TwoOpt.cs:114 | List.Reverse(index, count) leaves every position outside the range unchanged and mirrors the positions inside it. |
| Lists.RemoveAtMultiset | DyAA-p05-VRPT-SWTS-main/VrptSwts/InstanceManagement/LocalSearchesList.cs:45 | RemoveAt removes exactly the element at k. |
| Lists.InsertMultiset | DyAA-p05-VRPT-SWTS-main/VrptSwts/Searchs/LocalSearchs/ReinsertionInter.cs:130 | Insert adds exactly x. |
| Lists.SwapMultiset | DyAA-p05-VRPT-SWTS-main/VrptSwts/Searchs/LocalSearchs/SwapIntra.cs:107-110 | Exchanging two elements keeps the elements. |
| Lists.ReversedMultiset | DyAA-p05-VRPT-SWTS-main/VrptSwts/Searchs/LocalSearchs/TwoOpt.cs:114 | Reversal keeps the elements. |
| TransportPlanning.SortByArrival | DyAA-p05-VRPT-SWTS-main/VrptSwts/Algorithms/VrptSwtsResolver.cs:154 | OrderBy(ArrivalTime): the result is sorted by arrival time and is a permutation of the tasks. |
| TransportPlanning.SortStep | DyAA-p05-VRPT-SWTS-main/VrptSwts/Algorithms/VrptSwtsResolver.cs:154 | Inserting the last task into the sorted rest at its arrival slot gives a sorted permutation of all the tasks. |
| TransportPlanning.InsertInArrivalOrder | DyAA-p05-VRPT-SWTS-main/VrptSwts/Algorithms/VrptSwtsResolver.cs:154 | Inserting a task at its arrival slot keeps the list sorted and adds exactly that task. |
| TransportPlanning.InsertStable | DyAA-p05-VRPT-SWTS-main/VrptSwts/Algorithms/VrptSwtsResolver.cs:154 | Inserting a task at its arrival slot places it after every task with the same arrival time; the tasks with any one arrival time keep their order. |
| TransportPlanning.SortByArrivalStable | DyAA-p05-VRPT-SWTS-main/VrptSwts/Algorithms/VrptSwtsResolver.cs:154 | OrderBy is stable: for every arrival time, the sorted list holds the tasks with that time in their original order. |
| TransportPlanning.MinimumWaste | DyAA-p05-VRPT-SWTS-main/VrptSwts/Algorithms/VrptSwtsResolver.cs:158 | The minimum unloaded quantity is at most every task's quantity and is the quantity of some task. It is defined only for a non-empty list, the case where Min throws. |
| TransportPlanning.CalculateTransportCost | DyAA-p05-VRPT-SWTS-main/VrptSwts/Algorithms/VrptSwtsResolver.cs:227-245 | The cost is finite exactly when all three conditions hold: the truck can drive from its last station in the arrival gap; it has the capacity; and it keeps time for the gap plus the trip to the dumpsite. The finite cost is the travel time plus the gap. |
| TransportPlanning.BestTransportTruck | DyAA-p05-VRPT-SWTS-main/VrptSwts/Algorithms/VrptSwtsResolver.cs:208-222 | There is no truck exactly when every cost is infinite. Otherwise the truck chosen has the least finite cost and is the first one with it. |
| TransportPlanning.AssignTask | DyAA-p05-VRPT-SWTS-main/VrptSwts/Algorithms/VrptSwtsResolver.cs:161-189 | A new truck starting [dumpsite, task] is added exactly when no truck can serve it. Otherwise the first cheapest truck serves it, and it returns to the dumpsite when its capacity drops below the minimum quantity. No other truck changes. |
| TransportPlanning.CloseTransportRoutes | DyAA-p05-VRPT-SWTS-main/VrptSwts/Algorithms/VrptSwtsResolver.cs:191-201 | Every truck is closed: a final dumpsite task is added unless it already ends there, the remaining time is updated, and TimeWorked = WorkDuration − RemainingTime. |
| TransportInvariants.OpenTruckInvariant | DyAA-p05-VRPT-SWTS-main/VrptSwts/Algorithms/VrptSwtsResolver.cs:164-172 | A new truck starts at the dumpsite and serves its first task. For servable tasks its capacity and load agree, loads fit, and it keeps the time to get back. |
| TransportInvariants.OpenTruckOpenBy | DyAA-p05-VRPT-SWTS-main/VrptSwts/Algorithms/VrptSwtsResolver.cs:164-172 | A vehicle opened for an unload is open, and has arrived, by that unload's arrival time. |
| TransportInvariants.OpenByLater | DyAA-p05-VRPT-SWTS-main/VrptSwts/Algorithms/VrptSwtsResolver.cs:159-172 | A vehicle open by some time is open by every later time, so the next unload, which arrives no earlier, finds it open. |
| TransportInvariants.ServeInvariant | DyAA-p05-VRPT-SWTS-main/VrptSwts/Algorithms/VrptSwtsResolver.cs:173-189 | Serving a task the truck can serve keeps the open-truck invariant: served tasks stay in arrival order, and loads and time reserve hold. That task is added to those served. |
| TransportInvariants.ServeServed | DyAA-p05-VRPT-SWTS-main/VrptSwts/Algorithms/VrptSwtsResolver.cs:175-187 | Serving adds exactly that task to the stations served, whether or not a dumpsite trip follows. |
| TransportInvariants.CloseInvariant | DyAA-p05-VRPT-SWTS-main/VrptSwts/Algorithms/VrptSwtsResolver.cs:191-201 | A closed truck starts and ends at the dumpsite and serves the same tasks, in order. TimeWorked = WorkDuration − RemainingTime. For servable tasks, loads fit and the remaining time is not negative. |
| TransportInvariants.LoadsFitAppend | DyAA-p05-VRPT-SWTS-main/VrptSwts/Algorithms/VrptSwtsResolver.cs:175-188 | A task whose load since the last dumpsite visit fits keeps every load within capacity. |
| TransportInvariants.SortedAppend | DyAA-p05-VRPT-SWTS-main/VrptSwts/Algorithms/VrptSwtsResolver.cs:159-162 | A task arriving no earlier than those served keeps them in arrival order. |
| TransportInvariants.ServedMultisetUpdate | DyAA-p05-VRPT-SWTS-main/VrptSwts/Algorithms/VrptSwtsResolver.cs:179 | Adding one task to one truck adds exactly that task to all the tasks served. |
| TransportInvariants.ServedMultisetMiddle | DyAA-p05-VRPT-SWTS-main/VrptSwts/Algorithms/VrptSwtsResolver.cs:179 | The tasks served by a fleet are those served before, by and after any one vehicle. |
| TransportInvariants.ServeServedMultiset | DyAA-p05-VRPT-SWTS-main/VrptSwts/Algorithms/VrptSwtsResolver.cs:173-189 | After a truck serves the next task, the trucks together serve every task assigned so far, each once. |
| TransportInvariants.AssignOpen | DyAA-p05-VRPT-SWTS-main/VrptSwts/Algorithms/VrptSwtsResolver.cs:164-172 | Opening a truck for the next task keeps the loop invariant: every truck is open and has arrived by the arrival time of that task; the tasks served are the tasks done; there are no more trucks than tasks. |
| TransportInvariants.AssignServe | DyAA-p05-VRPT-SWTS-main/VrptSwts/Algorithms/VrptSwtsResolver.cs:173-189 | Letting a truck that can serve it serve the next task keeps the same loop invariant. |
| TransportInvariants.AssignStep | DyAA-p05-VRPT-SWTS-main/VrptSwts/Algorithms/VrptSwtsResolver.cs:161-189 | Whatever AssignTask returns, the loop invariant holds with one more task done. |
| TransportInvariants.ClosePlan | DyAA-p05-VRPT-SWTS-main/VrptSwts/Algorithms/VrptSwtsResolver.cs:191-202 | Closing every truck after all tasks are assigned gives a transport plan: there are at least one truck and no more trucks than tasks; every truck is closed and in order; when the tasks are servable, loads fit and time holds; every station task is served exactly once. |
| TransportAssignment.AssignNext | DyAA-p05-VRPT-SWTS-main/VrptSwts/Algorithms/VrptSwtsResolver.cs:161-189 | One loop step assigns the next task and keeps the loop invariant. |
| TransportAssignment.AssignAll | DyAA-p05-VRPT-SWTS-main/VrptSwts/Algorithms/VrptSwtsResolver.cs:159-190 | Assigning the sorted tasks one by one, in order, leaves every task served exactly once. All trucks are open and consistent. |
| TransportAssignment.PlanTransport | DyAA-p05-VRPT-SWTS-main/VrptSwts/Algorithms/VrptSwtsResolver.cs:152-203 | BuildTransportRoutes fails exactly when there is no task, the case where Min throws. Otherwise it returns a transport plan for the tasks. |
| Solutions.GetCollectionTime | DyAA-p05-VRPT-SWTS-main/VrptSwts/InstanceManagement/Routes.cs:63-69 | The loop returns the sum of RouteTime over the collection routes. |
| Solutions.GetTransportTime | DyAA-p05-VRPT-SWTS-main/VrptSwts/InstanceManagement/Routes.cs:92-98 | The loop returns the sum of TimeWorked over the transport trucks. |
| Solutions.CollectionTimeConcat | DyAA-p05-VRPT-SWTS-main/VrptSwts/InstanceManagement/Routes.cs:63-69 | The collection time of two route lists together is the sum of theirs. |
| Solutions.CollectionTimeRemoveAt | DyAA-p05-VRPT-SWTS-main/VrptSwts/Searchs/LocalSearchs/ReinsertionIntra.cs:70 | Removing route k lowers the collection time by exactly its RouteTime. |
| Solutions.CollectionTimeAppend | DyAA-p05-VRPT-SWTS-main/VrptSwts/Searchs/LocalSearchs/ReinsertionIntra.cs:71 | Appending a route raises the collection time by exactly its RouteTime. |
| Solutions.RoutesAreasConcat | DyAA-p05-VRPT-SWTS-main/VrptSwts/Searchs/LocalSearchs/ReinsertionInter.cs:82-84 | The areas served by two route lists together are the union of theirs. |
| Solutions.RoutesAreasRemoveAt | DyAA-p05-VRPT-SWTS-main/VrptSwts/Searchs/LocalSearchs/ReinsertionIntra.cs:70 | Removing route k removes exactly its areas. |
| Solutions.RoutesAreasAppend | DyAA-p05-VRPT-SWTS-main/VrptSwts/Searchs/LocalSearchs/ReinsertionIntra.cs:71 | Appending a route adds exactly its areas. |
| SubRoutes.SubRouteStart | DyAA-p05-VRPT-SWTS-main/VrptSwts/Searchs/LocalSearchs/LocalSearch.cs:72-77 | The start of the sub-route holding position p is the last non-area position at or before p. Every position after it up to p is an area. |
| SubRoutes.RunEnd | DyAA-p05-VRPT-SWTS-main/VrptSwts/Searchs/LocalSearchs/LocalSearch.cs:56-62 | The run of areas from i ends at the first non-area position, or at the end of the route. |
| SubRoutes.GetStartSubRouteIndex | DyAA-p05-VRPT-SWTS-main/VrptSwts/Searchs/LocalSearchs/LocalSearch.cs:72-77 | The backwards scan returns the sub-route start of the position. |
| SubRoutes.IsFactibleCapacity | DyAA-p05-VRPT-SWTS-main/VrptSwts/Searchs/LocalSearchs/LocalSearch.cs:52-64 | True exactly when the demand of the run of areas after the sub-route start fits the capacity. |
| SubRoutes.RouteWithinCapacity | DyAA-p05-VRPT-SWTS-main/VrptSwts/Searchs/LocalSearchs/LocalSearch.cs:52-64 | The same check repeated for every area: true exactly when every load in the route fits the capacity. |
| SubRoutes.CapacityBySubRoutes | DyAA-p05-VRPT-SWTS-main/VrptSwts/Searchs/LocalSearchs/LocalSearch.cs:52-64 | For a depot-to-depot route, every load fits exactly when every sub-route's demand fits. |
| SubRoutes.WasteIsLoad | DyAA-p05-VRPT-SWTS-main/VrptSwts/Searchs/LocalSearchs/LocalSearch.cs:56-62 | The load carried at a position within a sub-route is the demand summed from the sub-route's start. |
| Neighbourhoods.SearchRouteEndsAtStops | DyAA-p05-VRPT-SWTS-main/VrptSwts/Searchs/LocalSearchs/LocalSearch.cs:72-77 | A workable route starts and ends at non-areas, so every sub-route scan has a start and an end. |
| Neighbourhoods.PermutedSearchRoute | DyAA-p05-VRPT-SWTS-main/VrptSwts/Searchs/LocalSearchs/TwoOpt.cs:116-117 | A rearrangement of a workable route that keeps both ends, and has no area just before the depot, is workable and serves the same areas. |
| Neighbourhoods.ReplaceRoute | DyAA-p05-VRPT-SWTS-main/VrptSwts/Searchs/LocalSearchs/ReinsertionIntra.cs:70-71 | Removing route k and appending its replacement keeps the number of routes. |
| Neighbourhoods.ReplaceRouteSound | DyAA-p05-VRPT-SWTS-main/VrptSwts/Searchs/LocalSearchs/ReinsertionIntra.cs:70-72 | The result is workable and serves the same areas. Its collection time changes by exactly the new route's time minus the old one's. |
| Neighbourhoods.RecordedSound | DyAA-p05-VRPT-SWTS-main/VrptSwts/Searchs/LocalSearchs/ReinsertionIntra.cs:68-73 | Storing a one-route neighbour when there is one gives only sound neighbours. A sound neighbour is workable, serves the same areas and has no transport plan. |
| Neighbourhoods.ReplacePair | DyAA-p05-VRPT-SWTS-main/VrptSwts/Searchs/LocalSearchs/SwapInter.cs:76-82 | Removing two routes and appending the new ones changes the number of routes by |new| − 2. |
| Neighbourhoods.ReplacePairSound | DyAA-p05-VRPT-SWTS-main/VrptSwts/Searchs/LocalSearchs/ReinsertionInter.cs:78-85 | If the new routes serve the two old routes' areas, the result is workable and serves the same areas. Its collection time changes by the new times minus the two old times. |
| Neighbourhoods.TwoRoutes | DyAA-p05-VRPT-SWTS-main/VrptSwts/Searchs/LocalSearchs/SwapInter.cs:80-81 | A pair of routes serves the union of their areas and is workable when both are. |
| Neighbourhoods.DropStopSound | DyAA-p05-VRPT-SWTS-main/VrptSwts/Searchs/LocalSearchs/TwoOpt.cs:159-170 | Deleting a station visit next to another non-area keeps the areas and keeps the route workable. The bypass time change equals the true cost change, and under the triangle inequality time never grows. |
| Neighbourhoods.DropStopCapacity | DyAA-p05-VRPT-SWTS-main/VrptSwts/Searchs/LocalSearchs/TwoOpt.cs:159-170 | Deleting such a visit keeps every load within capacity. |
| Randomness.NextInRange | DyAA-p05-VRPT-SWTS-main/VrptSwts/InstanceManagement/LocalSearchesList.cs:43 | Random.Next(max): 0 when max = 0, otherwise below max. |
| Randomness.RandomSource.Draw | DyAA-p05-VRPT-SWTS-main/VrptSwts/Algorithms/VrptSwtsGrasp.cs:98-99 | Each draw returns the next value of the stream and advances by one. |
| Instance.VrptSwtsInstance.constructor | DyAA-p05-VRPT-SWTS-main/VrptSwts/InstanceManagement/VrptSwtsInstance.cs:67-78 | Every argument is stored in its field. |
| Instance.VrptSwtsInstance.Clone | DyAA-p05-VRPT-SWTS-main/VrptSwts/InstanceManagement/VrptSwtsInstance.cs:84-95 | A fresh instance with equal fields. Its area and station lists are values, so changing the clone's lists leaves the original's unchanged. |
| Greedy.GetClosestNeighbour | DyAA-p05-VRPT-SWTS-main/VrptSwts/Algorithms/VrptSwtsGreedy.cs:48-65 | For a non-empty list: the returned node is the one at the returned index; its distance is the true distance and no greater than any candidate's; every earlier candidate is strictly farther (the first minimum wins). |
| GraspSelection.Candidates | DyAA-p05-VRPT-SWTS-main/VrptSwts/Algorithms/VrptSwtsGrasp.cs:90-96 | One candidate (node, distance, index) per neighbour. |
| GraspSelection.SortByDistance | DyAA-p05-VRPT-SWTS-main/VrptSwts/Algorithms/VrptSwtsGrasp.cs:97 | Array.Sort in place: the array ends sorted by distance and is a permutation of what it held. |
| GraspSelection.InsertIntoSorted | DyAA-p05-VRPT-SWTS-main/VrptSwts/Algorithms/VrptSwtsGrasp.cs:97 | Inserting a[i] into the sorted prefix extends the sorted prefix by one and permutes the array. |
| GraspSelection.SwapNeighbours | DyAA-p05-VRPT-SWTS-main/VrptSwts/Algorithms/VrptSwtsGrasp.cs:97 | Exchanges a[k] and a[k+1] and changes nothing else. |
| GraspSelection.GetClosestNeighbour | DyAA-p05-VRPT-SWTS-main/VrptSwts/Algorithms/VrptSwtsGrasp.cs:86-101 | The chosen candidate is the neighbour at its own original index, with the true distance. It sits at rank NextInRange(draw, min(count, window)) in distance order: fewer candidates than that rank are strictly closer, and more are within its distance. It is therefore among the window closest. |
| GraspSelection.RankInSorted | DyAA-p05-VRPT-SWTS-main/VrptSwts/Algorithms/VrptSwtsGrasp.cs:97-100 | In distance order, the candidate at rank r has at most r strictly closer candidates and at least r+1 within its distance. |
| GraspSelection.CountPermutation | DyAA-p05-VRPT-SWTS-main/VrptSwts/Algorithms/VrptSwtsGrasp.cs:97 | Sorting does not change how many candidates are closer than, or within, a distance. The rank guarantee therefore refers to the unsorted list. |
| Resolver.SecureTimeIsLookAhead | DyAA-p05-VRPT-SWTS-main/VrptSwts/Algorithms/VrptSwtsResolver.cs:250-260 | The secure time is the cost of the look-ahead path current → area → station → depot, counting only the area's processing. |
| Resolver.FeasibleRemoveAt | DyAA-p05-VRPT-SWTS-main/VrptSwts/Algorithms/VrptSwtsResolver.cs:101 | Taking an area out of the remaining list keeps the construction's precondition and removes exactly that area. |
| Resolver.FeasibleFromDepot | DyAA-p05-VRPT-SWTS-main/VrptSwts/Algorithms/VrptSwtsResolver.cs:94 | Under the precondition, any remaining area fits an empty truck and is reachable from the depot within the work duration. The first area of each route is therefore always taken. |
| Resolver.TaskGenerationStep | DyAA-p05-VRPT-SWTS-main/VrptSwts/Algorithms/VrptSwtsResolver.cs:41-55 | One step of the generation loop: a station emits (load since last station, station, time so far). The load then resets at a station and grows at an area, and the time grows by the processing time and the next leg. |
| Resolver.TasksAppend | DyAA-p05-VRPT-SWTS-main/VrptSwts/Algorithms/VrptSwtsResolver.cs:45-48 | Generating tasks over a route one node longer adds a task exactly when the new node is a station. |
| Resolver.ElapsedStep | DyAA-p05-VRPT-SWTS-main/VrptSwts/Algorithms/VrptSwtsResolver.cs:51-54 | With non-negative distances and processing times, the running time counter never decreases from one node to the next. |
| Resolver.TasksUpToOrdered | DyAA-p05-VRPT-SWTS-main/VrptSwts/Algorithms/VrptSwtsResolver.cs:41-55 | Every task recorded over the first n nodes arrives no later than the counter at node n, and those tasks are in non-decreasing arrival order. |
| Resolver.RouteTasksOrdered | DyAA-p05-VRPT-SWTS-main/VrptSwts/Algorithms/VrptSwtsResolver.cs:41-55 | With non-negative distances and processing times, a route's tasks come out in non-decreasing arrival time. |
| Resolver.TasksCarryWaste | DyAA-p05-VRPT-SWTS-main/VrptSwts/Algorithms/VrptSwtsResolver.cs:41-55 | At every point of a route, the waste unloaded so far plus the waste on board equals the demand collected. |
| Resolver.RouteTasksDeliverAllWaste | DyAA-p05-VRPT-SWTS-main/VrptSwts/Algorithms/VrptSwtsResolver.cs:37-56 | For a route that returns through a station, the tasks unload exactly the route's total demand. |
| Resolver.TasksAtStations | DyAA-p05-VRPT-SWTS-main/VrptSwts/Algorithms/VrptSwtsResolver.cs:45-48 | The generated tasks are one per station position, in order, each as UnloadAt computes it there. |
| Resolver.RoutesTasksAppend | DyAA-p05-VRPT-SWTS-main/VrptSwts/Algorithms/VrptSwtsResolver.cs:37 | The tasks of a route list are the concatenation of each route's tasks, in route order. |
| Resolver.BuildingStart | DyAA-p05-VRPT-SWTS-main/VrptSwts/Algorithms/VrptSwtsResolver.cs:80-86 | A fresh draft [depot] with a full truck and zero time satisfies the construction invariant and serves no area. |
| Resolver.BuildingArea | DyAA-p05-VRPT-SWTS-main/VrptSwts/Algorithms/VrptSwtsResolver.cs:94-103 | Taking an area that fits keeps the construction invariant and adds exactly that area. The invariant says the route starts at the depot, loads fit, the remaining capacity and timeCount are those of the route, and the recorded unloads sit at the recorded station positions. |
| Resolver.TakeArea | DyAA-p05-VRPT-SWTS-main/VrptSwts/Algorithms/VrptSwtsResolver.cs:94-103 | Taking the chosen area keeps the invariant and the precondition. Every area is either still remaining or in the route, and the route now serves an area. |
| Resolver.StationUnloadAt | DyAA-p05-VRPT-SWTS-main/VrptSwts/Algorithms/VrptSwtsResolver.cs:112-115 | The unload recorded at a detour is the quantity Capacity − remaining capacity, at timeCount. It equals the transport task that generation later computes at that station. |
| Resolver.BuildingStation | DyAA-p05-VRPT-SWTS-main/VrptSwts/Algorithms/VrptSwtsResolver.cs:106-119 | A detour to a station keeps the construction invariant, records one more unload and keeps the areas. |
| Resolver.BuildingClose | DyAA-p05-VRPT-SWTS-main/VrptSwts/Algorithms/VrptSwtsResolver.cs:126-144 | Closing a draft that ends at a station gives a constructed route with the draft's areas, whose cost is timeCount plus the leg to the depot. Generation over it yields exactly the unloads recorded while building. |
| Resolver.CloseTasks | DyAA-p05-VRPT-SWTS-main/VrptSwts/Algorithms/VrptSwtsResolver.cs:41-49 | Appending the depot adds no task, so generation reproduces the unloads recorded at the stations. |
| Resolver.StationBeforeReturnUnloads | DyAA-p05-VRPT-SWTS-main/VrptSwts/Algorithms/VrptSwtsResolver.cs:45-47 | A route whose next-to-last node is a station yields at least one task. |
| Resolver.NoTasksIffNoAreas | DyAA-p05-VRPT-SWTS-main/VrptSwts/Algorithms/VrptSwtsResolver.cs:152-158 | For constructed routes, there are no transport tasks exactly when no area is served. |
| Resolver.VrptSwtsResolver.constructor | DyAA-p05-VRPT-SWTS-main/VrptSwts/Algorithms/VrptSwtsResolver.cs:24-27 | Stores the instance alongside the selection strategy, and starts with no transport task. |
| Resolver.VrptSwtsResolver.GetClosestNeighbour | DyAA-p05-VRPT-SWTS-main/VrptSwts/Algorithms/VrptSwtsResolver.cs:266-267 | Dispatches on the strategy. The first nearest neighbour for greedy; for GRASP, a neighbour with fewer than min(count, window) strictly closer ones. Either way it is the node at the returned index, with the true distance. |
| Resolver.VrptSwtsResolver.GetSecureTime | DyAA-p05-VRPT-SWTS-main/VrptSwts/Algorithms/VrptSwtsResolver.cs:250-260 | The look-ahead time through a transfer station the strategy selects as the area's nearest: the legs to the area, to the station and to the depot, plus the area's processing. |
| Resolver.VrptSwtsResolver.NextCandidate | DyAA-p05-VRPT-SWTS-main/VrptSwts/Algorithms/VrptSwtsResolver.cs:89-91 | The chosen area is the remaining one at the returned index, with its true distance. It fits an empty truck, and from the depot its secure time is within the work duration. |
| Resolver.VrptSwtsResolver.DetourToStation | DyAA-p05-VRPT-SWTS-main/VrptSwts/Algorithms/VrptSwtsResolver.cs:106-119 | Appends the chosen station, records its unload, resets to full capacity and keeps the construction invariant and the areas. |
| Resolver.VrptSwtsResolver.ExtendCollectionRoute | DyAA-p05-VRPT-SWTS-main/VrptSwts/Algorithms/VrptSwtsResolver.cs:87-125 | The inner loop keeps the construction invariant. Every area is either still remaining or in the current route, and the route serves at least one area. |
| Resolver.VrptSwtsResolver.CloseCollectionRoute | DyAA-p05-VRPT-SWTS-main/VrptSwts/Algorithms/VrptSwtsResolver.cs:126-144 | Produces a constructed route with the draft's areas, and its tasks are those generation computes. Its RouteTime is the route cost, less the last leg exactly when construction stopped at a station. |
| Resolver.VrptSwtsResolver.BuildCollectionRoute | DyAA-p05-VRPT-SWTS-main/VrptSwts/Algorithms/VrptSwtsResolver.cs:80-144 | One route: its areas leave the remaining list and the precondition still holds. The route is constructed and its recorded tasks equal the generated ones. |
| Resolver.VrptSwtsResolver.ConstructRoutes | DyAA-p05-VRPT-SWTS-main/VrptSwts/Algorithms/VrptSwtsResolver.cs:78-145 | The outer loop serves every area exactly once, in at most one route per area. Every route is as built, and the recorded tasks are those of the routes. |
| Resolver.VrptSwtsResolver.BuildCollectionRoutes | DyAA-p05-VRPT-SWTS-main/VrptSwts/Algorithms/VrptSwtsResolver.cs:75-147 | Consumes the instance's area list. The routes serve its areas exactly once, are at most as many as the areas, and are depot-to-depot and capacity-feasible. Each route's RouteTime is as above, and the generated tasks are appended to the transport tasks. |
| Resolver.VrptSwtsResolver.RouteTransportTasks | DyAA-p05-VRPT-SWTS-main/VrptSwts/Algorithms/VrptSwtsResolver.cs:39-55 | The per-route loop yields the route's tasks. |
| Resolver.VrptSwtsResolver.GenerateTransportTasks | DyAA-p05-VRPT-SWTS-main/VrptSwts/Algorithms/VrptSwtsResolver.cs:33-59 | Returns the tasks of all routes in order and replaces the recorded tasks with them. |
| Resolver.VrptSwtsResolver.BuildTransportRoutes | DyAA-p05-VRPT-SWTS-main/VrptSwts/Algorithms/VrptSwtsResolver.cs:152-203 | Fails exactly when there is no task; otherwise returns a transport plan for the recorded tasks. |
| Resolver.VrptSwtsResolver.BuildRoutes | DyAA-p05-VRPT-SWTS-main/VrptSwts/Algorithms/VrptSwtsResolver.cs:64-69 | Construction then transport. It fails only with no area and no earlier task. Otherwise the routes serve every area and the plan serves the recorded tasks. |
| ReinsertionIntra.Move | DyAA-p05-VRPT-SWTS-main/VrptSwts/Searchs/LocalSearchs/ReinsertionIntra.cs:110-112 | RemoveAt then Insert leaves the moved node at the insertion position and keeps the length. |
| ReinsertionIntra.MovePermutes | DyAA-p05-VRPT-SWTS-main/VrptSwts/Searchs/LocalSearchs/ReinsertionIntra.cs:110-112 | The move keeps the route's nodes. |
| ReinsertionIntra.MoveKeepsEnds | DyAA-p05-VRPT-SWTS-main/VrptSwts/Searchs/LocalSearchs/ReinsertionIntra.cs:60-65 | For the positions scanned (1..len−3), the move keeps the depot ends and the node before the final depot. |
| ReinsertionIntra.MoveSound | DyAA-p05-VRPT-SWTS-main/VrptSwts/Searchs/LocalSearchs/ReinsertionIntra.cs:110-112 | The moved route is workable and serves the same areas. |
| ReinsertionIntra.NewRouteTimeExact | DyAA-p05-VRPT-SWTS-main/VrptSwts/Searchs/LocalSearchs/ReinsertionIntra.cs:124-141 | The closed-form time, including its shifted insertion index for moves towards the front, changes the route time by exactly the change in route cost. |
| ReinsertionIntra.RemoveUnnecessaryNodesSound | DyAA-p05-VRPT-SWTS-main/VrptSwts/Searchs/LocalSearchs/ReinsertionIntra.cs:150-173 | The clean-up removes nothing, or exactly one non-area next to another non-area. It keeps the areas and workability; its time change equals the cost change and never grows under the triangle inequality. |
| ReinsertionIntra.IsFactibleRoute | DyAA-p05-VRPT-SWTS-main/VrptSwts/Searchs/LocalSearchs/ReinsertionIntra.cs:104-114 | The move is made only when the new time is within the work duration. The result is true exactly when the time fits and the capacity check of the sub-route at the insertion position passes. |
| ReinsertionIntra.BuildNeighbour | DyAA-p05-VRPT-SWTS-main/VrptSwts/Searchs/LocalSearchs/ReinsertionIntra.cs:85-94 | Returns exactly the specified neighbour: none if infeasible, otherwise the moved and cleaned route with its computed time. |
| ReinsertionIntra.NeighbourSound | DyAA-p05-VRPT-SWTS-main/VrptSwts/Searchs/LocalSearchs/ReinsertionIntra.cs:85-94 | A built neighbour is workable and serves the same areas. Its recorded time changes exactly as its cost does, and under the triangle inequality it is within the work duration. |
| ReinsertionIntra.TryPosition | DyAA-p05-VRPT-SWTS-main/VrptSwts/Searchs/LocalSearchs/ReinsertionIntra.cs:65-73 | One pass of the inner loop records nothing for the node's own position, and otherwise the neighbour of the move when it is feasible; what it records is sound. |
| ReinsertionIntra.TryPositions | DyAA-p05-VRPT-SWTS-main/VrptSwts/Searchs/LocalSearchs/ReinsertionIntra.cs:63-74 | The inner loop over insertion positions stores exactly what is recorded for each position, in position order, skipping the node's own position; every stored neighbour is sound. |
| ReinsertionIntra.GenerateNeighbours | DyAA-p05-VRPT-SWTS-main/VrptSwts/Searchs/LocalSearchs/ReinsertionIntra.cs:58-76 | The scan of one route stores exactly what is recorded for its nodes other than transfer stations, in node order; every neighbour is sound. |
| ReinsertionIntra.GenerateAllNeighbours | DyAA-p05-VRPT-SWTS-main/VrptSwts/Searchs/LocalSearchs/ReinsertionIntra.cs:41-42 | The scan over all routes stores exactly what is recorded for each route, in route order; every neighbour is sound. |
| ReinsertionIntra.NeighbourhoodComplete | DyAA-p05-VRPT-SWTS-main/VrptSwts/Searchs/LocalSearchs/ReinsertionIntra.cs:41-74 | The neighbourhood holds the solution of every feasible move of a node other than a transfer station to another inner position of its route. |
| ReinsertionInter.ChangingRouteTimeExact | DyAA-p05-VRPT-SWTS-main/VrptSwts/Searchs/LocalSearchs/ReinsertionInter.cs:141-153 | The first route's closed-form time (bypass legs and minus processing) changes by exactly the cost change of removing the node. |
| ReinsertionInter.InsertionRouteTimeExact | DyAA-p05-VRPT-SWTS-main/VrptSwts/Searchs/LocalSearchs/ReinsertionInter.cs:164-176 | The second route's closed-form time changes by exactly the cost change of inserting the node. |
| ReinsertionInter.RemoveUnnecessaryNodesSound | DyAA-p05-VRPT-SWTS-main/VrptSwts/Searchs/LocalSearchs/ReinsertionInter.cs:185-203 | The clean-up, which handles only a non-area predecessor, keeps the areas and workability. Its time change equals the cost change and never grows under the triangle inequality. |
| ReinsertionInter.TakeOutSound | DyAA-p05-VRPT-SWTS-main/VrptSwts/Searchs/LocalSearchs/ReinsertionInter.cs:129 | Taking a non-station node out of a workable route takes out exactly that area and keeps the route workable. |
| ReinsertionInter.PutInSound | DyAA-p05-VRPT-SWTS-main/VrptSwts/Searchs/LocalSearchs/ReinsertionInter.cs:130 | Putting an area in at 1..len−2 adds exactly that area and keeps the route workable. |
| ReinsertionInter.TransferSound | DyAA-p05-VRPT-SWTS-main/VrptSwts/Searchs/LocalSearchs/ReinsertionInter.cs:128-130 | After the transfer both routes are workable and together serve the same areas. |
| ReinsertionInter.IsFactibleRoute | DyAA-p05-VRPT-SWTS-main/VrptSwts/Searchs/LocalSearchs/ReinsertionInter.cs:120-132 | Computes both times. The lists are edited only when the receiving route's time fits. The result is true exactly when that time fits and the receiving sub-route's capacity check passes. The first route's time is not checked. |
| ReinsertionInter.BuildNeighbour | DyAA-p05-VRPT-SWTS-main/VrptSwts/Searchs/LocalSearchs/ReinsertionInter.cs:99-108 | Returns exactly the specified pair, or none when infeasible; only the first route is cleaned up. |
| ReinsertionInter.NeighbourSound | DyAA-p05-VRPT-SWTS-main/VrptSwts/Searchs/LocalSearchs/ReinsertionInter.cs:99-108 | Both new routes are workable and together serve the old pair's areas. Both recorded times change as the costs do, and the receiving route is within the work duration. |
| ReinsertionInter.ShortRouteEmpty | DyAA-p05-VRPT-SWTS-main/VrptSwts/Searchs/LocalSearchs/ReinsertionInter.cs:82-83 | A route of length ≤ 2 that is dropped serves no area, so dropping it loses nothing. |
| ReinsertionInter.ReplacementsSound | DyAA-p05-VRPT-SWTS-main/VrptSwts/Searchs/LocalSearchs/ReinsertionInter.cs:82-84 | The routes appended, the first only if longer than 2, are workable and serve both routes' areas. |
| ReinsertionInter.RecordedPairSound | DyAA-p05-VRPT-SWTS-main/VrptSwts/Searchs/LocalSearchs/ReinsertionInter.cs:78-85 | Storing the pair, with both old routes removed, gives only sound neighbours. |
| ReinsertionInter.NewSolution | DyAA-p05-VRPT-SWTS-main/VrptSwts/Searchs/LocalSearchs/ReinsertionInter.cs:78-85 | Builds the stored solution: the higher index, then the lower, removed, and the replacements appended. |
| ReinsertionInter.TryInsertions | DyAA-p05-VRPT-SWTS-main/VrptSwts/Searchs/LocalSearchs/ReinsertionInter.cs:72-87 | The loop over insertion positions of the other route stores exactly what is recorded for each, in order, and every stored neighbour is sound. |
| ReinsertionInter.PositionMovesCover | DyAA-p05-VRPT-SWTS-main/VrptSwts/Searchs/LocalSearchs/ReinsertionInter.cs:72-87 | Every feasible insertion of the node at the first position into the other route has its solution, with an emptied route dropped, among what that node's scan stores. |
| ReinsertionInter.GenerateNeighbours | DyAA-p05-VRPT-SWTS-main/VrptSwts/Searchs/LocalSearchs/ReinsertionInter.cs:67-89 | The scan of one ordered pair stores exactly what is recorded for the nodes of the first route other than transfer stations, in node order; every neighbour is sound. |
| ReinsertionInter.GenerateAllNeighbours | DyAA-p05-VRPT-SWTS-main/VrptSwts/Searchs/LocalSearchs/ReinsertionInter.cs:42-48 | The scan over all ordered pairs of distinct routes stores exactly what is recorded for each pair, first route outermost; every neighbour is sound. |
| ReinsertionInter.GeneratePartnerNeighbours | DyAA-p05-VRPT-SWTS-main/VrptSwts/Searchs/LocalSearchs/ReinsertionInter.cs:44-48 | The scan of one route against every other route stores exactly what is recorded for each pair, in partner order; every neighbour is sound. |
| ReinsertionInter.NeighbourhoodComplete | DyAA-p05-VRPT-SWTS-main/VrptSwts/Searchs/LocalSearchs/ReinsertionInter.cs:42-87 | The neighbourhood holds the solution of every feasible move of a node other than a transfer station from one route to any inner position of a different route. |
| SwapIntra.NewRouteTimeExact | DyAA-p05-VRPT-SWTS-main/VrptSwts/Searchs/LocalSearchs/SwapIntra.cs:125-157 | The closed-form time changes by exactly the cost change of the swap. The adjacent case, which counts the middle leg once in each direction, needs a symmetric distance. |
| SwapIntra.SwapSound | DyAA-p05-VRPT-SWTS-main/VrptSwts/Searchs/LocalSearchs/SwapIntra.cs:107-110 | Swapping two inner positions keeps the route workable with the same areas. |
| SwapIntra.IsFactibleRoute | DyAA-p05-VRPT-SWTS-main/VrptSwts/Searchs/LocalSearchs/SwapIntra.cs:101-115 | The swap is made only when the time fits. The result is true exactly when the time fits and both swapped positions' sub-routes pass the capacity check. |
| SwapIntra.BuildNeighbour | DyAA-p05-VRPT-SWTS-main/VrptSwts/Searchs/LocalSearchs/SwapIntra.cs:84-91 | Returns exactly the specified neighbour. |
| SwapIntra.NeighbourSound | DyAA-p05-VRPT-SWTS-main/VrptSwts/Searchs/LocalSearchs/SwapIntra.cs:84-91 | A built neighbour is workable, serves the same areas and is within the work duration. With a symmetric distance its recorded time changes as its cost does. |
| SwapIntra.TrySwaps | DyAA-p05-VRPT-SWTS-main/VrptSwts/Searchs/LocalSearchs/SwapIntra.cs:61-73 | The loop over later positions stores exactly what is recorded for each, in order, and every stored neighbour is sound. |
| SwapIntra.TrySwap | DyAA-p05-VRPT-SWTS-main/VrptSwts/Searchs/LocalSearchs/SwapIntra.cs:63-72 | One later position: nothing for a transfer station, otherwise the solution with the route replaced when the exchange is feasible; what it stores is sound. |
| SwapIntra.PositionMovesCover | DyAA-p05-VRPT-SWTS-main/VrptSwts/Searchs/LocalSearchs/SwapIntra.cs:61-73 | Every feasible exchange of the node at the first position with a later node that is not a transfer station has its solution among what that node's scan stores. |
| SwapIntra.GenerateNeighbours | DyAA-p05-VRPT-SWTS-main/VrptSwts/Searchs/LocalSearchs/SwapIntra.cs:56-75 | The scan of one route stores exactly what is recorded for its nodes other than transfer stations, in node order; every neighbour is sound. |
| SwapIntra.GenerateAllNeighbours | DyAA-p05-VRPT-SWTS-main/VrptSwts/Searchs/LocalSearchs/SwapIntra.cs:39-40 | The scan over all routes stores exactly what is recorded for each route, in route order; every neighbour is sound. |
| SwapIntra.NeighbourhoodComplete | DyAA-p05-VRPT-SWTS-main/VrptSwts/Searchs/LocalSearchs/SwapIntra.cs:39-73 | The neighbourhood holds the solution of every feasible exchange of two areas of one route, each pair taken once with the first before the second. |
| SwapInter.NewRouteTimeExact | DyAA-p05-VRPT-SWTS-main/VrptSwts/Searchs/LocalSearchs/SwapInter.cs:145-159 | Each route's closed-form time, which swaps one node's legs and processing for the other's, changes by exactly the cost change. |
| SwapInter.ReplaceAreaSound | DyAA-p05-VRPT-SWTS-main/VrptSwts/Searchs/LocalSearchs/SwapInter.cs:126-129 | Replacing an inner area by another keeps the route workable and exchanges exactly those two areas. |
| SwapInter.ExchangeSound | DyAA-p05-VRPT-SWTS-main/VrptSwts/Searchs/LocalSearchs/SwapInter.cs:126-129 | After the exchange both routes are workable and together serve the same areas. |
| SwapInter.IsFactibleRoute | DyAA-p05-VRPT-SWTS-main/VrptSwts/Searchs/LocalSearchs/SwapInter.cs:116-134 | The second time is computed only when the first fits. The result is true exactly when both times fit and both swapped positions' sub-routes pass the capacity check, and then the routes are exchanged. |
| SwapInter.BuildNeighbour | DyAA-p05-VRPT-SWTS-main/VrptSwts/Searchs/LocalSearchs/SwapInter.cs:96-104 | Returns exactly the specified pair. |
| SwapInter.NeighbourSound | DyAA-p05-VRPT-SWTS-main/VrptSwts/Searchs/LocalSearchs/SwapInter.cs:96-104 | Both new routes are workable, together serve the same areas and are within the work duration. Both recorded times change as the costs do. |
| SwapInter.RecordedPairSound | DyAA-p05-VRPT-SWTS-main/VrptSwts/Searchs/LocalSearchs/SwapInter.cs:76-82 | Storing the pair, with both old routes removed, gives only sound neighbours. |
| SwapInter.NewSolution | DyAA-p05-VRPT-SWTS-main/VrptSwts/Searchs/LocalSearchs/SwapInter.cs:76-82 | Builds the stored solution: both old routes removed, higher index first, and both new routes appended. |
| SwapInter.TryExchanges | DyAA-p05-VRPT-SWTS-main/VrptSwts/Searchs/LocalSearchs/SwapInter.cs:69-84 | The loop over the other route's positions stores exactly what is recorded for each, in order, and every stored neighbour is sound. |
| SwapInter.TryExchange | DyAA-p05-VRPT-SWTS-main/VrptSwts/Searchs/LocalSearchs/SwapInter.cs:71-83 | One position of the other route: nothing for a transfer station, otherwise the pair's solution when the exchange is feasible; what it stores is sound. |
| SwapInter.PositionMovesCover | DyAA-p05-VRPT-SWTS-main/VrptSwts/Searchs/LocalSearchs/SwapInter.cs:69-84 | Every feasible exchange of the node at the first position with a node of the other route that is not a transfer station has its solution among what that node's scan stores. |
| SwapInter.GenerateNeighbours | DyAA-p05-VRPT-SWTS-main/VrptSwts/Searchs/LocalSearchs/SwapInter.cs:64-86 | The scan of one pair stores exactly what is recorded for the nodes of the first route other than transfer stations, in node order; every neighbour is sound. |
| SwapInter.GenerateAllNeighbours | DyAA-p05-VRPT-SWTS-main/VrptSwts/Searchs/LocalSearchs/SwapInter.cs:40-46 | The scan over the pairs route1 < route2 stores exactly what is recorded for each pair, first route outermost; every neighbour is sound. |
| SwapInter.GeneratePartnerNeighbours | DyAA-p05-VRPT-SWTS-main/VrptSwts/Searchs/LocalSearchs/SwapInter.cs:44-47 | The scan of one route against every later route stores exactly what is recorded for each pair, in partner order; every neighbour is sound. |
| SwapInter.TryPartner | DyAA-p05-VRPT-SWTS-main/VrptSwts/Searchs/LocalSearchs/SwapInter.cs:42-44 | One more later partner route extends what the first route's scan has stored by that pair's scan, and keeps every stored neighbour sound. |
| SwapInter.NeighbourhoodComplete | DyAA-p05-VRPT-SWTS-main/VrptSwts/Searchs/LocalSearchs/SwapInter.cs:40-84 | The neighbourhood holds the solution of every feasible exchange of an area of one route with an area of a later route. |
| TwoOpt.Reversal | DyAA-p05-VRPT-SWTS-main/VrptSwts/Searchs/LocalSearchs/TwoOpt.cs:114 | Reversing positions lowerBound+1..upperBound keeps the length. |
| TwoOpt.ReversalSound | DyAA-p05-VRPT-SWTS-main/VrptSwts/Searchs/LocalSearchs/TwoOpt.cs:114-117 | The reversal keeps the areas. When no area lands just before the depot, it is workable. |
| TwoOpt.NewRouteTimeExact | DyAA-p05-VRPT-SWTS-main/VrptSwts/Searchs/LocalSearchs/TwoOpt.cs:130-143 | With a symmetric distance, the boundary-leg formula changes the time by exactly the cost change of the reversal. |
| TwoOpt.RemoveUnnecessaryNodesSound | DyAA-p05-VRPT-SWTS-main/VrptSwts/Searchs/LocalSearchs/TwoOpt.cs:152-173 | The corrected clean-up (it does nothing once bound+2 reaches the end) keeps the areas, workability and capacity. Its time change equals the cost change and never grows under the triangle inequality. |
| TwoOpt.CleanUpsSound | DyAA-p05-VRPT-SWTS-main/VrptSwts/Searchs/LocalSearchs/TwoOpt.cs:87-88 | Cleaning up at lowerBound and then at upperBound, corrected, keeps all the same properties. |
| TwoOpt.CleanUpsAsWrittenFail | DyAA-p05-VRPT-SWTS-main/VrptSwts/Searchs/LocalSearchs/TwoOpt.cs:87-88 | The source's two clean-ups read out of range exactly when the first removes a node and upperBound was Count−2 before that removal. Otherwise they agree with the corrected ones. |
| TwoOpt.SecondCleanUpOutOfRange | DyAA-p05-VRPT-SWTS-main/VrptSwts/Searchs/LocalSearchs/TwoOpt.cs:152-164 | A concrete workable route and move that the source's feasibility check accepts, after which the second clean-up reads route[Count]. |
| TwoOpt.IsFactibleRouteAsWritten | DyAA-p05-VRPT-SWTS-main/VrptSwts/Searchs/LocalSearchs/TwoOpt.cs:100-120 | The source's check: the time fits, no area lands just before the depot, and capacity is checked only in the sub-route at lowerBound+1. |
| TwoOpt.CheckAcceptedAsWritten | DyAA-p05-VRPT-SWTS-main/VrptSwts/Searchs/LocalSearchs/TwoOpt.cs:116-119 | After the time check, the source rejects a reversed route whose last but one node is an area, and otherwise answers the capacity check of the sub-route that holds lowerBound + 1 only. |
| TwoOpt.CapacityCheckTooNarrow | DyAA-p05-VRPT-SWTS-main/VrptSwts/Searchs/LocalSearchs/TwoOpt.cs:119 | A concrete feasible route and move that the source's check accepts, although the reversed route overloads another sub-route and the corrected check rejects it. |
| TwoOpt.NarrowExampleFits | DyAA-p05-VRPT-SWTS-main/VrptSwts/Searchs/LocalSearchs/TwoOpt.cs:119 | The example route is workable and within capacity before the move. |
| TwoOpt.IsFactibleRoute | DyAA-p05-VRPT-SWTS-main/VrptSwts/Searchs/LocalSearchs/TwoOpt.cs:100-120 | Corrected check: true exactly when the time fits, no area lands just before the depot, and every load of the reversed route fits. The reversal is made only when the time fits. |
| TwoOpt.FeasibleReversalSound | DyAA-p05-VRPT-SWTS-main/VrptSwts/Searchs/LocalSearchs/TwoOpt.cs:100-120 | A reversal accepted by the corrected check is workable, serves the same areas and is within capacity and the work duration. With a symmetric distance its time changes as its cost does. |
| TwoOpt.CleanedSound | DyAA-p05-VRPT-SWTS-main/VrptSwts/Searchs/LocalSearchs/TwoOpt.cs:87-88 | Cleaning up an accepted reversal keeps it workable, with the same areas and within capacity. Under the triangle inequality it stays within the work duration. With a symmetric distance its time stays equal to the cost change. |
| TwoOpt.BuildNeighbour | DyAA-p05-VRPT-SWTS-main/VrptSwts/Searchs/LocalSearchs/TwoOpt.cs:81-90 | Returns exactly the specified neighbour: the corrected check, the reversal, then both corrected clean-ups. |
| TwoOpt.NeighbourSound | DyAA-p05-VRPT-SWTS-main/VrptSwts/Searchs/LocalSearchs/TwoOpt.cs:81-90 | A built neighbour is workable, serves the same areas and is within capacity. Under the triangle inequality it is within the work duration, and with a symmetric distance its time changes as its cost does. |
| TwoOpt.TryUpperBounds | DyAA-p05-VRPT-SWTS-main/VrptSwts/Searchs/LocalSearchs/TwoOpt.cs:60-71 | The loop over upper bounds stores exactly what is recorded for each upper bound, in order, and every stored neighbour is sound. |
| TwoOpt.TryUpperBound | DyAA-p05-VRPT-SWTS-main/VrptSwts/Searchs/LocalSearchs/TwoOpt.cs:62-69 | One upper bound: stores the solution with the route replaced by its neighbour when the reversal is feasible and nothing otherwise, which is sound. |
| TwoOpt.TryLowerBound | DyAA-p05-VRPT-SWTS-main/VrptSwts/Searchs/LocalSearchs/TwoOpt.cs:58-71 | One more lower bound extends what the route's scan has stored by that lower bound's loop, and keeps every stored neighbour sound. |
| TwoOpt.GenerateNeighbours | DyAA-p05-VRPT-SWTS-main/VrptSwts/Searchs/LocalSearchs/TwoOpt.cs:56-72 | The scan of one route stores exactly what each lower bound's loop stores, in order; every neighbour is sound. |
| TwoOpt.GenerateAllNeighbours | DyAA-p05-VRPT-SWTS-main/VrptSwts/Searchs/LocalSearchs/TwoOpt.cs:39-40 | The scan over all routes stores exactly what each route's scan records, in route order, and every stored neighbour is sound. Given the records of the reversals' own outcomes this is the neighbourhood that TwoOpt.NeighbourhoodComplete covers. |
| TwoOpt.TryRoute | DyAA-p05-VRPT-SWTS-main/VrptSwts/Searchs/LocalSearchs/TwoOpt.cs:39-40 | One more route extends the stored neighbours by that route's scan and keeps every stored neighbour sound. |
| TwoOpt.LowersAt | DyAA-p05-VRPT-SWTS-main/VrptSwts/Searchs/LocalSearchs/TwoOpt.cs:39-40 | Any record table agreeing with the scan's own gives, for each route, exactly that route's scan over its lower bounds. |
| TwoOpt.NeighbourhoodComplete | DyAA-p05-VRPT-SWTS-main/VrptSwts/Searchs/LocalSearchs/TwoOpt.cs:39-71 | The neighbourhood holds the solution of every feasible reversal of a route between lowerBound + 1 and upperBound, for every lower bound and every upper bound at least two beyond it. |
| TwoOpt.ReversalCovered | DyAA-p05-VRPT-SWTS-main/VrptSwts/Searchs/LocalSearchs/TwoOpt.cs:39-71 | Whatever is recorded for one scanned reversal of one route is among the neighbours the whole scan gathers. |
| LocalSearches.FirstBest | DyAA-p05-VRPT-SWTS-main/VrptSwts/Searchs/LocalSearchs/LocalSearch.cs:87-93 | The position of the first neighbour of least collection time: none is faster, and every earlier one is strictly slower. |
| LocalSearches.FirstBestUnique | DyAA-p05-VRPT-SWTS-main/VrptSwts/Searchs/LocalSearchs/LocalSearch.cs:87-93 | Only that position has both properties. |
| LocalSearches.ServesAllAppend | DyAA-p05-VRPT-SWTS-main/VrptSwts/Searchs/LocalSearchs/ReinsertionIntra.cs:41-42 | Adding sound neighbours to a stored list that serves the areas keeps it serving them. |
| LocalSearches.LocalSearch.constructor | DyAA-p05-VRPT-SWTS-main/VrptSwts/Searchs/LocalSearchs/LocalSearch.cs:24-35 | Stores the instance and the operator kind, with an empty neighbour list. |
| LocalSearches.LocalSearch.GetBestNeighbour | DyAA-p05-VRPT-SWTS-main/VrptSwts/Searchs/LocalSearchs/LocalSearch.cs:83-94 | Returns nothing exactly when the list is empty; otherwise the first neighbour of least collection time. The list is not changed. |
| LocalSearches.LocalSearch.GenerateNeighbours | DyAA-p05-VRPT-SWTS-main/VrptSwts/Searchs/LocalSearchs/ReinsertionIntra.cs:41-42 | Runs the operator's own scan: the neighbours are exactly that operator's neighbourhood, which the operator's completeness lemma shows holds every feasible move, and all are sound. |
| LocalSearches.LocalSearch.Explore | DyAA-p05-VRPT-SWTS-main/VrptSwts/Searchs/LocalSearchs/ReinsertionIntra.cs:41-43 | The neighbours found are exactly the operator's neighbourhood of the solution and are appended to the stored list; the best stored one is returned, or nothing if the list is empty. |
| LocalSearches.NoFasterInScan | DyAA-p05-VRPT-SWTS-main/VrptSwts/Searchs/LocalSearchs/ReinsertionIntra.cs:43-45 | A solution no slower than every stored neighbour is no slower than any neighbour of the scan appended last. |
| LocalSearches.LocalSearch.ScanMinimum | DyAA-p05-VRPT-SWTS-main/VrptSwts/Searchs/LocalSearchs/ReinsertionIntra.cs:41-45 | When the last scan was of the solution itself and no stored neighbour is faster, no solution in the operator's neighbourhood is strictly faster: the solution is a local minimum. |
| LocalSearches.LocalSearch.Descend | DyAA-p05-VRPT-SWTS-main/VrptSwts/Searchs/LocalSearchs/ReinsertionIntra.cs:41-47 | One round of the descent: either a strictly faster neighbour serving the same areas, or nothing, and then the solution is a local minimum of the operator's neighbourhood and no slower than any neighbour stored. |
| LocalSearches.LocalSearch.SearchLocalMinimum | DyAA-p05-VRPT-SWTS-main/VrptSwts/Searchs/LocalSearchs/ReinsertionIntra.cs:38-50 | The descent shared by all five operators returns its start (no move) or a strictly faster solution. The result is workable, serves the same areas, and is no slower than any neighbour still stored. Whenever it stops before the move bound, which the source does not have, the result is a local minimum of the operator's neighbourhood. |
| LocalSearchPool.LocalSearchesList.constructor | DyAA-p05-VRPT-SWTS-main/VrptSwts/InstanceManagement/LocalSearchesList.cs:22-33 | All operators start active, none inactive. |
| LocalSearchPool.LocalSearchesList.GetRandomSearch | DyAA-p05-VRPT-SWTS-main/VrptSwts/InstanceManagement/LocalSearchesList.cs:40-48 | Removes the active operator at the drawn index (below the count) and appends it to the inactive list. The pool of operators is unchanged. |
| LocalSearchPool.LocalSearchesList.Reset | DyAA-p05-VRPT-SWTS-main/VrptSwts/InstanceManagement/LocalSearchesList.cs:54-62 | Keeps exactly the last inactive operator inactive and appends the others, in order, to the active list. With no inactive operator, nothing changes. |
| LocalSearchPool.LocalSearchesList.ResetAll | DyAA-p05-VRPT-SWTS-main/VrptSwts/InstanceManagement/LocalSearchesList.cs:68-76 | Appends every inactive operator, in order, to the active list and empties the inactive list. |
| LocalSearchPool.LocalSearchesList.IsEmpty | DyAA-p05-VRPT-SWTS-main/VrptSwts/InstanceManagement/LocalSearchesList.cs:82-85 | True exactly when no operator is active. |
| RvndSearch.Rvnd.constructor | DyAA-p05-VRPT-SWTS-main/VrptSwts/Searchs/Rvnd.cs:21-27 | Holds the given pool. |
| RvndSearch.Rvnd.Draw | DyAA-p05-VRPT-SWTS-main/VrptSwts/Searchs/Rvnd.cs:42 | Draws an active operator: it is one of the pool, ready, and no longer active. |
| RvndSearch.Rvnd.DrawAndDescend | DyAA-p05-VRPT-SWTS-main/VrptSwts/Searchs/Rvnd.cs:42-43 | The drawn operator's descent from the best solution gives a workable solution serving the same areas. |
| RvndSearch.Rvnd.Round | DyAA-p05-VRPT-SWTS-main/VrptSwts/Searchs/Rvnd.cs:42-48 | Adopts the descent's result only when it is strictly faster. Otherwise the best solution stays and one fewer operator is active. The RVND invariant is kept either way. |
| RvndSearch.Rvnd.Step | DyAA-p05-VRPT-SWTS-main/VrptSwts/Searchs/Rvnd.cs:40-48 | One pass of the loop keeps the search invariant, with the drawn operator recorded. It reports exactly whether the active list is empty, and either the improvement budget runs out, one improvement is used, or one fewer operator is active. |
| RvndSearch.Rvnd.Finish | DyAA-p05-VRPT-SWTS-main/VrptSwts/Searchs/Rvnd.cs:50-51 | ResetAll makes the whole pool active and ready again. The result is the start or strictly faster and serves the same areas; when nothing improved, every operator active at the start was drawn exactly once. |
| RvndSearch.Rvnd.Search | DyAA-p05-VRPT-SWTS-main/VrptSwts/Searchs/Rvnd.cs:37-52 | Returns the start or a strictly faster solution that serves the same areas. Afterwards the whole pool is active again and unchanged. When nothing improved, every operator active at the start was drawn exactly once. |
| Sequential.DescentsEnd | DyAA-p05-VRPT-SWTS-main/VrptSwts/Searchs/SequentialSearch.cs:36-39 | A chain of steps, each keeping its start or moving to something strictly faster, ends at its start or strictly faster. |
| Sequential.DescentsAppend | DyAA-p05-VRPT-SWTS-main/VrptSwts/Searchs/SequentialSearch.cs:38 | One more such step extends the chain. |
| Sequential.SequentialSearch.constructor | DyAA-p05-VRPT-SWTS-main/VrptSwts/Searchs/SequentialSearch.cs:20-26 | Holds the given operators. |
| Sequential.SequentialSearch.Descend | DyAA-p05-VRPT-SWTS-main/VrptSwts/Searchs/SequentialSearch.cs:38 | Operator k's descent keeps its input or is strictly faster, and leaves every operator ready. |
| Sequential.SequentialSearch.Search | DyAA-p05-VRPT-SWTS-main/VrptSwts/Searchs/SequentialSearch.cs:34-40 | Each operator runs once, in list order, on the previous one's output. The result is the start or strictly faster and serves the same areas; with no operator it is the input. |
| Grasp.BetterIsLexicographic | DyAA-p05-VRPT-SWTS-main/VrptSwts/Algorithms/VrptSwtsGrasp.cs:59-67 | "Better" (fewer routes, or as many and strictly less time) is a strict order. Its negation is the order on (route count, time). |
| Grasp.Kept | DyAA-p05-VRPT-SWTS-main/VrptSwts/Algorithms/VrptSwtsGrasp.cs:52-68 | The candidate kept: no candidate is better, and every earlier candidate is worse (ties keep the earlier one). |
| Grasp.KeptAppend | DyAA-p05-VRPT-SWTS-main/VrptSwts/Algorithms/VrptSwtsGrasp.cs:59-67 | A new candidate replaces the kept one exactly when it is better. |
| Grasp.ConstructedWorkable | DyAA-p05-VRPT-SWTS-main/VrptSwts/Algorithms/VrptSwtsGrasp.cs:52 | Constructed routes are workable, so the local searches accept them. |
| Grasp.VrptSwtsGrasp.constructor | DyAA-p05-VRPT-SWTS-main/VrptSwts/Algorithms/VrptSwtsGrasp.cs:37-42 | A resolver with the random top-k strategy, and a fresh copy of the instance with equal fields. |
| Grasp.VrptSwtsGrasp.Construct | DyAA-p05-VRPT-SWTS-main/VrptSwts/Algorithms/VrptSwtsGrasp.cs:55-56 | One construction on a fresh clone: its routes serve the saved instance's areas exactly once and are constructed routes. |
| Grasp.VrptSwtsGrasp.Consider | DyAA-p05-VRPT-SWTS-main/VrptSwts/Algorithms/VrptSwtsGrasp.cs:55-67 | One more construction, kept exactly as the selection rule says. |
| Grasp.VrptSwtsGrasp.SelectionAppend | DyAA-p05-VRPT-SWTS-main/VrptSwts/Algorithms/VrptSwtsGrasp.cs:55-67 | After one more construction, the routes kept are the new ones exactly when they are better, and the selection rule holds over all constructions so far. |
| Grasp.VrptSwtsGrasp.SelectRoutes | DyAA-p05-VRPT-SWTS-main/VrptSwts/Algorithms/VrptSwtsGrasp.cs:51-68 | Makes ACURRACY + 1 = 21 constructions and keeps the one Kept names. |
| Grasp.VrptSwtsGrasp.BuildRoutes | DyAA-p05-VRPT-SWTS-main/VrptSwts/Algorithms/VrptSwtsGrasp.cs:49-72 | The kept routes of 21 constructions, whose tasks replace the recorded ones. The result fails exactly when there is no area; otherwise it carries the kept routes and a transport plan for their tasks. |
| MultiStart.FirstBestAppend | DyAA-p05-VRPT-SWTS-main/VrptSwts/Algorithms/VrptSwtsMultiStart.cs:61-62 | A new round replaces the best exactly when it is strictly faster. |
| MultiStart.ServingRouteEndsAtStation | DyAA-p05-VRPT-SWTS-main/VrptSwts/Algorithms/VrptSwtsMultiStart.cs:64 | A workable route that serves an area passes a station just before the depot. |
| MultiStart.ServingRoutesUnload | DyAA-p05-VRPT-SWTS-main/VrptSwts/Algorithms/VrptSwtsMultiStart.cs:64-65 | Workable routes that serve some area yield at least one transport task, so the final transport step cannot fail. |
| MultiStart.Kinds | DyAA-p05-VRPT-SWTS-main/VrptSwts/Algorithms/VrptSwtsMultiStart.cs:38-44 | The operator kinds, in list order. |
| MultiStart.AddOperator | DyAA-p05-VRPT-SWTS-main/VrptSwts/Algorithms/VrptSwtsMultiStart.cs:38-44 | Appends a fresh operator of the given kind with an empty neighbour list; the earlier operators are unchanged. |
| MultiStart.Operators | DyAA-p05-VRPT-SWTS-main/VrptSwts/Algorithms/VrptSwtsMultiStart.cs:38-44 | The five operators of kinds ReinsertionIntra, ReinsertionInter, SwapIntra, SwapInter and TwoOpt, in that order, all ready for the instance's areas. |
| MultiStart.VrptSwtsMultiStart.constructor | DyAA-p05-VRPT-SWTS-main/VrptSwts/Algorithms/VrptSwtsMultiStart.cs:35-46 | GRASP on a copy of the instance. The sequential search holds fresh, ready operators in the order ReinsertionIntra, ReinsertionInter, SwapIntra, SwapInter, TwoOpt. |
| MultiStart.VrptSwtsMultiStart.Construction | DyAA-p05-VRPT-SWTS-main/VrptSwts/Algorithms/VrptSwtsMultiStart.cs:55 | A GRASP construction fails exactly when there is no area; otherwise it serves every area with workable routes. |
| MultiStart.VrptSwtsMultiStart.Improve | DyAA-p05-VRPT-SWTS-main/VrptSwts/Algorithms/VrptSwtsMultiStart.cs:56 | The sequential search keeps its input or is strictly faster, with the same areas. |
| MultiStart.VrptSwtsMultiStart.BuildAndImprove | DyAA-p05-VRPT-SWTS-main/VrptSwts/Algorithms/VrptSwtsMultiStart.cs:59-60 | One round: GRASP, then the sequential search. The local minimum is the GRASP routes or strictly faster, and serves every area with workable routes. |
| MultiStart.VrptSwtsMultiStart.NextRound | DyAA-p05-VRPT-SWTS-main/VrptSwts/Algorithms/VrptSwtsMultiStart.cs:59-62 | One more round, with the best replaced only on strictly lower time. |
| MultiStart.VrptSwtsMultiStart.RoundAppend | DyAA-p05-VRPT-SWTS-main/VrptSwts/Algorithms/VrptSwtsMultiStart.cs:61-62 | A round whose routes are workable and serve every area keeps the invariant, with the best replaced exactly when the round is strictly faster. |
| MultiStart.VrptSwtsMultiStart.Rounds | DyAA-p05-VRPT-SWTS-main/VrptSwts/Algorithms/VrptSwtsMultiStart.cs:55-63 | ITERATIONS + 1 = 21 rounds, with the best being the first fastest among them. |
| MultiStart.VrptSwtsMultiStart.Transport | DyAA-p05-VRPT-SWTS-main/VrptSwts/Algorithms/VrptSwtsMultiStart.cs:64-66 | Tasks are generated once, from the best routes only. The plan built for them succeeds and is returned with those routes. |
| MultiStart.VrptSwtsMultiStart.Conclude | DyAA-p05-VRPT-SWTS-main/VrptSwts/Algorithms/VrptSwtsMultiStart.cs:64-66 | Succeeds with the first fastest round's routes, no slower than any round, workable and serving every area, with tasks generated from those routes and a transport plan for them. |
| MultiStart.VrptSwtsMultiStart.Run | DyAA-p05-VRPT-SWTS-main/VrptSwts/Algorithms/VrptSwtsMultiStart.cs:53-67 | Fails exactly when there is no area. Otherwise: 21 rounds are run, and the result's routes are those of the first fastest round, no slower than any round; they serve every area with workable routes; its plan serves the tasks of exactly those routes. |

## Left out

- ReinsertionIntra.TryPositions: states exactly what one node's scan stores, as the records of the positions it tries. It does not state by itself that every feasible move is among them; ReinsertionIntra.NeighbourhoodComplete proves that for the whole neighbourhood, which the scans gather exactly.
- TwoOpt.TryUpperBounds: states exactly what one lower bound's loop stores, as the records of the upper bounds it tries. That every feasible reversal is among them is proved for the whole neighbourhood by TwoOpt.NeighbourhoodComplete.
- SwapIntra.TrySwaps: states exactly what one node's scan stores. That every feasible exchange is among them is proved by SwapIntra.PositionMovesCover.
- SwapInter.TryExchanges: states exactly what one node's scan stores. That every feasible exchange is among them is proved by SwapInter.PositionMovesCover.
- ReinsertionInter.TryInsertions: states exactly what one node's scan stores. That every feasible insertion is among them is proved by ReinsertionInter.PositionMovesCover.
- Aliasing and accessors: `GetRoute`, `GetRouteCopy`, `GetCollectionRoutesCopy`, `GetArea`, `GetRouteLength`, `GetCollectionRoute` and the count accessors of CollectionRoute.cs and Routes.cs are sequence operations on values (`r[i]`, `|r|`). The copy/alias distinction of the C# lists is not modelled, so edits through `GetRoute` being visible in the shared route is not captured. The default `Routes()` constructor is `Routes([], [])`.
- Floating point: `double` is `real`. `Node.DistanceBetween` (`Math.Sqrt`, `Math.Pow`) is an abstract `Metric`, with symmetry and the triangle inequality as hypotheses where a lemma needs them. `double.PositiveInfinity` costs are `None`.
- `System.Random` (Algorithms/VrptSwtsGrasp.cs:98, InstanceManagement/LocalSearchesList.cs:42) is an oracle stream of naturals, reduced modulo the range.
- The tie order of `Array.Sort`: only the rank bounds of the chosen candidate are stated, which hold for any order of equal distances.
- Node kinds replace the source's `Id.StartsWith("TS")`, `Id != "Dumpsite"` and `is CollectionArea` tests.
- The abstract `VrptSwtsResolver` with its `VrptSwtsGreedy` and `VrptSwtsGrasp` subclasses is one resolver class with a strategy tag, and GRASP holds a resolver. The `LocalSearch` subclasses are one class with an operator kind.
- Termination (`Resolver.ConstructionFeasible`, a precondition of the construction): every area must fit an empty truck, and be reachable from the depot within the work duration through every station the strategy may pick for it in the look-ahead. For greedy that is the first nearest station; for GRASP it is any station with fewer than `randomWindow` stations strictly closer (none closer when the window is 0). The condition is sufficient for termination, not necessary. Without it the source loops forever when an area's demand exceeds the capacity, or, under greedy, when an area fails the look-ahead from the depot (Algorithms/VrptSwtsResolver.cs:78, 106-118). For GRASP it also excludes instances the source can finish: when the station drawn for an area at the depot fails the look-ahead, the inner loop stops with no area taken (cs:122), the route `[depot, TS, depot]` is closed with an unload of 0 (cs:126-139) and added (cs:144), and the outer loop (cs:78) goes on until a good station is drawn. Such runs leave routes that serve no area, which count in GRASP's route-count comparison, and their 0-quantity unloads go to transport. The model's guarantee that every constructed route serves at least one area (`Areas(r) != multiset{}` in `Resolver.ConstructedRoute`) depends on this precondition.
- Fuel bounds:
  - `SearchLocalMinimum` stops after `fuel + 1` adopted moves.
  - `Rvnd.Search` stops after `fuel + 1` adopted improvements.
  - `SequentialSearch.Search` and multi-start pass `stepFuel` to each descent.
  - The source loops until no improvement. The stated results hold at any fuel, but the result may stop short of a local minimum.
- LocalSearches.LocalSearch.SearchLocalMinimum: requires the start to serve the areas the operator was built for, as every caller in the source does. It states that the result is a local minimum of the neighbourhood only when the descent stopped with fewer than `fuel + 1` moves; after the last move the fuel allows, the result is not scanned again.
- RvndSearch.Rvnd.Search: states readiness of the operators in terms of the pool's lists at entry.
- ReinsertionInter: as in the source, the time of the route the node leaves is not checked against the work duration (Searchs/LocalSearchs/ReinsertionInter.cs:125-126).
- SwapIntra, TwoOpt and ReinsertionIntra: the work-duration bound and the exactness of the recorded time change assume a symmetric distance or the triangle inequality where the source's formula relies on them, as each lemma states.
- Route times recorded during construction: when the inner loop stops at a transfer station, the source appends the depot without adding the leg to it (Algorithms/VrptSwtsResolver.cs:140-143). The model keeps that RouteTime and states it as route cost minus that leg.
- MultiStart.VrptSwtsMultiStart.BuildAndImprove: states that the GRASP routes serve every area with workable routes, not the full GRASP selection rule. That rule is proved by Grasp.VrptSwtsGrasp.BuildRoutes.
- MultiStart.VrptSwtsMultiStart.constructor: states the operator kinds, their order and their readiness. It does not state that each operator is a fresh object holding its own clone of the instance. The operators' instance is used only for its distance and truck profile.
- Grasp.VrptSwtsGrasp.BuildRoutes: the exception `Min` throws on an empty task list is the `Failure` result.
- Left out entirely, with no logic relevant to the engine:
  - `pract/`, an abandoned second attempt;
  - `VrptSwtsInstanceManager.cs`, which reads files;
  - `ArgumentsParser.cs`, `ExceptionStringToNumber.cs`, `Program.cs`, `VrptSwtsTester.cs` and `ExecutionLogger.cs`, which handle the command line, parsing, timing and console output;
  - every `ToString`.
- `CollectionArea.cs`, `TransportTask.cs`, `Truck.cs` and `TransportTruck.cs` are plain records, so they are datatypes.

## Findings

| source | as written | input that shows it | evidently intended | confidence | as-written member | corrected member |
|---|---|---|---|---|---|---|
| DyAA-p05-VRPT-SWTS-main/VrptSwts/Searchs/LocalSearchs/TwoOpt.cs:87-88 | `BuildNeighbour` cleans up at `lowerBound` and then at `upperBound`. `RemoveUnnecessaryNodes` returns early only when `bound == route.Count - 2` (line 154) and otherwise reads `route[bound + 1]` (line 163). When the first clean-up removed a node and `upperBound` was `Count - 2` before it, the second read is `route[Count]`, which throws ArgumentOutOfRangeException. | route [depot, TS1, area(demand 1), TS2, depot], lowerBound 0, upperBound 3, capacity 10, zero distances. The reversal gives [depot, TS2, area, TS1, depot]. The first clean-up drops TS2, and the second then reads position 4 of a 4-node list. | The clean-up does nothing when bound + 1 is the last position or beyond. | not executed | TwoOpt.SecondCleanUpOutOfRange | TwoOpt.CleanUpsSound |
| DyAA-p05-VRPT-SWTS-main/VrptSwts/Searchs/LocalSearchs/TwoOpt.cs:119 | After the reversal, capacity is checked only in the sub-route that contains `lowerBound + 1`. The reversal moves areas across stations, so other sub-routes can be overloaded. | route [depot, a1(6), TS1, a2(4), a3(6), TS2, depot], capacity 10, lowerBound 0, upperBound 3, zero distances. The reversal gives [depot, a2, TS1, a1, a3, TS2, depot]. The sub-route at position 1 carries 4, but a1 + a3 = 12 > 10. | Every sub-route of the reversed route is within capacity. | not executed | TwoOpt.CapacityCheckTooNarrow | TwoOpt.IsFactibleRoute |
