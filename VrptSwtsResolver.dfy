/**
 * The route-construction engine shared by the greedy and the GRASP heuristics: the
 * nearest-neighbour construction of collection routes with transfer-station detours, the
 * derivation of transport tasks from routes, and the assignment of those tasks to
 * transport vehicles.
 */
module Resolver {
  import opened Graph
  import opened Lists
  import opened Wrappers
  import opened Randomness
  import opened Routing
  import opened Transport
  import opened Solutions
  import opened Instance
  import opened TransportPlanning
  import opened TransportInvariants
  import opened TransportAssignment
  import Greedy
  import GraspSelection

  /** How the next node is chosen among candidates: the nearest, or one of the nearest few at random. */
  datatype Strategy = Nearest | RandomTopK(randomWindow: nat)

  /**
   * The unloads a route implies for its first n nodes: one per transfer station among them,
   * with the waste collected since the previous station and the minutes elapsed on arrival.
   */
  function TasksUpTo(m: Metric, t: Truck, r: seq<Node>, n: nat): seq<TransportTask>
    requires n <= |r|
    decreases n
  {
    if n == 0 then []
    else
      var unloads := if IsTransferStation(r[n - 1])
        then [TransportTask(Waste(r[..n - 1]), r[n - 1], Travel(m, t, r[..n]) + Processing(r[..n - 1]))]
        else [];
      TasksUpTo(m, t, r, n - 1) + unloads
  }

  /** The unloads of a route: its transfer-station visits before the final node. */
  function RouteTasks(m: Metric, t: Truck, r: seq<Node>): seq<TransportTask>
  {
    if r == [] then [] else TasksUpTo(m, t, r, |r| - 1)
  }

  /** The unloads of a list of routes, route by route. */
  function RoutesTasks(m: Metric, t: Truck, rs: seq<CollectionRoute>): seq<TransportTask>
    decreases |rs|
  {
    if rs == [] then [] else RoutesTasks(m, t, rs[..|rs| - 1]) + RouteTasks(m, t, rs[|rs| - 1].route)
  }

  function TotalDemand(p: seq<Node>): int
    decreases |p|
  {
    if p == [] then 0 else TotalDemand(p[..|p| - 1]) + Demand(p[|p| - 1])
  }

  function TotalUnloaded(tasks: seq<TransportTask>): int
    decreases |tasks|
  {
    if tasks == [] then 0 else TotalUnloaded(tasks[..|tasks| - 1]) + tasks[|tasks| - 1].unloadedQuantity
  }

  /**
   * The look-ahead time of a candidate area: reaching it (closestDistance away), serving it,
   * then driving to the station ts and from there to the depot.
   */
  function SecureTime(m: Metric, t: Truck, depot: Node, closestDistance: real, area: Node, ts: Node): real
  {
    Minutes(t, closestDistance + DistanceBetween(m, area, ts) + DistanceBetween(m, ts, depot))
      + ProcessingTime(area)
  }

  /** The look-ahead time is the time of the path current, area, ts, depot with the service at area. */
  lemma SecureTimeIsLookAhead(m: Metric, t: Truck, depot: Node, current: Node, area: Node, ts: Node)
    ensures SecureTime(m, t, depot, DistanceBetween(m, current, area), area, ts)
         == RouteCost(m, t, [current, area, ts, depot]) - ProcessingTime(current) - ProcessingTime(ts) - ProcessingTime(depot)
  {
    var a, b, c := DistanceBetween(m, current, area), DistanceBetween(m, area, ts), DistanceBetween(m, ts, depot);
    MinutesAdd(t, a + b, c);
    MinutesAdd(t, a, b);
    var r4, r3, r2, r1 := [current, area, ts, depot], [area, ts, depot], [ts, depot], [depot];
    assert r4[1..] == r3 && r3[1..] == r2 && r2[1..] == r1 && r1[1..] == [];
    assert Travel(m, t, r2) == TravelTime(m, t, ts, depot);
    assert Travel(m, t, r3) == TravelTime(m, t, area, ts) + Travel(m, t, r2);
    assert Travel(m, t, r4) == TravelTime(m, t, current, area) + Travel(m, t, r3);
    assert Processing(r1) == ProcessingTime(depot);
    assert Processing(r2) == ProcessingTime(ts) + Processing(r1);
    assert Processing(r3) == ProcessingTime(area) + Processing(r2);
    assert Processing(r4) == ProcessingTime(current) + Processing(r3);
  }

  /**
   * A condition under which construction terminates with every route serving an area:
   * stations exist, and every area is an area that fits in an empty truck and can be served on
   * a fresh route from the depot, through every station the strategy may pick as the area's
   * nearest in the look-ahead. It is sufficient, not necessary: under GRASP a run may also end
   * after closing routes that serve no area, which this model does not cover.
   */
  ghost predicate ConstructionFeasible(inst: VrptSwtsInstance, strategy: Strategy)
    reads inst
  {
    Feasible(strategy, inst.distance, inst.collectionTruck, inst.depot, inst.transferStations, inst.collectionAreas)
  }

  /** ConstructionFeasible on the instance's parts. */
  ghost predicate Feasible(strategy: Strategy, m: Metric, truck: Truck, depot: Node, stations: seq<Node>, areas: seq<Node>)
  {
    && |stations| > 0
    && IsDepot(depot)
    && (forall ts :: ts in stations ==> IsTransferStation(ts))
    && (forall a :: a in areas ==>
          && IsArea(a)
          && Demand(a) <= truck.capacity
          && forall k :: 0 <= k < |stations| && Selected(strategy, m, a, stations, DistanceBetween(m, a, stations[k]), k) ==>
               SecureTime(m, truck, depot, DistanceBetween(m, depot, a), a, stations[k]) <= truck.workDuration as real)
  }

  /** Taking an area out keeps the remaining areas feasible. */
  lemma FeasibleRemoveAt(strategy: Strategy, m: Metric, truck: Truck, depot: Node, stations: seq<Node>, areas: seq<Node>, index: nat)
    requires Feasible(strategy, m, truck, depot, stations, areas) && index < |areas|
    ensures Feasible(strategy, m, truck, depot, stations, RemoveAt(areas, index))
    ensures multiset(areas) == multiset(RemoveAt(areas, index)) + multiset{areas[index]}
  {
    RemoveAtMultiset(areas, index);
    forall x | x in RemoveAt(areas, index) ensures x in areas {
      assert x in multiset(RemoveAt(areas, index));
    }
  }

  /** On a fresh route from the depot, every area of a feasible instance passes both checks. */
  lemma FeasibleFromDepot(strategy: Strategy, m: Metric, truck: Truck, depot: Node, stations: seq<Node>, areas: seq<Node>, a: Node, k: nat)
    requires Feasible(strategy, m, truck, depot, stations, areas) && a in areas && k < |stations|
    requires Selected(strategy, m, a, stations, DistanceBetween(m, a, stations[k]), k)
    ensures IsArea(a) && Demand(a) <= truck.capacity
    ensures SecureTime(m, truck, depot, DistanceBetween(m, depot, a), a, stations[k]) <= truck.workDuration as real
  {
    assert stations[k] in stations;
  }


  /**
   * A route as construction leaves it: from the depot to the depot, its last stop before the
   * depot a station of the instance, at least one area, the truck never over capacity, and
   * its sub-route list holding exactly the positions of its stations.
   */
  ghost predicate ConstructedRoute(cr: CollectionRoute, depot: Node, stations: seq<Node>, cap: int)
  {
    var r := cr.route;
    && WellFormedRoute(r)
    && r[0] == depot && r[|r| - 1] == depot
    && IsTransferStation(r[|r| - 2])
    && (forall k :: 0 < k < |r| - 1 && IsTransferStation(r[k]) ==> r[k] in stations)
    && Areas(r) != multiset{}
    && CapacityRespected(r, cap)
    && cr.subRoutes == StationPositions(r)
  }

  /**
   * A route as construction returns it: constructed as above, its time the driving plus
   * service time of the whole route less, when its construction stopped at a station
   * (ended), the last leg from that station to the depot.
   */
  ghost predicate BuiltRoute(m: Metric, truck: Truck, depot: Node, stations: seq<Node>, cr: CollectionRoute, ended: bool)
  {
    && ConstructedRoute(cr, depot, stations, truck.capacity)
    && cr.routeTime == RouteCost(m, truck, cr.route)
         - if ended then TravelTime(m, truck, cr.route[|cr.route| - 2], cr.route[|cr.route| - 1]) else 0.0
  }

  /** Every route of the list is built as above, with the matching entry of ended. */
  ghost predicate AllBuilt(m: Metric, truck: Truck, depot: Node, stations: seq<Node>, routes: seq<CollectionRoute>, ended: seq<bool>)
  {
    && |routes| == |ended|
    && forall k :: 0 <= k < |routes| ==> BuiltRoute(m, truck, depot, stations, routes[k], ended[k])
  }

  lemma AllBuiltAppend(m: Metric, truck: Truck, depot: Node, stations: seq<Node>, routes: seq<CollectionRoute>, ended: seq<bool>,
                       cr: CollectionRoute, e: bool)
    requires AllBuilt(m, truck, depot, stations, routes, ended)
    requires BuiltRoute(m, truck, depot, stations, cr, e)
    ensures AllBuilt(m, truck, depot, stations, routes + [cr], ended + [e])
  {
    forall k | 0 <= k < |routes| + 1
      ensures BuiltRoute(m, truck, depot, stations, (routes + [cr])[k], (ended + [e])[k])
    {
      if k < |routes| {
        assert (routes + [cr])[k] == routes[k] && (ended + [e])[k] == ended[k];
      }
    }
  }

  lemma {:induction false} TasksUpToPrefix(m: Metric, t: Truck, r: seq<Node>, s: seq<Node>, n: nat)
    requires n <= |r| && n <= |s| && r[..n] == s[..n]
    ensures TasksUpTo(m, t, r, n) == TasksUpTo(m, t, s, n)
    decreases n
  {
    if n > 0 {
      assert r[..n - 1] == r[..n][..n - 1] == s[..n][..n - 1] == s[..n - 1];
      assert r[n - 1] == r[..n][n - 1] == s[n - 1];
      TasksUpToPrefix(m, t, r, s, n - 1);
    }
  }

  /** Extending a route by x adds an unload exactly when x is a station. */
  lemma TasksAppend(m: Metric, t: Truck, r: seq<Node>, x: Node)
    ensures TasksUpTo(m, t, r + [x], |r| + 1) == TasksUpTo(m, t, r, |r|)
      + (if IsTransferStation(x) then [TransportTask(Waste(r), x, Travel(m, t, r + [x]) + Processing(r))] else [])
  {
    var s := r + [x];
    assert s[..|r|] == r[..|r|] == r;
    assert s[..|r| + 1] == s;
    TasksUpToPrefix(m, t, s, r, |r|);
  }

  /** The unloads of the first n nodes plus the waste still on board make up all the demand collected. */
  lemma {:induction false} TasksCarryWaste(m: Metric, t: Truck, r: seq<Node>, n: nat)
    requires n <= |r|
    ensures TotalUnloaded(TasksUpTo(m, t, r, n)) + Waste(r[..n]) == TotalDemand(r[..n])
    decreases n
  {
    if n > 0 {
      TasksCarryWaste(m, t, r, n - 1);
      var p := r[..n];
      assert p[..n - 1] == r[..n - 1];
      var prev := TasksUpTo(m, t, r, n - 1);
      if IsTransferStation(r[n - 1]) {
        var x := TransportTask(Waste(r[..n - 1]), r[n - 1], Travel(m, t, r[..n]) + Processing(r[..n - 1]));
        assert (prev + [x])[..|prev|] == prev;
      } else {
        assert prev + [] == prev;
      }
    }
  }

  /** Every node of r takes a non-negative service time. */
  predicate ServiceNonNegative(r: seq<Node>)
  {
    forall k :: 0 <= k < |r| ==> ProcessingTime(r[k]) >= 0.0
  }

  /** Minutes elapsed on arrival at node n - 1 of r: the driving up to it and the service before it. */
  function Elapsed(m: Metric, t: Truck, r: seq<Node>, n: nat): real
    requires 1 <= n <= |r|
  {
    Travel(m, t, r[..n]) + Processing(r[..n - 1])
  }

  /** With non-negative distances and service times, the clock never runs back along a route. */
  lemma ElapsedStep(m: Metric, t: Truck, r: seq<Node>, n: nat)
    requires 1 <= n < |r| && NonNegative(m) && ServiceNonNegative(r)
    ensures Elapsed(m, t, r, n) <= Elapsed(m, t, r, n + 1)
  {
    assert r[..n + 1] == r[..n] + [r[n]];
    TravelConcat(m, t, r[..n], [r[n]]);
    assert r[..n] == r[..n - 1] + [r[n - 1]];
    ProcessingConcat(r[..n - 1], [r[n - 1]]);
    assert Processing([r[n - 1]]) == ProcessingTime(r[n - 1]) + Processing([]);
  }

  /**
   * The unloads of the first n nodes arrive in order, none later than the arrival at node n - 1,
   * when distances and service times are non-negative.
   */
  lemma {:induction false} TasksUpToOrdered(m: Metric, t: Truck, r: seq<Node>, n: nat)
    requires n <= |r| && NonNegative(m) && ServiceNonNegative(r)
    ensures forall q :: 0 <= q < |TasksUpTo(m, t, r, n)| ==> 1 <= n && TasksUpTo(m, t, r, n)[q].arrivalTime <= Elapsed(m, t, r, n)
    ensures forall p, q :: 0 <= p < q < |TasksUpTo(m, t, r, n)| ==> TasksUpTo(m, t, r, n)[p].arrivalTime <= TasksUpTo(m, t, r, n)[q].arrivalTime
    decreases n
  {
    if n > 0 {
      TasksUpToOrdered(m, t, r, n - 1);
      var prev := TasksUpTo(m, t, r, n - 1);
      var all := TasksUpTo(m, t, r, n);
      if n >= 2 {
        ElapsedStep(m, t, r, n - 1);
      }
      if IsTransferStation(r[n - 1]) {
        assert all == prev + [TransportTask(Waste(r[..n - 1]), r[n - 1], Elapsed(m, t, r, n))];
      } else {
        assert all == prev;
      }
      assert all[..|prev|] == prev;
      forall q | 0 <= q < |all|
        ensures all[q].arrivalTime <= Elapsed(m, t, r, n)
      {
        if q < |prev| {
          assert all[q] == prev[q];
        }
      }
      forall p, q | 0 <= p < q < |all|
        ensures all[p].arrivalTime <= all[q].arrivalTime
      {
        assert all[p] == prev[p];
        if q < |prev| {
          assert all[q] == prev[q];
        }
      }
    } else {
      assert TasksUpTo(m, t, r, n) == [];
    }
  }

  /**
   * The unloads of one route arrive in visiting order: with non-negative distances and service
   * times, an earlier unload never arrives later than a later one.
   */
  lemma RouteTasksOrdered(m: Metric, t: Truck, r: seq<Node>)
    requires NonNegative(m) && ServiceNonNegative(r)
    ensures forall p, q :: 0 <= p < q < |RouteTasks(m, t, r)| ==> RouteTasks(m, t, r)[p].arrivalTime <= RouteTasks(m, t, r)[q].arrivalTime
  {
    if r != [] {
      TasksUpToOrdered(m, t, r, |r| - 1);
    }
  }

  /** A route whose last stop before the depot is a station unloads everything it collects. */
  lemma RouteTasksDeliverAllWaste(m: Metric, t: Truck, r: seq<Node>)
    requires WellFormedRoute(r) && IsTransferStation(r[|r| - 2])
    ensures TotalUnloaded(RouteTasks(m, t, r)) == TotalDemand(r)
  {
    var n := |r| - 1;
    TasksCarryWaste(m, t, r, n);
    assert r[..n][..n - 1] == r[..n - 1];
    assert r[..n + 1] == r;
  }

  /** One step of walking a route: the unload, the elapsed time and the load after node i. */
  lemma TaskGenerationStep(m: Metric, t: Truck, route: seq<Node>, i: nat)
    requires i < |route| - 1
    ensures TasksUpTo(m, t, route, i + 1) == TasksUpTo(m, t, route, i)
      + (if IsTransferStation(route[i])
         then [TransportTask(Waste(route[..i]), route[i], Travel(m, t, route[..i + 1]) + Processing(route[..i]))]
         else [])
    ensures Travel(m, t, route[..i + 2]) + Processing(route[..i + 1])
         == Travel(m, t, route[..i + 1]) + Processing(route[..i]) + ProcessingTime(route[i])
            + TravelTime(m, t, route[i], route[i + 1])
    ensures Waste(route[..i + 1]) == if IsTransferStation(route[i]) then 0 else Waste(route[..i]) + Demand(route[i])
  {
    var p := route[..i + 1];
    assert route[..i + 2] == p + [route[i + 1]];
    assert p == route[..i] + [route[i]];
    RouteCostAppend(m, t, p, route[i + 1]);
    ProcessingConcat(route[..i], [route[i]]);
    WasteAppend(route[..i], route[i]);
  }

  lemma RoutesTasksPrefix(m: Metric, t: Truck, rs: seq<CollectionRoute>, k: nat)
    requires k < |rs|
    ensures RoutesTasks(m, t, rs[..k + 1]) == RoutesTasks(m, t, rs[..k]) + RouteTasks(m, t, rs[k].route)
  {
    assert rs[..k + 1][..k] == rs[..k];
  }

  lemma RoutesTasksAppend(m: Metric, t: Truck, rs: seq<CollectionRoute>, x: CollectionRoute)
    ensures RoutesTasks(m, t, rs + [x]) == RoutesTasks(m, t, rs) + RouteTasks(m, t, x.route)
  {
    assert (rs + [x])[..|rs|] == rs;
  }

  /**
   * The locals of a route under construction: the nodes so far, the positions of its
   * stations, the capacity left, the working time left and the time spent.
   */
  datatype Draft = Draft(route: seq<Node>, subRoutes: seq<int>, truckCapacity: int, routeTime: real, timeCount: real)

  /**
   * What holds of a route under construction: it starts at the depot and holds areas and
   * stations of the instance, timeCount is its driving plus service time and routeTime what
   * is left of the working day, truckCapacity is what is left after the waste collected
   * since the last station, the truck never went over capacity, subRoutes lists the station
   * positions, and unloads are the unloads so far.
   */
  ghost predicate Building(m: Metric, truck: Truck, depot: Node, stations: seq<Node>, d: Draft, unloads: seq<TransportTask>)
  {
    var route := d.route;
    && |route| >= 1 && route[0] == depot
    && (forall k :: 0 < k < |route| ==> IsArea(route[k]) || (IsTransferStation(route[k]) && route[k] in stations))
    && CapacityRespected(route, truck.capacity)
    && d == DraftOf(m, truck, route)
    && UnloadsAt(m, truck, route, d.subRoutes, unloads)
  }

  /** The locals a route so far determines. */
  function DraftOf(m: Metric, truck: Truck, route: seq<Node>): Draft
  {
    var timeCount := RouteCost(m, truck, route);
    Draft(route, StationPositions(route), truck.capacity - Waste(route), truck.workDuration as real - timeCount, timeCount)
  }

  /** The unload recorded on arriving at position p of r: the waste collected before it, at the arrival time. */
  function UnloadAt(m: Metric, t: Truck, r: seq<Node>, p: nat): TransportTask
    requires p < |r|
  {
    TransportTask(Waste(r[..p]), r[p], Travel(m, t, r[..p + 1]) + Processing(r[..p]))
  }

  /** unloads are the unloads recorded at the given positions of r, in order. */
  ghost predicate UnloadsAt(m: Metric, t: Truck, r: seq<Node>, positions: seq<int>, unloads: seq<TransportTask>)
  {
    && |unloads| == |positions|
    && forall j :: 0 <= j < |unloads| ==> 0 <= positions[j] < |r| && unloads[j] == UnloadAt(m, t, r, positions[j])
  }

  lemma UnloadAtAppend(m: Metric, t: Truck, r: seq<Node>, x: Node, p: nat)
    requires p < |r|
    ensures UnloadAt(m, t, r + [x], p) == UnloadAt(m, t, r, p)
  {
    assert (r + [x])[..p] == r[..p];
    assert (r + [x])[..p + 1] == r[..p + 1];
  }

  /** The unloads of the first n nodes, in order, are those recorded at the station positions. */
  lemma {:induction false} TasksAtStations(m: Metric, t: Truck, r: seq<Node>)
    ensures UnloadsAt(m, t, r, StationPositions(r), TasksUpTo(m, t, r, |r|))
    decreases |r|
  {
    if r != [] {
      var init, x := r[..|r| - 1], r[|r| - 1];
      assert r == init + [x];
      TasksAtStations(m, t, init);
      TasksAppend(m, t, init, x);
      WasteAppend(init, x);
      var positions := StationPositions(init);
      forall j | 0 <= j < |positions|
        ensures UnloadAt(m, t, r, positions[j]) == UnloadAt(m, t, init, positions[j])
      {
        UnloadAtAppend(m, t, init, x, positions[j]);
      }
      if IsTransferStation(x) {
        assert r[..|init|] == init && r[..|init| + 1] == r;
      }
    }
  }

  /** The route that has only left the depot. */
  function StartDraft(truck: Truck, depot: Node): Draft
  {
    Draft([depot], [], truck.capacity, truck.workDuration as real, 0.0)
  }

  lemma BuildingStart(m: Metric, truck: Truck, depot: Node, stations: seq<Node>)
    requires IsDepot(depot)
    ensures Building(m, truck, depot, stations, StartDraft(truck, depot), [])
    ensures Areas([depot]) == multiset{}
  {
    assert [depot][1..] == [] && [depot][..0] == [];
    assert Processing([depot]) == ProcessingTime(depot) + Processing([]);
    assert RouteCost(m, truck, [depot]) == 0.0;
    assert Waste([depot]) == 0;
    assert StationPositions([depot]) == [];
    assert AreaNodes([depot]) == [];
  }

  /** The locals after taking area, distance away: one more node, its demand loaded, its drive and service spent. */
  function NextAtArea(truck: Truck, d: Draft, area: Node, distance: real): Draft
  {
    var subRouteTime := Minutes(truck, distance) + ProcessingTime(area);
    Draft(d.route + [area], d.subRoutes, d.truckCapacity - Demand(area), d.routeTime - subRouteTime, d.timeCount + subRouteTime)
  }

  /** The locals after a detour to the station ts, distance away: the truck is empty again. */
  function NextAtStation(truck: Truck, d: Draft, ts: Node, distance: real): Draft
  {
    var subRouteTime := Minutes(truck, distance);
    Draft(d.route + [ts], d.subRoutes + [|d.route|], truck.capacity, d.routeTime - subRouteTime, d.timeCount + subRouteTime)
  }

  /** The unload a detour to ts records: the load since the last station, at the arrival time. */
  function StationUnload(truck: Truck, d: Draft, ts: Node, distance: real): TransportTask
  {
    TransportTask(truck.capacity - d.truckCapacity, ts, NextAtStation(truck, d, ts, distance).timeCount)
  }

  /** Taking an area that fits the remaining capacity keeps a route under construction well-formed. */
  lemma BuildingArea(m: Metric, truck: Truck, depot: Node, stations: seq<Node>, d: Draft, unloads: seq<TransportTask>,
                     area: Node, distance: real)
    requires Building(m, truck, depot, stations, d, unloads)
    requires IsArea(area) && Demand(area) <= d.truckCapacity
    requires distance == DistanceBetween(m, d.route[|d.route| - 1], area)
    ensures Building(m, truck, depot, stations, NextAtArea(truck, d, area, distance), unloads)
    ensures Areas(d.route + [area]) == Areas(d.route) + multiset{area}
  {
    AreaNodesAppend(d.route, area);
    WasteAppend(d.route, area);
    CapacityRespectedAppend(d.route, area, truck.capacity);
    RouteCostAppend(m, truck, d.route, area);
    var r := d.route;
    var next := NextAtArea(truck, d, area, distance);
    assert next == DraftOf(m, truck, r + [area]);
    UnloadsAtAppend(m, truck, r, area, d.subRoutes, unloads);
  }

  /** The unloads recorded at earlier stations are unaffected by extending the route. */
  lemma UnloadsAtAppend(m: Metric, t: Truck, r: seq<Node>, x: Node, positions: seq<int>, unloads: seq<TransportTask>)
    requires UnloadsAt(m, t, r, positions, unloads)
    ensures UnloadsAt(m, t, r + [x], positions, unloads)
  {
    forall j | 0 <= j < |unloads|
      ensures unloads[j] == UnloadAt(m, t, r + [x], positions[j])
    {
      UnloadAtAppend(m, t, r, x, positions[j]);
    }
  }

  /** Recording one more unload, at a position of the route. */
  lemma UnloadsAtPush(m: Metric, t: Truck, r: seq<Node>, positions: seq<int>, unloads: seq<TransportTask>,
                      p: nat, unload: TransportTask)
    requires UnloadsAt(m, t, r, positions, unloads)
    requires p < |r| && unload == UnloadAt(m, t, r, p)
    ensures UnloadsAt(m, t, r, positions + [p], unloads + [unload])
  {
  }

  /** The task recorded at a detour is the unload of the station just appended. */
  lemma StationUnloadAt(m: Metric, truck: Truck, d: Draft, ts: Node, distance: real)
    requires d == DraftOf(m, truck, d.route) && |d.route| >= 1
    requires distance == DistanceBetween(m, d.route[|d.route| - 1], ts)
    ensures StationUnload(truck, d, ts, distance) == UnloadAt(m, truck, d.route + [ts], |d.route|)
  {
    var r := d.route;
    assert (r + [ts])[..|r|] == r && (r + [ts])[..|r| + 1] == r + [ts];
    RouteCostAppend(m, truck, r, ts);
  }

  /** Taking the candidate area moves it from the unrouted areas to the route, keeping both invariants. */
  lemma TakeArea(strategy: Strategy, m: Metric, truck: Truck, depot: Node, stations: seq<Node>, areas0: seq<Node>, areas: seq<Node>,
                 d: Draft, unloads: seq<TransportTask>, index: nat, area: Node, distance: real)
    requires Feasible(strategy, m, truck, depot, stations, areas)
    requires Building(m, truck, depot, stations, d, unloads)
    requires multiset(areas0) == multiset(areas) + Areas(d.route)
    requires index < |areas| && area == areas[index] && Demand(area) <= d.truckCapacity
    requires distance == DistanceBetween(m, d.route[|d.route| - 1], area)
    ensures Feasible(strategy, m, truck, depot, stations, RemoveAt(areas, index))
    ensures Building(m, truck, depot, stations, NextAtArea(truck, d, area, distance), unloads)
    ensures multiset(areas0) == multiset(RemoveAt(areas, index)) + Areas(NextAtArea(truck, d, area, distance).route)
    ensures Areas(NextAtArea(truck, d, area, distance).route) != multiset{}
  {
    assert area in areas;
    BuildingArea(m, truck, depot, stations, d, unloads, area, distance);
    FeasibleRemoveAt(strategy, m, truck, depot, stations, areas, index);
    assert NextAtArea(truck, d, area, distance).route == d.route + [area];
  }

  /** A detour to a station records the load since the last one as an unload and empties the truck. */
  lemma BuildingStation(m: Metric, truck: Truck, depot: Node, stations: seq<Node>, d: Draft, unloads: seq<TransportTask>,
                        ts: Node, distance: real)
    requires Building(m, truck, depot, stations, d, unloads)
    requires IsTransferStation(ts) && ts in stations
    requires distance == DistanceBetween(m, d.route[|d.route| - 1], ts)
    ensures Building(m, truck, depot, stations, NextAtStation(truck, d, ts, distance),
                     unloads + [StationUnload(truck, d, ts, distance)])
    ensures Areas(d.route + [ts]) == Areas(d.route)
  {
    var r := d.route;
    var next := NextAtStation(truck, d, ts, distance);
    var unload := StationUnload(truck, d, ts, distance);
    assert Areas(r + [ts]) == Areas(r) by {
      AreaNodesAppend(r, ts);
    }
    assert CapacityRespected(r + [ts], truck.capacity) by {
      CapacityRespectedAppend(r, ts, truck.capacity);
    }
    assert next == DraftOf(m, truck, r + [ts]) by {
      WasteAppend(r, ts);
      RouteCostAppend(m, truck, r, ts);
    }
    assert UnloadsAt(m, truck, r + [ts], next.subRoutes, unloads + [unload]) by {
      StationUnloadAt(m, truck, d, ts, distance);
      UnloadsAtAppend(m, truck, r, ts, d.subRoutes, unloads);
      UnloadsAtPush(m, truck, r + [ts], d.subRoutes, unloads, |r|, unload);
    }
  }

  /** Returning to the depot from a station completes a constructed route. */
  lemma BuildingClose(m: Metric, truck: Truck, depot: Node, stations: seq<Node>, d: Draft, unloads: seq<TransportTask>,
                      cr: CollectionRoute)
    requires Building(m, truck, depot, stations, d, unloads)
    requires IsDepot(depot) && IsTransferStation(d.route[|d.route| - 1]) && Areas(d.route) != multiset{}
    requires cr.route == d.route + [depot] && cr.subRoutes == d.subRoutes
    ensures ConstructedRoute(cr, depot, stations, truck.capacity)
    ensures Areas(cr.route) == Areas(d.route)
    ensures RouteCost(m, truck, cr.route) == d.timeCount + TravelTime(m, truck, d.route[|d.route| - 1], depot)
    ensures cr.route[|cr.route| - 2] == d.route[|d.route| - 1] && cr.route[|cr.route| - 1] == depot
    ensures RouteTasks(m, truck, cr.route) == unloads
  {
    var route := d.route;
    AreaNodesAppend(route, depot);
    WasteAppend(route, depot);
    CapacityRespectedAppend(route, depot, truck.capacity);
    RouteCostAppend(m, truck, route, depot);
    CloseTasks(m, truck, route, depot, unloads);
  }

  /** The unloads recorded at the station positions of a route are the unloads of that route closed at the depot. */
  lemma CloseTasks(m: Metric, truck: Truck, route: seq<Node>, depot: Node, unloads: seq<TransportTask>)
    requires UnloadsAt(m, truck, route, StationPositions(route), unloads)
    ensures RouteTasks(m, truck, route + [depot]) == unloads
  {
    assert (route + [depot])[..|route|] == route[..|route|];
    TasksUpToPrefix(m, truck, route + [depot], route, |route|);
    TasksAtStations(m, truck, route);
    var tasks := TasksUpTo(m, truck, route, |route|);
    assert forall j :: 0 <= j < |tasks| ==> tasks[j] == unloads[j];
  }

  /**
   * The selection rule of each strategy for the candidate at position index, at the given
   * distance: the nearest strategy takes the first of the nearest candidates; the random one
   * takes a candidate with fewer strictly closer rivals than its window (taken as at least 1).
   */
  ghost predicate Selected(strategy: Strategy, m: Metric, current: Node, neighbours: seq<Node>, distance: real, index: nat)
  {
    match strategy
    case Nearest =>
      && (forall i :: 0 <= i < |neighbours| ==> distance <= DistanceBetween(m, current, neighbours[i]))
      && (forall i :: 0 <= i < index && i < |neighbours| ==> DistanceBetween(m, current, neighbours[i]) > distance)
    case RandomTopK(window) =>
      GraspSelection.CountCloser(GraspSelection.Candidates(m, current, neighbours), distance)
      < if GraspSelection.Min(|neighbours|, window) == 0 then 1 else GraspSelection.Min(|neighbours|, window)
  }

  /** A route whose last stop before the final node is a station unloads at least once. */
  lemma StationBeforeReturnUnloads(m: Metric, t: Truck, r: seq<Node>)
    requires |r| >= 2 && IsTransferStation(r[|r| - 2])
    ensures RouteTasks(m, t, r) != []
  {
    assert |TasksUpTo(m, t, r, |r| - 1)| == |TasksUpTo(m, t, r, |r| - 2)| + 1;
  }

  /**
   * Constructed routes imply no unload at all exactly when they serve no area: each route
   * serves an area and unloads at the station before its return.
   */
  lemma NoTasksIffNoAreas(m: Metric, t: Truck, routes: seq<CollectionRoute>, depot: Node, stations: seq<Node>, cap: int)
    requires forall k :: 0 <= k < |routes| ==> ConstructedRoute(routes[k], depot, stations, cap)
    ensures RoutesTasks(m, t, routes) == [] <==> RoutesAreas(routes) == multiset{}
  {
    if routes != [] {
      var last := routes[|routes| - 1];
      assert ConstructedRoute(last, depot, stations, cap);
      StationBeforeReturnUnloads(m, t, last.route);
    }
  }

  /**
   * The construction loop, one route on: the areas still to serve shrink, and the areas served,
   * the number of routes, the routes' construction and the recorded unloads keep their invariants.
   */
  lemma RouteAdded(m: Metric, truck: Truck, depot: Node, stations: seq<Node>, areas0: seq<Node>, areas: seq<Node>,
                   routes: seq<CollectionRoute>, ended: seq<bool>, tasks: seq<TransportTask>,
                   cr: CollectionRoute, routeTasks: seq<TransportTask>, rest: seq<Node>, e: bool)
    requires multiset(areas0) == multiset(areas) + RoutesAreas(routes) && |routes| + |areas| <= |areas0|
    requires AllBuilt(m, truck, depot, stations, routes, ended) && tasks == RoutesTasks(m, truck, routes)
    requires multiset(areas) == multiset(rest) + Areas(cr.route)
    requires BuiltRoute(m, truck, depot, stations, cr, e) && routeTasks == RouteTasks(m, truck, cr.route)
    ensures |rest| < |areas|
    ensures multiset(areas0) == multiset(rest) + RoutesAreas(routes + [cr]) && |routes + [cr]| + |rest| <= |areas0|
    ensures AllBuilt(m, truck, depot, stations, routes + [cr], ended + [e])
    ensures tasks + routeTasks == RoutesTasks(m, truck, routes + [cr])
  {
    assert |multiset(areas)| == |multiset(rest)| + |Areas(cr.route)|;
    RoutesAreasAppend(routes, cr);
    RoutesTasksAppend(m, truck, routes, cr);
    AllBuiltAppend(m, truck, depot, stations, routes, ended, cr, e);
  }

  class VrptSwtsResolver {
    var problemInstance: VrptSwtsInstance
    /** The unloads recorded so far: construction appends to it, GenerateTransportTasks replaces it. */
    var transportTasks: seq<TransportTask>
    const strategy: Strategy
    const rng: RandomSource

    constructor (problemInstance: VrptSwtsInstance, strategy: Strategy, rng: RandomSource)
      ensures this.problemInstance == problemInstance && this.strategy == strategy && this.rng == rng
      ensures transportTasks == []
    {
      this.problemInstance := problemInstance;
      this.strategy := strategy;
      this.rng := rng;
      transportTasks := [];
    }

    /**
     * The next node among the candidates, by the resolver's strategy: the nearest one (first
     * on ties), or one whose strictly closer rivals number fewer than the random window.
     */
    method GetClosestNeighbour(current: Node, neighbours: seq<Node>) returns (closest: Node, distance: real, index: nat)
      requires |neighbours| > 0
      modifies rng
      ensures index < |neighbours| && closest == neighbours[index]
      ensures distance == DistanceBetween(problemInstance.distance, current, closest)
      ensures Selected(strategy, problemInstance.distance, current, neighbours, distance, index)
    {
      match strategy
      case Nearest =>
        closest, distance, index := Greedy.GetClosestNeighbour(problemInstance.distance, current, neighbours);
      case RandomTopK(window) =>
        var draw := rng.Draw();
        var chosen := GraspSelection.GetClosestNeighbour(problemInstance.distance, current, neighbours, window, draw);
        closest, distance, index := chosen.node, chosen.distance, chosen.index;
    }

    /** The look-ahead time of a candidate area, through the station the strategy picks from it. */
    method GetSecureTime(closestArea: Node, closestDistance: real) returns (secureTime: real)
      requires |problemInstance.transferStations| > 0
      requires IsArea(closestArea)
      modifies rng
      ensures exists k ::
        && 0 <= k < |problemInstance.transferStations|
        && Selected(strategy, problemInstance.distance, closestArea, problemInstance.transferStations,
                    DistanceBetween(problemInstance.distance, closestArea, problemInstance.transferStations[k]), k)
        && secureTime == SecureTime(problemInstance.distance, problemInstance.collectionTruck, problemInstance.depot,
                                    closestDistance, closestArea, problemInstance.transferStations[k])
    {
      var closestTs, closestTsDist, k := GetClosestNeighbour(closestArea, problemInstance.transferStations);
      var distanceToDepot := DistanceBetween(problemInstance.distance, closestTs, problemInstance.depot);
      var totalDistance := closestDistance + closestTsDist + distanceToDepot;
      secureTime := Minutes(problemInstance.collectionTruck, totalDistance) + ProcessingTime(closestArea);
    }

    /**
     * The next candidate of the construction: the area the strategy picks from current and its
     * look-ahead time. From the depot, every area of a feasible instance fits an empty truck
     * and an unspent working day.
     */
    method NextCandidate(m: Metric, truck: Truck, depot: Node, ghost stations: seq<Node>, current: Node, areas: seq<Node>)
      returns (area: Node, distance: real, index: nat, secureTime: real)
      requires m == problemInstance.distance && truck == problemInstance.collectionTruck
      requires depot == problemInstance.depot && stations == problemInstance.transferStations
      requires Feasible(strategy, m, truck, depot, stations, areas) && |areas| > 0
      modifies rng
      ensures index < |areas| && area == areas[index]
      ensures distance == DistanceBetween(m, current, area)
      ensures IsArea(area) && Demand(area) <= truck.capacity
      ensures current == depot ==> secureTime <= truck.workDuration as real
    {
      area, distance, index := GetClosestNeighbour(current, areas);
      assert area in areas;
      secureTime := GetSecureTime(area, distance);
      ghost var k :| 0 <= k < |stations| && Selected(strategy, m, area, stations, DistanceBetween(m, area, stations[k]), k)
        && secureTime == SecureTime(m, truck, depot, distance, area, stations[k]);
      FeasibleFromDepot(strategy, m, truck, depot, stations, areas, area, k);
    }

    /**
     * A detour from the last node to the nearest station: the load since the previous station
     * becomes an unload, arriving after the drive, and the truck is empty again.
     */
    method DetourToStation(m: Metric, truck: Truck, depot: Node, ghost stations: seq<Node>, d: Draft,
                           ghost unloads: seq<TransportTask>)
      returns (next: Draft, unload: TransportTask)
      requires m == problemInstance.distance && truck == problemInstance.collectionTruck
      requires stations == problemInstance.transferStations && |stations| > 0
      requires forall ts :: ts in stations ==> IsTransferStation(ts)
      requires Building(m, truck, depot, stations, d, unloads)
      modifies rng
      ensures Building(m, truck, depot, stations, next, unloads + [unload])
      ensures Areas(next.route) == Areas(d.route)
      ensures next.truckCapacity == truck.capacity
      ensures IsTransferStation(next.route[|next.route| - 1])
    {
      var current := d.route[|d.route| - 1];
      var closestTs, closestTsDistance, _ := GetClosestNeighbour(current, problemInstance.transferStations);
      BuildingStation(m, truck, depot, stations, d, unloads, closestTs, closestTsDistance);
      unload := StationUnload(truck, d, closestTs, closestTsDistance);
      next := NextAtStation(truck, d, closestTs, closestTsDistance);
      assert next.route == d.route + [closestTs];
    }

    /**
     * Collection routes, built one after another until no area is left. Every area of the
     * instance ends up in exactly one route, no route is empty of areas, and the recorded
     * unloads grow by those of each route in turn. Each route's time is as BuildCollectionRoute
     * describes, with endedAtStation[k] telling whether route k's construction stopped at a station.
     */
    method BuildCollectionRoutes() returns (routes: seq<CollectionRoute>, ghost endedAtStation: seq<bool>)
      requires ConstructionFeasible(problemInstance, strategy)
      modifies this, problemInstance, rng
      ensures problemInstance == old(problemInstance)
      ensures problemInstance.transferStations == old(problemInstance.transferStations)
      ensures problemInstance.collectionAreas == []
      ensures RoutesAreas(routes) == multiset(old(problemInstance.collectionAreas))
      ensures |routes| <= |old(problemInstance.collectionAreas)|
      ensures |endedAtStation| == |routes|
      ensures forall k :: 0 <= k < |routes| ==>
        BuiltRoute(problemInstance.distance, problemInstance.collectionTruck, problemInstance.depot,
                   problemInstance.transferStations, routes[k], endedAtStation[k])
      ensures transportTasks == old(transportTasks) + RoutesTasks(problemInstance.distance, problemInstance.collectionTruck, routes)
    {
      var inst := problemInstance;
      var tasks;
      routes, tasks, endedAtStation := ConstructRoutes(inst.distance, inst.collectionTruck, inst.depot,
                                                       inst.transferStations, inst.collectionAreas);
      inst.collectionAreas := [];
      transportTasks := transportTasks + tasks;
    }

    /** The loop of BuildCollectionRoutes, on the instance's parts: routes until no area is left. */
    method ConstructRoutes(m: Metric, truck: Truck, depot: Node, ghost stations: seq<Node>, areas0: seq<Node>)
      returns (routes: seq<CollectionRoute>, tasks: seq<TransportTask>, ghost endedAtStation: seq<bool>)
      requires m == problemInstance.distance && truck == problemInstance.collectionTruck
      requires depot == problemInstance.depot && stations == problemInstance.transferStations
      requires Feasible(strategy, m, truck, depot, stations, areas0)
      modifies rng
      ensures RoutesAreas(routes) == multiset(areas0)
      ensures |routes| <= |areas0|
      ensures AllBuilt(m, truck, depot, stations, routes, endedAtStation)
      ensures tasks == RoutesTasks(m, truck, routes)
    {
      var areas := areas0;
      tasks := [];
      routes := [];
      endedAtStation := [];
      while |areas| != 0
        invariant Feasible(strategy, m, truck, depot, stations, areas)
        invariant multiset(areas0) == multiset(areas) + RoutesAreas(routes)
        invariant |routes| + |areas| <= |areas0|
        invariant AllBuilt(m, truck, depot, stations, routes, endedAtStation)
        invariant tasks == RoutesTasks(m, truck, routes)
        decreases |areas|
      {
        var cr, routeTasks, rest;
        ghost var ended;
        cr, routeTasks, rest, ended := BuildCollectionRoute(m, truck, depot, stations, areas);
        RouteAdded(m, truck, depot, stations, areas0, areas, routes, endedAtStation, tasks, cr, routeTasks, rest, ended);
        routes := routes + [cr];
        endedAtStation := endedAtStation + [ended];
        tasks := tasks + routeTasks;
        areas := rest;
      }
    }

    /**
     * One collection route, built from the depot by repeatedly taking the next area while it
     * fits the remaining capacity and its look-ahead time fits the remaining time, detouring
     * to the nearest station when only the capacity is exhausted, and ending as soon as the
     * areas run out or the time does. The areas not visited are returned, and so are the
     * route's unloads, one per station visit. The route's time is its driving plus service
     * time, except that a route whose construction ended at a station leaves out its last
     * leg, from that station back to the depot.
     */
    method BuildCollectionRoute(m: Metric, truck: Truck, depot: Node, ghost stations: seq<Node>, areas: seq<Node>)
      returns (cr: CollectionRoute, routeTasks: seq<TransportTask>, remaining: seq<Node>, ghost endedAtStation: bool)
      requires m == problemInstance.distance && truck == problemInstance.collectionTruck
      requires depot == problemInstance.depot && stations == problemInstance.transferStations
      requires Feasible(strategy, m, truck, depot, stations, areas) && |areas| > 0
      modifies rng
      ensures multiset(areas) == multiset(remaining) + Areas(cr.route)
      ensures Feasible(strategy, m, truck, depot, stations, remaining)
      ensures BuiltRoute(m, truck, depot, stations, cr, endedAtStation)
      ensures routeTasks == RouteTasks(m, truck, cr.route)
    {
      var draft, unloads;
      draft, unloads, remaining := ExtendCollectionRoute(m, truck, depot, stations, areas);
      cr, routeTasks, endedAtStation := CloseCollectionRoute(m, truck, depot, stations, draft, unloads);
    }

    /**
     * The growing part of a collection route: from the depot, take the candidate area while
     * it fits the remaining capacity and its look-ahead time fits the remaining time; when only
     * the capacity is exhausted, detour to a station; stop when the areas or the time run out.
     * The areas left over are returned; the route holds at least one area.
     */
    method ExtendCollectionRoute(m: Metric, truck: Truck, depot: Node, ghost stations: seq<Node>, areas0: seq<Node>)
      returns (draft: Draft, unloads: seq<TransportTask>, areas: seq<Node>)
      requires m == problemInstance.distance && truck == problemInstance.collectionTruck
      requires depot == problemInstance.depot && stations == problemInstance.transferStations
      requires Feasible(strategy, m, truck, depot, stations, areas0) && |areas0| > 0
      modifies rng
      ensures Feasible(strategy, m, truck, depot, stations, areas)
      ensures Building(m, truck, depot, stations, draft, unloads)
      ensures multiset(areas0) == multiset(areas) + Areas(draft.route)
      ensures Areas(draft.route) != multiset{}
    {
      areas := areas0;
      draft := StartDraft(truck, depot);
      unloads := [];
      ghost var added := false;
      var outOfTime := false;
      BuildingStart(m, truck, depot, stations);
      while !outOfTime && |areas| != 0
        invariant Feasible(strategy, m, truck, depot, stations, areas)
        invariant Building(m, truck, depot, stations, draft, unloads)
        invariant multiset(areas0) == multiset(areas) + Areas(draft.route)
        invariant !added ==> draft == StartDraft(truck, depot) && areas == areas0
        invariant added ==> Areas(draft.route) != multiset{}
        invariant outOfTime ==> added
        decreases |areas|, !outOfTime, draft.truckCapacity < truck.capacity
      {
        var currentArea := draft.route[|draft.route| - 1];
        var closestNeighbour, closestDistance, closestIndex, secureTime := NextCandidate(m, truck, depot, stations, currentArea, areas);
        if Demand(closestNeighbour) <= draft.truckCapacity && secureTime <= draft.routeTime {
          TakeArea(strategy, m, truck, depot, stations, areas0, areas, draft, unloads, closestIndex, closestNeighbour, closestDistance);
          draft := NextAtArea(truck, draft, closestNeighbour, closestDistance);
          areas := RemoveAt(areas, closestIndex);
          added := true;
        } else if secureTime <= draft.routeTime {
          var unload;
          draft, unload := DetourToStation(m, truck, depot, stations, draft, unloads);
          unloads := unloads + [unload];
        } else {
          outOfTime := true;
        }
      }
    }

    /**
     * The end of a collection route: a route that did not stop at a station goes to the
     * nearest one, unloads, and returns to the depot, paying both legs; one that stopped at a
     * station returns to the depot without that last leg counted in its time. The unloads
     * returned are all those of the finished route.
     */
    method CloseCollectionRoute(m: Metric, truck: Truck, depot: Node, ghost stations: seq<Node>, d: Draft,
                                unloads: seq<TransportTask>)
      returns (cr: CollectionRoute, routeTasks: seq<TransportTask>, ghost endedAtStation: bool)
      requires m == problemInstance.distance && truck == problemInstance.collectionTruck
      requires stations == problemInstance.transferStations
      requires |stations| > 0 && IsDepot(depot)
      requires forall ts :: ts in stations ==> IsTransferStation(ts)
      requires Building(m, truck, depot, stations, d, unloads)
      requires Areas(d.route) != multiset{}
      modifies rng
      ensures ConstructedRoute(cr, depot, stations, truck.capacity)
      ensures Areas(cr.route) == Areas(d.route)
      ensures cr.routeTime == RouteCost(m, truck, cr.route)
        - if endedAtStation then TravelTime(m, truck, cr.route[|cr.route| - 2], cr.route[|cr.route| - 1]) else 0.0
      ensures routeTasks == RouteTasks(m, truck, cr.route)
    {
      if !IsTransferStation(d.route[|d.route| - 1]) {
        var atStation, unload := DetourToStation(m, truck, depot, stations, d, unloads);
        var returnTime := Minutes(truck, DistanceBetween(m, atStation.route[|atStation.route| - 1], depot));
        routeTasks := unloads + [unload];
        cr := CollectionRoute(atStation.route + [depot], atStation.subRoutes, atStation.timeCount + returnTime);
        BuildingClose(m, truck, depot, stations, atStation, routeTasks, cr);
        endedAtStation := false;
      } else {
        routeTasks := unloads;
        cr := CollectionRoute(d.route + [depot], d.subRoutes, d.timeCount);
        BuildingClose(m, truck, depot, stations, d, unloads, cr);
        endedAtStation := true;
      }
    }

    /** The unloads one route implies, walking it node by node as GenerateTransportTasks does. */
    method RouteTransportTasks(route: seq<Node>) returns (routeTasks: seq<TransportTask>)
      ensures routeTasks == RouteTasks(problemInstance.distance, problemInstance.collectionTruck, route)
    {
      var m, truck := problemInstance.distance, problemInstance.collectionTruck;
      routeTasks := [];
      if route == [] {
        return;
      }
      var timeCount := 0.0;
      var wasteAmount := 0;
      var i := 0;
      while i < |route| - 1
        invariant 0 <= i <= |route| - 1
        invariant routeTasks == TasksUpTo(m, truck, route, i)
        invariant timeCount == Travel(m, truck, route[..i + 1]) + Processing(route[..i])
        invariant wasteAmount == Waste(route[..i])
      {
        var currentNode, nextNode := route[i], route[i + 1];
        if IsTransferStation(currentNode) {
          routeTasks := routeTasks + [TransportTask(wasteAmount, currentNode, timeCount)];
          wasteAmount := 0;
        }
        if IsArea(currentNode) {
          timeCount := timeCount + ProcessingTime(currentNode);
          wasteAmount := wasteAmount + Demand(currentNode);
        }
        timeCount := timeCount + TravelTime(m, truck, currentNode, nextNode);
        TaskGenerationStep(m, truck, route, i);
        i := i + 1;
      }
    }

    /**
     * The unloads every route implies (see RouteTasks), which also become the resolver's
     * recorded unloads.
     */
    method GenerateTransportTasks(collectionRoutes: seq<CollectionRoute>) returns (tasks: seq<TransportTask>)
      modifies this
      ensures tasks == RoutesTasks(problemInstance.distance, problemInstance.collectionTruck, collectionRoutes)
      ensures transportTasks == tasks
      ensures problemInstance == old(problemInstance)
    {
      var m, truck := problemInstance.distance, problemInstance.collectionTruck;
      tasks := [];
      var k := 0;
      while k < |collectionRoutes|
        invariant 0 <= k <= |collectionRoutes|
        invariant tasks == RoutesTasks(m, truck, collectionRoutes[..k])
        invariant problemInstance == old(problemInstance)
      {
        var routeTasks := RouteTransportTasks(collectionRoutes[k].route);
        RoutesTasksPrefix(m, truck, collectionRoutes, k);
        tasks := tasks + routeTasks;
        k := k + 1;
      }
      assert collectionRoutes[..k] == collectionRoutes;
      transportTasks := tasks;
    }


    /**
     * The transport plan for the recorded unloads: taken in order of arrival, each goes to
     * the cheapest open vehicle that can serve it or to a new vehicle (see AssignTask), and
     * at the end every vehicle returns to the dumpsite and has its time worked set. With no
     * unloads recorded the smallest unload quantity is undefined and planning fails.
     */
    method BuildTransportRoutes() returns (result: Result<seq<TransportTruck>>)
      requires IsDumpsite(problemInstance.dumpsite)
      ensures result.Failure? <==> transportTasks == []
      ensures result.Success? ==>
        TransportPlan(result.value, transportTasks, problemInstance.transportTruck, problemInstance.dumpsite, problemInstance.distance)
    {
      result := PlanTransport(transportTasks, problemInstance.transportTruck, problemInstance.dumpsite, problemInstance.distance);
    }

    /**
     * Construction followed by the transport plan for every unload recorded so far, which
     * construction extends with the unloads of its own routes. The routes serve every area the
     * instance had; planning fails exactly when nothing was recorded before and the instance
     * had no area.
     */
    method BuildRoutes() returns (result: Result<Routes>)
      requires ConstructionFeasible(problemInstance, strategy) && IsDumpsite(problemInstance.dumpsite)
      modifies this, problemInstance, rng
      ensures problemInstance == old(problemInstance) && problemInstance.collectionAreas == []
      ensures result.Failure? <==> old(transportTasks) == [] && old(problemInstance.collectionAreas) == []
      ensures result.Success? ==>
        && RoutesAreas(result.value.collectionRoutes) == multiset(old(problemInstance.collectionAreas))
        && transportTasks
           == old(transportTasks) + RoutesTasks(problemInstance.distance, problemInstance.collectionTruck, result.value.collectionRoutes)
        && TransportPlan(result.value.transportTrucks, transportTasks, problemInstance.transportTruck,
                         problemInstance.dumpsite, problemInstance.distance)
    {
      var collectionRoutes, ended := BuildCollectionRoutes();
      var inst := problemInstance;
      forall k | 0 <= k < |collectionRoutes|
        ensures ConstructedRoute(collectionRoutes[k], inst.depot, inst.transferStations, inst.collectionTruck.capacity)
      {
        assert BuiltRoute(inst.distance, inst.collectionTruck, inst.depot, inst.transferStations, collectionRoutes[k], ended[k]);
      }
      NoTasksIffNoAreas(inst.distance, inst.collectionTruck, collectionRoutes, inst.depot, inst.transferStations,
                        inst.collectionTruck.capacity);
      var transportTrucks := BuildTransportRoutes();
      if transportTrucks.Failure? {
        result := Failure(transportTrucks.error);
      } else {
        result := Success(Routes(collectionRoutes, transportTrucks.value));
      }
    }
  }
}
