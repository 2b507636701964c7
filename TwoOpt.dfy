/**
 * 2-opt within a route: the nodes strictly after a lower bound up to an upper bound are visited
 * in reverse order. The new time is computed from the two replaced edges, the reversed route is
 * checked against the work duration, the last stop and the capacity, and a stop left directly
 * after another stop at either bound is dropped.
 */
module TwoOpt {
  import opened Wrappers
  import opened Graph
  import opened Lists
  import opened Routing
  import opened Solutions
  import opened SubRoutes
  import opened Neighbourhoods

  /**
   * The route time after reversing the nodes after lb up to ub: the edges out of lb and out of
   * ub are replaced by the edges from lb to ub and from lb + 1 to ub + 1.
   */
  function CalculateNewRouteTime(m: Metric, t: Truck, r: seq<Node>, time: real, lb: nat, ub: nat): real
    requires lb < ub < |r| - 1
  {
    time - TravelTime(m, t, r[lb], r[lb + 1]) - TravelTime(m, t, r[ub], r[ub + 1])
         + TravelTime(m, t, r[lb], r[ub]) + TravelTime(m, t, r[lb + 1], r[ub + 1])
  }

  /** The route with the nodes after lb up to ub in reverse order. */
  function Reversal(r: seq<Node>, lb: nat, ub: nat): (v: seq<Node>)
    requires lb < ub < |r|
    ensures |v| == |r|
  {
    ReverseRange(r, lb + 1, ub - lb)
  }

  /**
   * The incremental time is exact: it changes the time by exactly the change in route cost. The
   * reversed part is driven the other way round, so this needs symmetric distances.
   */
  lemma NewRouteTimeExact(m: Metric, t: Truck, r: seq<Node>, time: real, lb: nat, ub: nat)
    requires Symmetric(m) && lb < ub < |r| - 1
    ensures CalculateNewRouteTime(m, t, r, time, lb, ub) - time
         == RouteCost(m, t, Reversal(r, lb, ub)) - RouteCost(m, t, r)
  {
    TravelReverseRange(m, t, r, lb + 1, ub);
  }

  /**
   * Reversing an inner part of a workable route gives a route that serves the same areas, and a
   * workable one when a stop still comes just before the return.
   */
  lemma ReversalSound(r: seq<Node>, lb: nat, ub: nat)
    requires SearchRoute(r) && lb < ub < |r| - 1
    ensures Reversal(r, lb, ub)[0] == r[0] && Reversal(r, lb, ub)[|r| - 1] == r[|r| - 1]
    ensures Areas(Reversal(r, lb, ub)) == Areas(r)
    ensures !IsArea(Reversal(r, lb, ub)[|r| - 2]) ==> SearchRoute(Reversal(r, lb, ub))
  {
    ReversalPermutes(r, lb, ub);
    PermutationSound(r, Reversal(r, lb, ub));
  }

  /** A reversal is a permutation of the route that keeps its first and last node. */
  lemma ReversalPermutes(r: seq<Node>, lb: nat, ub: nat)
    requires lb < ub < |r| - 1
    ensures Reversal(r, lb, ub)[0] == r[0] && Reversal(r, lb, ub)[|r| - 1] == r[|r| - 1]
    ensures multiset(Reversal(r, lb, ub)) == multiset(r)
  {
    ReversalKeepsEnds(r, lb, ub);
    ReverseRangesMultiset<Node>();
  }

  /** A permutation of a workable route with the same ends serves the same areas. */
  lemma PermutationSound(r: seq<Node>, v: seq<Node>)
    requires SearchRoute(r) && |v| == |r| && multiset(v) == multiset(r)
    requires v[0] == r[0] && v[|v| - 1] == r[|r| - 1]
    ensures Areas(v) == Areas(r)
    ensures !IsArea(v[|v| - 2]) ==> SearchRoute(v)
  {
    AreasPermutation(v, r);
    if !IsArea(v[|v| - 2]) {
      PermutedSearchRoute(r, v);
    }
  }

  /** A reversal keeps the first and the last node. */
  lemma ReversalKeepsEnds<T>(r: seq<T>, lb: nat, ub: nat)
    requires lb < ub < |r| - 1
    ensures ReverseRange(r, lb + 1, ub - lb)[0] == r[0]
    ensures ReverseRange(r, lb + 1, ub - lb)[|r| - 1] == r[|r| - 1]
  {
    var w := ReverseRange(r, lb + 1, ub - lb);
    var a, b := r[..lb + 1], Reversed(r[lb + 1..ub + 1]) + r[ub + 1..];
    assert w == a + b;
    assert w[0] == a[0];
    assert w[|r| - 1] == b[|b| - 1];
  }

  /**
   * The clean-up after a reversal: when the node at bound and the one after it are both stops
   * and a node follows them, the second stop is dropped and the time corrected. This guards the
   * bound as the engine evidently intends (see RemoveUnnecessaryNodesAsWritten).
   */
  function RemoveUnnecessaryNodes(m: Metric, t: Truck, r: seq<Node>, bound: nat, time: real): (seq<Node>, real)
  {
    if bound + 2 >= |r| then (r, time)
    else if !IsArea(r[bound]) && !IsArea(r[bound + 1]) then DropStop(m, t, r, bound + 1, time)
    else (r, time)
  }

  /**
   * The clean-up serves the same areas, corrects the time by exactly the change in cost, keeps a
   * workable route workable and within the capacity, and never lengthens a route under the
   * triangle inequality.
   */
  lemma RemoveUnnecessaryNodesSound(m: Metric, t: Truck, r: seq<Node>, bound: nat, time: real, cap: int)
    ensures Areas(RemoveUnnecessaryNodes(m, t, r, bound, time).0) == Areas(r)
    ensures RemoveUnnecessaryNodes(m, t, r, bound, time).1 - time
         == RouteCost(m, t, RemoveUnnecessaryNodes(m, t, r, bound, time).0) - RouteCost(m, t, r)
    ensures SearchRoute(r) ==> SearchRoute(RemoveUnnecessaryNodes(m, t, r, bound, time).0)
    ensures WellFormedRoute(r) && CapacityRespected(r, cap)
         ==> CapacityRespected(RemoveUnnecessaryNodes(m, t, r, bound, time).0, cap)
    ensures TriangleInequality(m) ==> RemoveUnnecessaryNodes(m, t, r, bound, time).1 <= time
  {
    if bound + 2 < |r| && !IsArea(r[bound]) && !IsArea(r[bound + 1]) {
      DropStopSound(m, t, r, bound + 1, time);
      if WellFormedRoute(r) && CapacityRespected(r, cap) {
        DropStopCapacity(m, t, r, bound + 1, time, cap);
      }
    }
  }

  /** The clean-ups at both bounds, the second on the route the first left. */
  function CleanUps(m: Metric, t: Truck, v: seq<Node>, lb: nat, ub: nat, time: real): (seq<Node>, real)
  {
    var c := RemoveUnnecessaryNodes(m, t, v, lb, time);
    RemoveUnnecessaryNodes(m, t, c.0, ub, c.1)
  }

  /** Both clean-ups together keep everything each of them keeps. */
  lemma CleanUpsSound(m: Metric, t: Truck, v: seq<Node>, lb: nat, ub: nat, time: real, cap: int)
    ensures Areas(CleanUps(m, t, v, lb, ub, time).0) == Areas(v)
    ensures CleanUps(m, t, v, lb, ub, time).1 - time
         == RouteCost(m, t, CleanUps(m, t, v, lb, ub, time).0) - RouteCost(m, t, v)
    ensures SearchRoute(v) ==> SearchRoute(CleanUps(m, t, v, lb, ub, time).0)
    ensures SearchRoute(v) && CapacityRespected(v, cap) ==> CapacityRespected(CleanUps(m, t, v, lb, ub, time).0, cap)
    ensures TriangleInequality(m) ==> CleanUps(m, t, v, lb, ub, time).1 <= time
  {
    var c := RemoveUnnecessaryNodes(m, t, v, lb, time);
    RemoveUnnecessaryNodesSound(m, t, v, lb, time, cap);
    RemoveUnnecessaryNodesSound(m, t, c.0, ub, c.1, cap);
  }

  /**
   * The clean-up as the engine writes it: it returns early only when bound is the last but one
   * position, so at the last position it reads past the end of the route. None stands for that
   * out-of-range read.
   */
  function RemoveUnnecessaryNodesAsWritten(m: Metric, t: Truck, r: seq<Node>, bound: nat, time: real)
    : Option<(seq<Node>, real)>
  {
    if bound == |r| - 2 then Some((r, time))
    else if bound >= |r| then None
    else if IsArea(r[bound]) then Some((r, time))
    else if bound + 1 >= |r| then None
    else if !IsArea(r[bound + 1]) then Some(DropStop(m, t, r, bound + 1, time))
    else Some((r, time))
  }

  /** Both clean-ups as the engine runs them, the second on the route the first left. */
  function CleanUpsAsWritten(m: Metric, t: Truck, r: seq<Node>, lb: nat, ub: nat, time: real)
    : Option<(seq<Node>, real)>
  {
    match RemoveUnnecessaryNodesAsWritten(m, t, r, lb, time)
    case None => None
    case Some(c) => RemoveUnnecessaryNodesAsWritten(m, t, c.0, ub, c.1)
  }

  /**
   * On a reversed route the engine's clean-ups fail exactly when the first one dropped a stop
   * and the upper bound was the last but one position; otherwise they do what the guarded
   * clean-ups do.
   */
  lemma CleanUpsAsWrittenFail(m: Metric, t: Truck, v: seq<Node>, lb: nat, ub: nat, time: real)
    requires lb + 2 <= ub <= |v| - 2 && !IsArea(v[|v| - 1])
    ensures CleanUpsAsWritten(m, t, v, lb, ub, time).None?
        <==> !IsArea(v[lb]) && !IsArea(v[lb + 1]) && ub == |v| - 2
    ensures CleanUpsAsWritten(m, t, v, lb, ub, time).Some? ==>
      CleanUpsAsWritten(m, t, v, lb, ub, time).value == CleanUps(m, t, v, lb, ub, time)
  {
    var c := RemoveUnnecessaryNodes(m, t, v, lb, time);
    assert RemoveUnnecessaryNodesAsWritten(m, t, v, lb, time) == Some(c);
    if !IsArea(v[lb]) && !IsArea(v[lb + 1]) {
      assert c.0[|c.0| - 1] == v[|v| - 1];
    }
  }

  /**
   * The reversal is feasible when it keeps within the work duration, leaves a stop just before
   * the return and keeps the whole route within the capacity. The engine checks the capacity of
   * one sub-route only (see FeasibleAsWritten).
   */
  ghost predicate Feasible(m: Metric, t: Truck, r: seq<Node>, time: real, lb: nat, ub: nat)
    requires lb < ub < |r| - 1
  {
    var v := Reversal(r, lb, ub);
    && CalculateNewRouteTime(m, t, r, time, lb, ub) <= t.workDuration as real
    && !IsArea(v[|v| - 2])
    && CapacityRespected(v, t.capacity)
  }

  /** The engine's test: like Feasible, but only the sub-route holding lb + 1 is checked. */
  ghost predicate FeasibleAsWritten(m: Metric, t: Truck, r: seq<Node>, time: real, lb: nat, ub: nat)
    requires lb < ub < |r| - 1
  {
    && CalculateNewRouteTime(m, t, r, time, lb, ub) <= t.workDuration as real
    && AcceptedAsWritten(Reversal(r, lb, ub), lb + 1, t.capacity)
  }

  /** What the engine checks of the reversed route v: no area just before the depot, and the sub-route holding p fits. */
  ghost predicate AcceptedAsWritten(v: seq<Node>, p: nat, cap: int)
    requires 2 <= |v| && p < |v|
  {
    && !IsArea(v[|v| - 2])
    && StopBefore(v, p)
    && SubRouteFits(v, SubRouteStart(v, p), cap)
  }

  /** Distances that are all zero: every move keeps within any work duration. */
  function ZeroMetric(): Metric
  {
    (p: Point, q: Point) => 0.0
  }

  function Stop(id: string, kind: NodeKind): Node
  {
    Node(id, Point(0, 0), kind)
  }

  /** Depot, TS1, an area, TS2, depot. */
  function CleanUpExample(): seq<Node>
  {
    [Stop("0", DepotNode), Stop("TS1", TransferStation), Stop("1", CollectionArea(1, 0.0)),
     Stop("TS2", TransferStation), Stop("0", DepotNode)]
  }

  /** Reversing positions 1 to 3 of the example swaps TS1 and TS2. */
  lemma CleanUpExampleReversal()
    ensures
      var r, v := CleanUpExample(), Reversal(CleanUpExample(), 0, 3);
      v[0] == r[0] && v[1] == r[3] && v[2] == r[2] && v[3] == r[1] && v[4] == r[4]
  {
    ReverseRangeAt(CleanUpExample(), 1, 3);
  }

  /** The engine accepts reversing positions 1 to 3 of the example: TS2 now opens a run within capacity. */
  lemma CleanUpExampleFeasible()
    ensures FeasibleAsWritten(ZeroMetric(), Truck(10, 0, 1), CleanUpExample(), 0.0, 0, 3)
  {
    var r, t := CleanUpExample(), Truck(10, 0, 1);
    CleanUpExampleReversal();
    var v := Reversal(r, 0, 3);
    assert CalculateNewRouteTime(ZeroMetric(), t, r, 0.0, 0, 3) == 0.0;
    StopBeforeStart(v, 1);
    assert SubRouteStart(v, 1) == 1;
    assert RunEnd(v, 2) == 3;
    assert Load(v, 2, 3) == 1;
  }

  /** On the reversed example the first clean-up drops TS2 and the second one fails. */
  lemma CleanUpExampleFails(time: real)
    ensures CleanUpsAsWritten(ZeroMetric(), Truck(10, 0, 1), Reversal(CleanUpExample(), 0, 3), 0, 3, time).None?
  {
    CleanUpExampleReversal();
    CleanUpsAsWrittenFail(ZeroMetric(), Truck(10, 0, 1), Reversal(CleanUpExample(), 0, 3), 0, 3, time);
  }

  /**
   * Reversing the nodes after the depot up to the last transfer station of
   * depot, TS1, area, TS2, depot passes the engine's test, the first clean-up drops TS2 and the
   * engine's second clean-up then reads past the end of the shortened route.
   */
  lemma SecondCleanUpOutOfRange()
    ensures
      var r := CleanUpExample();
      var t := Truck(10, 0, 1);
      && SearchRoute(r)
      && FeasibleAsWritten(ZeroMetric(), t, r, 0.0, 0, 3)
      && CleanUpsAsWritten(ZeroMetric(), t, Reversal(r, 0, 3), 0, 3,
                           CalculateNewRouteTime(ZeroMetric(), t, r, 0.0, 0, 3)).None?
  {
    CleanUpExampleFeasible();
    CleanUpExampleFails(CalculateNewRouteTime(ZeroMetric(), Truck(10, 0, 1), CleanUpExample(), 0.0, 0, 3));
  }

  /** Depot, A1 (6), TS1, A2 (4), A3 (6), TS2, depot: a route within a capacity of 10. */
  function NarrowExample(): seq<Node>
  {
    [Stop("0", DepotNode), Stop("1", CollectionArea(6, 0.0)), Stop("TS1", TransferStation),
     Stop("2", CollectionArea(4, 0.0)), Stop("3", CollectionArea(6, 0.0)),
     Stop("TS2", TransferStation), Stop("0", DepotNode)]
  }

  lemma NarrowExampleFits()
    ensures SearchRoute(NarrowExample()) && CapacityRespected(NarrowExample(), 10)
  {
    var r := NarrowExample();
    WastePrefix(r, 0); WastePrefix(r, 1); WastePrefix(r, 2); WastePrefix(r, 3); WastePrefix(r, 4);
    assert r[..0] == [];
  }

  /** Reversing its nodes after the depot up to A2 gives depot, A2, TS1, A1, A3, TS2, depot. */
  lemma NarrowExampleReversal()
    ensures Reversal(NarrowExample(), 0, 3)
         == [NarrowExample()[0], NarrowExample()[3], NarrowExample()[2], NarrowExample()[1]] + NarrowExample()[4..]
  {
    ReverseRangeAt(NarrowExample(), 1, 3);
  }

  /** The engine accepts the reversal: the sub-route of A2 starts at the depot and carries 4. */
  lemma NarrowReversalAccepted()
    ensures FeasibleAsWritten(ZeroMetric(), Truck(10, 0, 1), NarrowExample(), 0.0, 0, 3)
  {
    NarrowExampleReversal();
    var v := Reversal(NarrowExample(), 0, 3);
    assert CalculateNewRouteTime(ZeroMetric(), Truck(10, 0, 1), NarrowExample(), 0.0, 0, 3) == 0.0;
    StopBeforeStart(v, 1);
    assert SubRouteStart(v, 1) == 0;
    assert RunEnd(v, 1) == 2;
    assert Load(v, 1, 2) == 4;
  }

  /** After the reversal A1 and A3 share a sub-route: 12 is on board after A3. */
  lemma NarrowReversalOverloaded()
    ensures !CapacityRespected(Reversal(NarrowExample(), 0, 3), 10)
  {
    NarrowExampleReversal();
    var v := Reversal(NarrowExample(), 0, 3);
    WastePrefix(v, 2); WastePrefix(v, 3); WastePrefix(v, 4);
    assert IsArea(v[4]) && Waste(v[..5]) == 12;
  }

  /**
   * With capacity 10, reversing the nodes after the depot up to A2 in NarrowExample passes the
   * engine's test, which looks at the sub-route of A2 only, while A1 and A3 now share a
   * sub-route that carries 12.
   */
  lemma CapacityCheckTooNarrow()
    ensures SearchRoute(NarrowExample()) && CapacityRespected(NarrowExample(), 10)
    ensures FeasibleAsWritten(ZeroMetric(), Truck(10, 0, 1), NarrowExample(), 0.0, 0, 3)
    ensures !CapacityRespected(Reversal(NarrowExample(), 0, 3), 10)
    ensures !Feasible(ZeroMetric(), Truck(10, 0, 1), NarrowExample(), 0.0, 0, 3)
  {
    NarrowExampleFits();
    NarrowReversalAccepted();
    NarrowReversalOverloaded();
  }

  /**
   * The route a reversal yields, if it is feasible: the reversed route after the clean-ups at
   * both bounds, with the corrected time.
   */
  ghost function Neighbour(m: Metric, t: Truck, cr: CollectionRoute, lb: nat, ub: nat): Option<CollectionRoute>
    requires lb < ub < |cr.route| - 1
  {
    if !Feasible(m, t, cr.route, cr.routeTime, lb, ub) then None
    else
      var c := CleanUps(m, t, Reversal(cr.route, lb, ub), lb, ub,
                        CalculateNewRouteTime(m, t, cr.route, cr.routeTime, lb, ub));
      Some(CollectionRoute(c.0, [], c.1))
  }

  /**
   * A neighbour of a workable route is workable, serves the same areas and keeps within the
   * capacity; under the triangle inequality it keeps within the work duration, and with
   * symmetric distances its time differs from the old one by exactly the change in cost.
   */
  lemma NeighbourSound(m: Metric, t: Truck, cr: CollectionRoute, lb: nat, ub: nat)
    requires SearchRoute(cr.route) && lb < ub < |cr.route| - 1
    ensures Neighbour(m, t, cr, lb, ub).Some? ==>
      var x := Neighbour(m, t, cr, lb, ub).value;
      && SearchRoute(x.route) && Areas(x.route) == Areas(cr.route)
      && CapacityRespected(x.route, t.capacity)
      && (TriangleInequality(m) ==> x.routeTime <= t.workDuration as real)
      && (Symmetric(m) ==> x.routeTime - cr.routeTime == RouteCost(m, t, x.route) - RouteCost(m, t, cr.route))
  {
    var r := cr.route;
    if Feasible(m, t, r, cr.routeTime, lb, ub) {
      var v := Reversal(r, lb, ub);
      var time := CalculateNewRouteTime(m, t, r, cr.routeTime, lb, ub);
      FeasibleReversalSound(m, t, r, cr.routeTime, lb, ub);
      CleanedSound(m, t, r, v, cr.routeTime, time, lb, ub);
      assert Neighbour(m, t, cr, lb, ub).value
          == CollectionRoute(CleanUps(m, t, v, lb, ub, time).0, [], CleanUps(m, t, v, lb, ub, time).1);
    }
  }

  /** A feasible reversal of a workable route is a workable route within both limits. */
  lemma FeasibleReversalSound(m: Metric, t: Truck, r: seq<Node>, time0: real, lb: nat, ub: nat)
    requires SearchRoute(r) && lb < ub < |r| - 1 && Feasible(m, t, r, time0, lb, ub)
    ensures SearchRoute(Reversal(r, lb, ub)) && Areas(Reversal(r, lb, ub)) == Areas(r)
    ensures CapacityRespected(Reversal(r, lb, ub), t.capacity)
    ensures CalculateNewRouteTime(m, t, r, time0, lb, ub) <= t.workDuration as real
    ensures Symmetric(m) ==>
      CalculateNewRouteTime(m, t, r, time0, lb, ub) - time0 == RouteCost(m, t, Reversal(r, lb, ub)) - RouteCost(m, t, r)
  {
    ReversalSound(r, lb, ub);
    if Symmetric(m) {
      NewRouteTimeExact(m, t, r, time0, lb, ub);
    }
  }

  /** Cleaning up a reversed route that is sound keeps it sound. */
  lemma CleanedSound(m: Metric, t: Truck, r: seq<Node>, v: seq<Node>, time0: real, time: real, lb: nat, ub: nat)
    requires SearchRoute(v) && Areas(v) == Areas(r) && CapacityRespected(v, t.capacity)
    requires time <= t.workDuration as real
    requires Symmetric(m) ==> time - time0 == RouteCost(m, t, v) - RouteCost(m, t, r)
    ensures var c := CleanUps(m, t, v, lb, ub, time);
      && SearchRoute(c.0) && Areas(c.0) == Areas(r) && CapacityRespected(c.0, t.capacity)
      && (TriangleInequality(m) ==> c.1 <= t.workDuration as real)
      && (Symmetric(m) ==> c.1 - time0 == RouteCost(m, t, c.0) - RouteCost(m, t, r))
  {
    CleanUpsSound(m, t, v, lb, ub, time, t.capacity);
  }

  /**
   * Computes the new time and, when it keeps within the work duration, reverses the range and
   * checks the stop before the return and the capacity of the route.
   */
  method IsFactibleRoute(m: Metric, t: Truck, route: seq<Node>, currentRouteTime: real, lb: nat, ub: nat)
    returns (isFactible: bool, newRoute: seq<Node>, newRouteTime: real)
    requires lb < ub < |route| - 1
    ensures newRouteTime == CalculateNewRouteTime(m, t, route, currentRouteTime, lb, ub)
    ensures newRoute == if newRouteTime > t.workDuration as real then route else Reversal(route, lb, ub)
    ensures isFactible <==> Feasible(m, t, route, currentRouteTime, lb, ub)
  {
    newRouteTime := CalculateNewRouteTime(m, t, route, currentRouteTime, lb, ub);
    newRoute := route;
    if newRouteTime > t.workDuration as real {
      return false, newRoute, newRouteTime;
    }
    newRoute := Reversal(newRoute, lb, ub);
    if IsArea(newRoute[|newRoute| - 2]) {
      return false, newRoute, newRouteTime;
    }
    isFactible := RouteWithinCapacity(newRoute, t.capacity);
  }

  /** The engine's checks of a reversed route v whose ends are stops, after the time check. */
  method CheckAcceptedAsWritten(v: seq<Node>, p: nat, cap: int) returns (accepted: bool)
    requires EndsAtStops(v) && p < |v| - 1
    ensures accepted <==> AcceptedAsWritten(v, p, cap)
  {
    if IsArea(v[|v| - 2]) {
      return false;
    }
    StopBeforeStart(v, p);
    accepted := IsFactibleCapacity(v, p, cap);
  }

  /** The engine's feasibility test, checking the capacity of the sub-route holding lb + 1 only. */
  method IsFactibleRouteAsWritten(m: Metric, t: Truck, route: seq<Node>, currentRouteTime: real, lb: nat, ub: nat)
    returns (isFactible: bool, newRoute: seq<Node>, newRouteTime: real)
    requires EndsAtStops(route) && lb < ub < |route| - 1
    ensures newRouteTime == CalculateNewRouteTime(m, t, route, currentRouteTime, lb, ub)
    ensures newRoute == if newRouteTime > t.workDuration as real then route else Reversal(route, lb, ub)
    ensures isFactible <==> FeasibleAsWritten(m, t, route, currentRouteTime, lb, ub)
  {
    newRouteTime := CalculateNewRouteTime(m, t, route, currentRouteTime, lb, ub);
    newRoute := route;
    if newRouteTime > t.workDuration as real {
      return false, newRoute, newRouteTime;
    }
    newRoute := Reversal(newRoute, lb, ub);
    ReversalKeepsEnds(route, lb, ub);
    isFactible := CheckAcceptedAsWritten(newRoute, lb + 1, t.capacity);
  }

  /** Builds the neighbour of a reversal, or nothing when it is not feasible. */
  method BuildNeighbour(m: Metric, t: Truck, cr: CollectionRoute, lb: nat, ub: nat)
    returns (neighbour: Option<CollectionRoute>)
    requires lb < ub < |cr.route| - 1
    ensures neighbour == Neighbour(m, t, cr, lb, ub)
  {
    var isFactible, newRoute, newRouteTime := IsFactibleRoute(m, t, cr.route, cr.routeTime, lb, ub);
    if !isFactible {
      return None;
    }
    var cleaned := RemoveUnnecessaryNodes(m, t, newRoute, lb, newRouteTime);
    cleaned := RemoveUnnecessaryNodes(m, t, cleaned.0, ub, cleaned.1);
    assert cleaned == CleanUps(m, t, newRoute, lb, ub, newRouteTime);
    neighbour := Some(CollectionRoute(cleaned.0, [], cleaned.1));
  }

  /** The outcome of every reversal: the neighbour of the reversal in route k between lb and ub. */
  type ReversalOutcomes = (nat, nat, nat) -> Option<CollectionRoute>

  /** The reversal in route k between lb and ub is one the search scans. */
  predicate InScan(routes: Routes, k: nat, lb: nat, ub: nat)
  {
    k < |routes.collectionRoutes| && lb + 2 <= ub < |routes.collectionRoutes[k].route| - 1
  }

  /** The outcome of the reversals of routes: Neighbour on every scanned reversal, None elsewhere. */
  ghost function Outcome(m: Metric, t: Truck, routes: Routes): ReversalOutcomes
  {
    (k: nat, lb: nat, ub: nat) =>
      if InScan(routes, k, lb, ub) then Neighbour(m, t, routes.collectionRoutes[k], lb, ub) else None
  }

  /** f gives the outcome g gives for every scanned reversal. */
  ghost predicate SameOnScan(routes: Routes, f: ReversalOutcomes, g: ReversalOutcomes)
  {
    forall k: nat, lb: nat, ub: nat {:trigger g(k, lb, ub)} | InScan(routes, k, lb, ub) :: f(k, lb, ub) == g(k, lb, ub)
  }

  /** outcome gives the neighbour of the reversal in route k between lb and ub. */
  lemma OutcomeAt(m: Metric, t: Truck, routes: Routes, outcome: ReversalOutcomes, k: nat, lb: nat, ub: nat)
    requires SameOnScan(routes, outcome, Outcome(m, t, routes)) && InScan(routes, k, lb, ub)
    ensures outcome(k, lb, ub) == Neighbour(m, t, routes.collectionRoutes[k], lb, ub)
  {
    assert outcome(k, lb, ub) == Outcome(m, t, routes)(k, lb, ub);
  }

  /** What the search records for the reversal in route k between lb and ub: nothing outside the scanned bounds. */
  ghost function AtBound(routes: Routes, outcome: ReversalOutcomes, k: nat, lb: nat): nat -> seq<Routes>
    requires k < |routes.collectionRoutes|
  {
    (ub: nat) =>
      if lb + 2 <= ub < |routes.collectionRoutes[k].route| - 1
      then Recorded(routes, k, outcome(k, lb, ub))
      else []
  }

  /** What the search records for the reversals in route k from lb: nothing unless three nodes follow lb. */
  ghost function AtLower(routes: Routes, outcome: ReversalOutcomes, k: nat): nat -> seq<Routes>
    requires k < |routes.collectionRoutes|
  {
    (lb: nat) =>
      if lb + 3 < |routes.collectionRoutes[k].route|
      then Gather(AtBound(routes, outcome, k, lb), |routes.collectionRoutes[k].route|)
      else []
  }

  type RouteRecords = nat -> seq<Routes>

  /** What the search records for route k: its reversals, lower bound by lower bound. */
  ghost function Lowers(routes: Routes, outcome: ReversalOutcomes): RouteRecords
  {
    (k: nat) =>
      if k < |routes.collectionRoutes|
      then Gather(AtLower(routes, outcome, k), |routes.collectionRoutes[k].route|)
      else []
  }

  /** lowers records for every route what the search records for it. */
  ghost predicate LowersAgree(routes: Routes, lowers: RouteRecords, outcome: ReversalOutcomes)
  {
    forall k: nat {:trigger Lowers(routes, outcome)(k)} :: lowers(k) == Lowers(routes, outcome)(k)
  }

  lemma LowersAt(routes: Routes, outcome: ReversalOutcomes, lowers: RouteRecords, k: nat)
    requires LowersAgree(routes, lowers, outcome) && k < |routes.collectionRoutes|
    ensures lowers(k) == Gather(AtLower(routes, outcome, k), |routes.collectionRoutes[k].route|)
  {
    assert lowers(k) == Lowers(routes, outcome)(k);
  }

  /**
   * The neighbourhood the search scans at each step, in scanning order: for every route, for
   * every lower bound, the neighbour of every feasible reversal, upper bound by upper bound.
   */
  ghost function Neighbourhood(m: Metric, t: Truck, routes: Routes): seq<Routes>
  {
    Gather(Lowers(routes, Outcome(m, t, routes)), |routes.collectionRoutes|)
  }

  /** What is recorded for a reversal the search scans is in what the whole scan gathers. */
  lemma ReversalCovered(routes: Routes, outcome: ReversalOutcomes, k: nat, lb: nat, ub: nat, x: Routes)
    requires k < |routes.collectionRoutes| && lb + 2 <= ub < |routes.collectionRoutes[k].route| - 1
    requires x in Recorded(routes, k, outcome(k, lb, ub))
    ensures x in Gather(Lowers(routes, outcome), |routes.collectionRoutes|)
  {
    GatherComplete(AtBound(routes, outcome, k, lb), |routes.collectionRoutes[k].route|, ub, x);
    GatherComplete(AtLower(routes, outcome, k), |routes.collectionRoutes[k].route|, lb, x);
    GatherComplete(Lowers(routes, outcome), |routes.collectionRoutes|, k, x);
  }

  /** The neighbourhood holds the neighbour of every feasible reversal in every route. */
  lemma NeighbourhoodComplete(m: Metric, t: Truck, routes: Routes)
    ensures forall k: nat, lb: nat, ub: nat | k < |routes.collectionRoutes| && lb + 2 <= ub < |routes.collectionRoutes[k].route| - 1 && Neighbour(m, t, routes.collectionRoutes[k], lb, ub).Some? ::
      Routes(ReplaceRoute(routes.collectionRoutes, k, Neighbour(m, t, routes.collectionRoutes[k], lb, ub).value), []) in Neighbourhood(m, t, routes)
  {
    var outcome := Outcome(m, t, routes);
    forall k: nat, lb: nat, ub: nat | k < |routes.collectionRoutes| && lb + 2 <= ub < |routes.collectionRoutes[k].route| - 1 && Neighbour(m, t, routes.collectionRoutes[k], lb, ub).Some?
      ensures Routes(ReplaceRoute(routes.collectionRoutes, k, Neighbour(m, t, routes.collectionRoutes[k], lb, ub).value), []) in Gather(Lowers(routes, outcome), |routes.collectionRoutes|)
    {
      assert outcome(k, lb, ub) == Neighbour(m, t, routes.collectionRoutes[k], lb, ub);
      ReversalCovered(routes, outcome, k, lb, ub, Routes(ReplaceRoute(routes.collectionRoutes, k, Neighbour(m, t, routes.collectionRoutes[k], lb, ub).value), []));
    }
  }

  /** Nothing is recorded below lb + 2. */
  lemma BoundStart(routes: Routes, outcome: ReversalOutcomes, k: nat, lb: nat)
    requires k < |routes.collectionRoutes|
    ensures Gather(AtBound(routes, outcome, k, lb), lb + 2) == []
  {
    GatherNone(AtBound(routes, outcome, k, lb), lb + 2);
  }

  /** Once the scan passes the last but one position, the rest of the route records nothing. */
  lemma BoundsGathered(routes: Routes, outcome: ReversalOutcomes, k: nat, lb: nat, ub: nat, gathered: seq<Routes>)
    requires k < |routes.collectionRoutes| && lb + 2 <= ub && |routes.collectionRoutes[k].route| - 1 <= ub
    requires gathered == Gather(AtBound(routes, outcome, k, lb), ub)
    ensures gathered == Gather(AtBound(routes, outcome, k, lb), |routes.collectionRoutes[k].route|)
  {
    if ub <= |routes.collectionRoutes[k].route| {
      GatherSkip(AtBound(routes, outcome, k, lb), ub, |routes.collectionRoutes[k].route|);
    } else {
      GatherSkip(AtBound(routes, outcome, k, lb), |routes.collectionRoutes[k].route|, ub);
    }
  }

  /** Once the scan passes the fourth position from the end, the rest of the route records nothing. */
  lemma LowersGathered(routes: Routes, outcome: ReversalOutcomes, k: nat, lb: nat, gathered: seq<Routes>)
    requires k < |routes.collectionRoutes| && lb <= |routes.collectionRoutes[k].route| && |routes.collectionRoutes[k].route| - 3 <= lb
    requires gathered == Gather(AtLower(routes, outcome, k), lb)
    ensures gathered == Gather(AtLower(routes, outcome, k), |routes.collectionRoutes[k].route|)
  {
    GatherSkip(AtLower(routes, outcome, k), lb, |routes.collectionRoutes[k].route|);
  }

  /**
   * One pass of the scan over upper bounds: the reversal in route k between lb and ub is built,
   * and its neighbour recorded when it is feasible.
   */
  method TryUpperBound(m: Metric, t: Truck, routes: Routes, k: nat, lb: nat, ub: nat, ghost outcome: ReversalOutcomes)
    returns (added: seq<Routes>)
    requires Workable(routes.collectionRoutes) && SameOnScan(routes, outcome, Outcome(m, t, routes))
    requires InScan(routes, k, lb, ub)
    ensures added == AtBound(routes, outcome, k, lb)(ub) && AllSound(routes, added)
  {
    OutcomeAt(m, t, routes, outcome, k, lb, ub);
    var neighbour := BuildNeighbour(m, t, routes.collectionRoutes[k], lb, ub);
    NeighbourSound(m, t, routes.collectionRoutes[k], lb, ub);
    RecordedSound(routes, k, neighbour);
    added := Recorded(routes, k, neighbour);
  }

  /**
   * Tries every upper bound from lb + 2 up to the last but one position of route k, in order.
   * outcome is any table of outcomes that agrees with the reversals' own on the scanned
   * reversals; the search passes Outcome(m, t, routes) itself.
   */
  method TryUpperBounds(m: Metric, t: Truck, routes: Routes, k: nat, lb: nat, ghost outcome: ReversalOutcomes)
    returns (neighbours: seq<Routes>)
    requires Workable(routes.collectionRoutes) && k < |routes.collectionRoutes|
    requires SameOnScan(routes, outcome, Outcome(m, t, routes))
    ensures neighbours == Gather(AtBound(routes, outcome, k, lb), |routes.collectionRoutes[k].route|)
    ensures AllSound(routes, neighbours)
  {
    var len := |routes.collectionRoutes[k].route|;
    ghost var f := AtBound(routes, outcome, k, lb);
    BoundStart(routes, outcome, k, lb);
    neighbours := [];
    var upperBound := lb + 2;
    while upperBound < len - 1
      invariant lb + 2 <= upperBound
      invariant neighbours == Gather(f, upperBound) && AllSound(routes, neighbours)
    {
      var added := TryUpperBound(m, t, routes, k, lb, upperBound, outcome);
      GatherNext(routes, f, upperBound, neighbours, added);
      neighbours := neighbours + added;
      upperBound := upperBound + 1;
    }
    BoundsGathered(routes, outcome, k, lb, upperBound, neighbours);
  }

  /** Tries every reversal within route k, lower bound by lower bound. */
  method GenerateNeighbours(m: Metric, t: Truck, routes: Routes, k: nat, ghost outcome: ReversalOutcomes)
    returns (neighbours: seq<Routes>)
    requires Workable(routes.collectionRoutes) && k < |routes.collectionRoutes|
    requires SameOnScan(routes, outcome, Outcome(m, t, routes))
    ensures neighbours == Gather(AtLower(routes, outcome, k), |routes.collectionRoutes[k].route|)
    ensures AllSound(routes, neighbours)
  {
    var len := |routes.collectionRoutes[k].route|;
    ghost var f := AtLower(routes, outcome, k);
    neighbours := [];
    var lowerBound := 0;
    while lowerBound < len - 3
      invariant lowerBound <= len
      invariant neighbours == Gather(f, lowerBound) && AllSound(routes, neighbours)
    {
      neighbours := TryLowerBound(m, t, routes, k, lowerBound, outcome, neighbours);
      lowerBound := lowerBound + 1;
    }
    LowersGathered(routes, outcome, k, lowerBound, neighbours);
  }

  /** One pass of the scan over lower bounds: the reversals from lb are added to what was gathered. */
  method TryLowerBound(m: Metric, t: Truck, routes: Routes, k: nat, lb: nat, ghost outcome: ReversalOutcomes,
                       gathered: seq<Routes>)
    returns (r: seq<Routes>)
    requires Workable(routes.collectionRoutes) && k < |routes.collectionRoutes| && lb + 3 < |routes.collectionRoutes[k].route|
    requires SameOnScan(routes, outcome, Outcome(m, t, routes))
    requires gathered == Gather(AtLower(routes, outcome, k), lb) && AllSound(routes, gathered)
    ensures r == Gather(AtLower(routes, outcome, k), lb + 1) && AllSound(routes, r)
  {
    var more := TryUpperBounds(m, t, routes, k, lb, outcome);
    GatherNext(routes, AtLower(routes, outcome, k), lb, gathered, more);
    r := gathered + more;
  }

  /**
   * Tries every route in turn: the neighbourhood the search scans at each step, in scanning
   * order. The search passes Outcome(m, t, routes) for outcome and Lowers(routes, outcome)
   * for lowers, so that the result is Neighbourhood(m, t, routes); NeighbourhoodComplete shows it holds the neighbour of every
   * feasible reversal.
   */
  method GenerateAllNeighbours(m: Metric, t: Truck, routes: Routes, ghost outcome: ReversalOutcomes, ghost lowers: RouteRecords)
    returns (neighbours: seq<Routes>)
    requires Workable(routes.collectionRoutes)
    requires SameOnScan(routes, outcome, Outcome(m, t, routes)) && LowersAgree(routes, lowers, outcome)
    ensures neighbours == Gather(lowers, |routes.collectionRoutes|)
    ensures AllSound(routes, neighbours)
  {
    neighbours := [];
    var route := 0;
    while route < |routes.collectionRoutes|
      invariant route <= |routes.collectionRoutes|
      invariant neighbours == Gather(lowers, route)
      invariant AllSound(routes, neighbours)
    {
      neighbours := TryRoute(m, t, routes, route, outcome, lowers, neighbours);
      route := route + 1;
    }
  }

  /** Adds the neighbours of route k to those gathered from the routes before it. */
  method TryRoute(m: Metric, t: Truck, routes: Routes, k: nat, ghost outcome: ReversalOutcomes, ghost lowers: RouteRecords,
                  gathered: seq<Routes>)
    returns (r: seq<Routes>)
    requires Workable(routes.collectionRoutes) && k < |routes.collectionRoutes|
    requires SameOnScan(routes, outcome, Outcome(m, t, routes)) && LowersAgree(routes, lowers, outcome)
    requires gathered == Gather(lowers, k) && AllSound(routes, gathered)
    ensures r == Gather(lowers, k + 1) && AllSound(routes, r)
  {
    var more := GenerateNeighbours(m, t, routes, k, outcome);
    LowersAt(routes, outcome, lowers, k);
    GatherNext(routes, lowers, k, gathered, more);
    r := gathered + more;
  }
}
