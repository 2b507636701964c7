/**
 * Swap within a route: two areas of the same route exchange their positions. The new time is
 * computed from the changed edges only, and the sub-routes of both positions are checked
 * against the capacity.
 */
module SwapIntra {
  import opened Wrappers
  import opened Graph
  import opened Lists
  import opened Routing
  import opened Solutions
  import opened SubRoutes
  import opened Neighbourhoods

  /**
   * The route time after exchanging the nodes at p1 < p2. Next to each other, the edge into the
   * pair and the edge out of it are replaced; apart, the edges around each node are.
   */
  function CalculateNewRouteTime(m: Metric, t: Truck, r: seq<Node>, time: real, p1: nat, p2: nat): real
    requires 1 <= p1 < p2 <= |r| - 2
  {
    if p2 - p1 == 1 then
      time - TravelTime(m, t, r[p1 - 1], r[p1]) - TravelTime(m, t, r[p2], r[p2 + 1])
           + TravelTime(m, t, r[p1 - 1], r[p2]) + TravelTime(m, t, r[p1], r[p2 + 1])
    else
      time - TravelTime(m, t, r[p1 - 1], r[p1]) - TravelTime(m, t, r[p1], r[p1 + 1])
           + TravelTime(m, t, r[p1 - 1], r[p2]) + TravelTime(m, t, r[p2], r[p1 + 1])
           - TravelTime(m, t, r[p2 - 1], r[p2]) - TravelTime(m, t, r[p2], r[p2 + 1])
           + TravelTime(m, t, r[p2 - 1], r[p1]) + TravelTime(m, t, r[p1], r[p2 + 1])
  }

  /**
   * The incremental time is exact: it changes the time by exactly the change in route cost. For
   * neighbouring positions the edge between the two nodes is driven the other way round, so
   * this needs symmetric distances.
   */
  lemma NewRouteTimeExact(m: Metric, t: Truck, r: seq<Node>, time: real, p1: nat, p2: nat)
    requires 1 <= p1 < p2 <= |r| - 2
    requires p2 - p1 == 1 ==> Symmetric(m)
    ensures CalculateNewRouteTime(m, t, r, time, p1, p2) - time
         == RouteCost(m, t, Swap(r, p1, p2)) - RouteCost(m, t, r)
  {
    var s := r[p1 := r[p2]];
    TravelReplace(m, t, r, p1, r[p2]);
    TravelReplace(m, t, s, p2, r[p1]);
    if p2 - p1 == 1 {
      TravelTimeSymmetric(m, t, r[p1], r[p2]);
    }
  }

  /**
   * Exchanging two interior nodes of a workable route before its last stop gives a workable
   * route that serves the same areas.
   */
  lemma SwapSound(r: seq<Node>, p1: nat, p2: nat)
    requires SearchRoute(r) && 1 <= p1 < p2 <= |r| - 3
    ensures SearchRoute(Swap(r, p1, p2)) && Areas(Swap(r, p1, p2)) == Areas(r)
  {
    SwapMultiset(r, p1, p2);
    PermutedSearchRoute(r, Swap(r, p1, p2));
  }

  /**
   * The route the exchange of the nodes at p1 and p2 yields, if it is feasible: it must keep
   * within the work duration and the sub-routes of both positions within the capacity.
   */
  ghost function Neighbour(m: Metric, t: Truck, cr: CollectionRoute, p1: nat, p2: nat): Option<CollectionRoute>
    requires EndsAtStops(cr.route) && 1 <= p1 < p2 <= |cr.route| - 3
  {
    var time := CalculateNewRouteTime(m, t, cr.route, cr.routeTime, p1, p2);
    var swapped := Swap(cr.route, p1, p2);
    StopBeforeStart(swapped, p1);
    StopBeforeStart(swapped, p2);
    if time > t.workDuration as real then None
    else if !SubRouteFits(swapped, SubRouteStart(swapped, p1), t.capacity) then None
    else if !SubRouteFits(swapped, SubRouteStart(swapped, p2), t.capacity) then None
    else Some(CollectionRoute(swapped, [], time))
  }

  /**
   * A neighbour of a workable route is workable, serves the same areas, keeps within the work
   * duration and, with symmetric distances, carries a time that differs from the old one by
   * exactly the change in cost.
   */
  lemma NeighbourSound(m: Metric, t: Truck, cr: CollectionRoute, p1: nat, p2: nat)
    requires SearchRoute(cr.route) && 1 <= p1 < p2 <= |cr.route| - 3
    ensures EndsAtStops(cr.route)
    ensures Neighbour(m, t, cr, p1, p2).Some? ==>
      var x := Neighbour(m, t, cr, p1, p2).value;
      && SearchRoute(x.route) && Areas(x.route) == Areas(cr.route)
      && x.routeTime <= t.workDuration as real
      && (Symmetric(m) ==> x.routeTime - cr.routeTime == RouteCost(m, t, x.route) - RouteCost(m, t, cr.route))
  {
    SwapSound(cr.route, p1, p2);
    if Symmetric(m) {
      NewRouteTimeExact(m, t, cr.route, cr.routeTime, p1, p2);
    }
  }

  /**
   * Computes the new time and, when it keeps within the work duration, exchanges the nodes and
   * checks the capacity of the sub-routes of both positions.
   */
  method IsFactibleRoute(m: Metric, t: Truck, route: seq<Node>, currentRouteTime: real, p1: nat, p2: nat)
    returns (isFactible: bool, newRoute: seq<Node>, newRouteTime: real)
    requires EndsAtStops(route) && 1 <= p1 < p2 <= |route| - 3
    ensures newRouteTime == CalculateNewRouteTime(m, t, route, currentRouteTime, p1, p2)
    ensures newRoute == if newRouteTime > t.workDuration as real then route else Swap(route, p1, p2)
    ensures StopBefore(Swap(route, p1, p2), p1) && StopBefore(Swap(route, p1, p2), p2)
    ensures isFactible <==> (newRouteTime <= t.workDuration as real
      && SubRouteFits(Swap(route, p1, p2), SubRouteStart(Swap(route, p1, p2), p1), t.capacity)
      && SubRouteFits(Swap(route, p1, p2), SubRouteStart(Swap(route, p1, p2), p2), t.capacity))
  {
    StopBeforeStart(Swap(route, p1, p2), p1);
    StopBeforeStart(Swap(route, p1, p2), p2);
    newRouteTime := CalculateNewRouteTime(m, t, route, currentRouteTime, p1, p2);
    newRoute := route;
    if newRouteTime > t.workDuration as real {
      return false, newRoute, newRouteTime;
    }
    var swapNode1, swapNode2 := route[p1], route[p2];
    newRoute := newRoute[p1 := swapNode2];
    newRoute := newRoute[p2 := swapNode1];
    var fits1 := IsFactibleCapacity(newRoute, p1, t.capacity);
    var fits2 := IsFactibleCapacity(newRoute, p2, t.capacity);
    isFactible := fits1 && fits2;
  }

  /** Builds the neighbour of an exchange, or nothing when it is not feasible. */
  method BuildNeighbour(m: Metric, t: Truck, cr: CollectionRoute, p1: nat, p2: nat)
    returns (neighbour: Option<CollectionRoute>)
    requires EndsAtStops(cr.route) && 1 <= p1 < p2 <= |cr.route| - 3
    ensures neighbour == Neighbour(m, t, cr, p1, p2)
  {
    var isFactible, newRoute, newRouteTime := IsFactibleRoute(m, t, cr.route, cr.routeTime, p1, p2);
    if !isFactible {
      return None;
    }
    neighbour := Some(CollectionRoute(newRoute, [], newRouteTime));
  }

  /** The outcome of each exchange (route, first position, second position): the new route, or nothing. */
  type SwapOutcomes = (nat, nat, nat) -> Option<CollectionRoute>

  /** The exchange of the nodes at p1 and p2 of route k is one the search scans. */
  predicate InScan(routes: Routes, k: nat, p1: nat, p2: nat)
  {
    k < |routes.collectionRoutes| && 1 <= p1 < p2 <= |routes.collectionRoutes[k].route| - 3
  }

  /**
   * The outcome of the exchanges of routes: the neighbour the exchange of the nodes at p1 and p2
   * of route k yields, and nothing for an exchange outside the scanned positions.
   */
  ghost function Outcome(m: Metric, t: Truck, routes: Routes): SwapOutcomes
  {
    (k: nat, p1: nat, p2: nat) =>
      if InScan(routes, k, p1, p2) && EndsAtStops(routes.collectionRoutes[k].route)
      then Neighbour(m, t, routes.collectionRoutes[k], p1, p2)
      else None
  }

  /** f gives the outcome g gives for every scanned exchange. */
  ghost predicate SameOnScan(routes: Routes, f: SwapOutcomes, g: SwapOutcomes)
  {
    forall k: nat, p1: nat, p2: nat {:trigger g(k, p1, p2)} | InScan(routes, k, p1, p2) :: f(k, p1, p2) == g(k, p1, p2)
  }

  /** What the search records for the node at p1 of route k and the node at p2: nothing unless p2 is a later area. */
  ghost function AtPosition(routes: Routes, outcome: SwapOutcomes, k: nat, p1: nat): nat -> seq<Routes>
    requires k < |routes.collectionRoutes|
  {
    (p2: nat) =>
      if p1 < p2 < |routes.collectionRoutes[k].route| && !IsTransferStation(routes.collectionRoutes[k].route[p2])
      then Recorded(routes, k, outcome(k, p1, p2))
      else []
  }

  /** What the search records for each node of a route (route, node). */
  type NodeRecords = (nat, nat) -> seq<Routes>

  /** What trying the node at p1 of route k against every later area records, area by area. */
  ghost function Positions(routes: Routes, outcome: SwapOutcomes): NodeRecords
  {
    (k: nat, p1: nat) =>
      if k < |routes.collectionRoutes| && 2 <= |routes.collectionRoutes[k].route|
      then Gather(AtPosition(routes, outcome, k, p1), |routes.collectionRoutes[k].route| - 2)
      else []
  }

  /** positions records what Positions(routes, outcome) does, for every node of every route. */
  ghost predicate PositionsAgree(routes: Routes, positions: NodeRecords, outcome: SwapOutcomes)
  {
    forall k: nat, p1: nat {:trigger Positions(routes, outcome)(k, p1)} ::
      positions(k, p1) == Positions(routes, outcome)(k, p1)
  }

  /** What the search records for the node at p1 of route k: nothing for a transfer station. */
  ghost function AtNode(routes: Routes, positions: NodeRecords, k: nat): nat -> seq<Routes>
    requires k < |routes.collectionRoutes|
  {
    (p1: nat) =>
      if 1 <= p1 < |routes.collectionRoutes[k].route| && !IsTransferStation(routes.collectionRoutes[k].route[p1])
      then positions(k, p1)
      else []
  }

  /** What the search records for each route. */
  type RouteRecords = nat -> seq<Routes>

  /** What trying every node of route k records, node by node. */
  ghost function Nodes(routes: Routes, positions: NodeRecords): RouteRecords
  {
    (k: nat) =>
      if k < |routes.collectionRoutes| && 2 <= |routes.collectionRoutes[k].route|
      then Gather(AtNode(routes, positions, k), |routes.collectionRoutes[k].route| - 2)
      else []
  }

  /** nodes records what Nodes(routes, positions) does, for every route. */
  ghost predicate NodesAgree(routes: Routes, nodes: RouteRecords, positions: NodeRecords)
  {
    forall k: nat {:trigger Nodes(routes, positions)(k)} :: nodes(k) == Nodes(routes, positions)(k)
  }

  /**
   * The neighbourhood the search scans at each step, in scanning order: for every route, for
   * every node other than a transfer station, the neighbour of every feasible exchange with a
   * later node other than a transfer station, node by node.
   */
  ghost function Neighbourhood(m: Metric, t: Truck, routes: Routes): seq<Routes>
  {
    Gather(Nodes(routes, Positions(routes, Outcome(m, t, routes))), |routes.collectionRoutes|)
  }

  /** positions, agreeing with the outcomes, records for a node what trying it against the later areas gathers. */
  lemma PositionsAt(routes: Routes, outcome: SwapOutcomes, positions: NodeRecords, k: nat, p1: nat)
    requires PositionsAgree(routes, positions, outcome)
    requires k < |routes.collectionRoutes| && 2 <= |routes.collectionRoutes[k].route|
    ensures positions(k, p1) == Gather(AtPosition(routes, outcome, k, p1), |routes.collectionRoutes[k].route| - 2)
  {
    assert positions(k, p1) == Positions(routes, outcome)(k, p1);
  }

  /** nodes, agreeing with positions, records for a route what trying every node of it gathers. */
  lemma NodesAt(routes: Routes, positions: NodeRecords, nodes: RouteRecords, k: nat)
    requires NodesAgree(routes, nodes, positions)
    requires k < |routes.collectionRoutes| && 2 <= |routes.collectionRoutes[k].route|
    ensures nodes(k) == Gather(AtNode(routes, positions, k), |routes.collectionRoutes[k].route| - 2)
  {
    assert nodes(k) == Nodes(routes, positions)(k);
  }

  /** The scan over later positions stops at the last but one position. */
  lemma SwapsGathered(routes: Routes, outcome: SwapOutcomes, k: nat, p1: nat, n: nat, gathered: seq<Routes>)
    requires k < |routes.collectionRoutes| && n == |routes.collectionRoutes[k].route| - 2
    requires gathered == Gather(AtPosition(routes, outcome, k, p1), n)
    ensures gathered == Gather(AtPosition(routes, outcome, k, p1), |routes.collectionRoutes[k].route| - 2)
  {
  }

  /** Node 0, the start of the route, is never tried. */
  lemma AtNodeStart(routes: Routes, positions: NodeRecords, k: nat)
    requires k < |routes.collectionRoutes|
    ensures Gather(AtNode(routes, positions, k), 1) == []
  {
    assert AtNode(routes, positions, k)(0) == [];
  }

  /** The scan over nodes stops at the last but one position, or at once on a route of two stops. */
  lemma NodesGathered(routes: Routes, positions: NodeRecords, k: nat, gathered: seq<Routes>)
    requires k < |routes.collectionRoutes| && 2 <= |routes.collectionRoutes[k].route|
    requires gathered == Gather(AtNode(routes, positions, k), if |routes.collectionRoutes[k].route| < 3 then 1 else |routes.collectionRoutes[k].route| - 2)
    ensures gathered == Gather(AtNode(routes, positions, k), |routes.collectionRoutes[k].route| - 2)
  {
    if |routes.collectionRoutes[k].route| == 2 {
      assert AtNode(routes, positions, k)(0) == [];
    }
  }

  /** outcome gives the neighbour of the exchange of the nodes at p1 and p2 of route k. */
  lemma OutcomeAt(m: Metric, t: Truck, routes: Routes, outcome: SwapOutcomes, k: nat, p1: nat, p2: nat)
    requires Workable(routes.collectionRoutes) && SameOnScan(routes, outcome, Outcome(m, t, routes))
    requires InScan(routes, k, p1, p2)
    ensures EndsAtStops(routes.collectionRoutes[k].route)
    ensures outcome(k, p1, p2) == Neighbour(m, t, routes.collectionRoutes[k], p1, p2)
  {
    SearchRouteEndsAtStops(routes.collectionRoutes[k].route);
    assert outcome(k, p1, p2) == Outcome(m, t, routes)(k, p1, p2);
  }

  /** What positions records for a node of route k other than a transfer station is in the whole neighbourhood gathered from nodes. */
  lemma NodeMovesComplete(routes: Routes, positions: NodeRecords, nodes: RouteRecords, k: nat, p1: nat, x: Routes)
    requires NodesAgree(routes, nodes, positions)
    requires k < |routes.collectionRoutes| && 1 <= p1 <= |routes.collectionRoutes[k].route| - 3 && !IsTransferStation(routes.collectionRoutes[k].route[p1])
    requires x in positions(k, p1)
    ensures x in Gather(nodes, |routes.collectionRoutes|)
  {
    NodesAt(routes, positions, nodes, k);
    GatherComplete(AtNode(routes, positions, k), |routes.collectionRoutes[k].route| - 2, p1, x);
    GatherComplete(nodes, |routes.collectionRoutes|, k, x);
  }

  /** The neighbour of every feasible exchange of the node at p1 of route k with a later area is recorded. */
  lemma PositionMovesCover(m: Metric, t: Truck, routes: Routes, outcome: SwapOutcomes, k: nat, p1: nat)
    requires Workable(routes.collectionRoutes) && k < |routes.collectionRoutes|
    requires 1 <= p1 <= |routes.collectionRoutes[k].route| - 3
    requires SameOnScan(routes, outcome, Outcome(m, t, routes))
    ensures forall p2 | p1 < p2 <= |routes.collectionRoutes[k].route| - 3
      && !IsTransferStation(routes.collectionRoutes[k].route[p2]) && Neighbour(m, t, routes.collectionRoutes[k], p1, p2).Some? ::
      Routes(ReplaceRoute(routes.collectionRoutes, k, Neighbour(m, t, routes.collectionRoutes[k], p1, p2).value), [])
        in Gather(AtPosition(routes, outcome, k, p1), |routes.collectionRoutes[k].route| - 2)
  {
    forall p2 | p1 < p2 <= |routes.collectionRoutes[k].route| - 3
      && !IsTransferStation(routes.collectionRoutes[k].route[p2]) && Neighbour(m, t, routes.collectionRoutes[k], p1, p2).Some?
      ensures Routes(ReplaceRoute(routes.collectionRoutes, k, Neighbour(m, t, routes.collectionRoutes[k], p1, p2).value), [])
        in Gather(AtPosition(routes, outcome, k, p1), |routes.collectionRoutes[k].route| - 2)
    {
      PositionMoveCovered(m, t, routes, outcome, k, p1, p2);
    }
  }

  /** The neighbour of one feasible exchange of the area at p1 with a later one is in what the scan from p1 gathers. */
  lemma PositionMoveCovered(m: Metric, t: Truck, routes: Routes, outcome: SwapOutcomes, k: nat, p1: nat, p2: nat)
    requires Workable(routes.collectionRoutes) && k < |routes.collectionRoutes|
    requires SameOnScan(routes, outcome, Outcome(m, t, routes))
    requires 1 <= p1 < p2 <= |routes.collectionRoutes[k].route| - 3
    requires !IsTransferStation(routes.collectionRoutes[k].route[p2]) && Neighbour(m, t, routes.collectionRoutes[k], p1, p2).Some?
    ensures Routes(ReplaceRoute(routes.collectionRoutes, k, Neighbour(m, t, routes.collectionRoutes[k], p1, p2).value), [])
      in Gather(AtPosition(routes, outcome, k, p1), |routes.collectionRoutes[k].route| - 2)
  {
    var x := Routes(ReplaceRoute(routes.collectionRoutes, k, Neighbour(m, t, routes.collectionRoutes[k], p1, p2).value), []);
    OutcomeAt(m, t, routes, outcome, k, p1, p2);
    assert x in AtPosition(routes, outcome, k, p1)(p2);
    GatherComplete(AtPosition(routes, outcome, k, p1), |routes.collectionRoutes[k].route| - 2, p2, x);
  }

  /** The neighbour of one feasible exchange of two areas within a route is in what is gathered from positions. */
  lemma ExchangeCovered(m: Metric, t: Truck, routes: Routes, outcome: SwapOutcomes, positions: NodeRecords, nodes: RouteRecords, k: nat, p1: nat, p2: nat)
    requires Workable(routes.collectionRoutes) && SameOnScan(routes, outcome, Outcome(m, t, routes))
    requires PositionsAgree(routes, positions, outcome) && NodesAgree(routes, nodes, positions)
    requires 0 <= k < |routes.collectionRoutes| && 1 <= p1 < p2 <= |routes.collectionRoutes[k].route| - 3 && !IsTransferStation(routes.collectionRoutes[k].route[p1]) && !IsTransferStation(routes.collectionRoutes[k].route[p2]) && Neighbour(m, t, routes.collectionRoutes[k], p1, p2).Some?
    ensures Routes(ReplaceRoute(routes.collectionRoutes, k, Neighbour(m, t, routes.collectionRoutes[k], p1, p2).value), []) in Gather(nodes, |routes.collectionRoutes|)
  {
    OutcomeAt(m, t, routes, outcome, k, p1, p2);
    var x := Routes(ReplaceRoute(routes.collectionRoutes, k, Neighbour(m, t, routes.collectionRoutes[k], p1, p2).value), []);
    assert x in Recorded(routes, k, outcome(k, p1, p2));
    PositionsAt(routes, outcome, positions, k, p1);
    GatherComplete(AtPosition(routes, outcome, k, p1), |routes.collectionRoutes[k].route| - 2, p2, x);
    NodeMovesComplete(routes, positions, nodes, k, p1, x);
  }

  /**
   * The neighbourhood holds the neighbour of every feasible exchange of two areas other than
   * transfer stations within a route.
   */
  lemma NeighbourhoodComplete(m: Metric, t: Truck, routes: Routes)
    requires Workable(routes.collectionRoutes)
    ensures forall k, p1, p2 | 0 <= k < |routes.collectionRoutes| && 1 <= p1 < p2 <= |routes.collectionRoutes[k].route| - 3 && !IsTransferStation(routes.collectionRoutes[k].route[p1]) && !IsTransferStation(routes.collectionRoutes[k].route[p2]) && Neighbour(m, t, routes.collectionRoutes[k], p1, p2).Some? ::
      Routes(ReplaceRoute(routes.collectionRoutes, k, Neighbour(m, t, routes.collectionRoutes[k], p1, p2).value), []) in Neighbourhood(m, t, routes)
  {
    var outcome := Outcome(m, t, routes);
    var positions := Positions(routes, outcome);
    assert SameOnScan(routes, outcome, Outcome(m, t, routes));
    var nodes := Nodes(routes, positions);
    assert PositionsAgree(routes, positions, outcome);
    assert NodesAgree(routes, nodes, positions);
    forall k, p1, p2 | 0 <= k < |routes.collectionRoutes| && 1 <= p1 < p2 <= |routes.collectionRoutes[k].route| - 3 && !IsTransferStation(routes.collectionRoutes[k].route[p1]) && !IsTransferStation(routes.collectionRoutes[k].route[p2]) && Neighbour(m, t, routes.collectionRoutes[k], p1, p2).Some?
      ensures Routes(ReplaceRoute(routes.collectionRoutes, k, Neighbour(m, t, routes.collectionRoutes[k], p1, p2).value), []) in Gather(nodes, |routes.collectionRoutes|)
    {
      ExchangeCovered(m, t, routes, outcome, positions, nodes, k, p1, p2);
    }
  }

  /**
   * One pass of the scan over later positions: the exchange of the areas at p1 and p2 of route k
   * is built, and its neighbour recorded when it is feasible; a transfer station at p2 is skipped.
   */
  method TrySwap(m: Metric, t: Truck, routes: Routes, k: nat, p1: nat, p2: nat, ghost outcome: SwapOutcomes)
    returns (added: seq<Routes>)
    requires Workable(routes.collectionRoutes) && k < |routes.collectionRoutes|
    requires 1 <= p1 < p2 <= |routes.collectionRoutes[k].route| - 3
    requires SameOnScan(routes, outcome, Outcome(m, t, routes))
    ensures added == AtPosition(routes, outcome, k, p1)(p2) && AllSound(routes, added)
  {
    added := [];
    if !IsTransferStation(routes.collectionRoutes[k].route[p2]) {
      OutcomeAt(m, t, routes, outcome, k, p1, p2);
      var neighbour := BuildNeighbour(m, t, routes.collectionRoutes[k], p1, p2);
      NeighbourSound(m, t, routes.collectionRoutes[k], p1, p2);
      RecordedSound(routes, k, neighbour);
      added := Recorded(routes, k, neighbour);
    }
  }

  /**
   * Tries exchanging the area at p1 of route k with every later area of the route, in order,
   * recording the neighbour of every feasible exchange. outcome is any table of outcomes that
   * agrees with the exchanges' own on the scanned ones; the search passes Outcome(m, t, routes) itself.
   */
  method TrySwaps(m: Metric, t: Truck, routes: Routes, k: nat, p1: nat, ghost outcome: SwapOutcomes)
    returns (neighbours: seq<Routes>)
    requires Workable(routes.collectionRoutes) && k < |routes.collectionRoutes|
    requires 1 <= p1 <= |routes.collectionRoutes[k].route| - 3
    requires SameOnScan(routes, outcome, Outcome(m, t, routes))
    ensures neighbours == Gather(AtPosition(routes, outcome, k, p1), |routes.collectionRoutes[k].route| - 2)
    ensures AllSound(routes, neighbours)
  {
    var len := |routes.collectionRoutes[k].route|;
    ghost var f := AtPosition(routes, outcome, k, p1);
    GatherNone(f, p1 + 1);
    neighbours := [];
    var changePosition := p1 + 1;
    while changePosition < len - 2
      invariant p1 < changePosition <= len - 2
      invariant neighbours == Gather(f, changePosition) && AllSound(routes, neighbours)
    {
      var added := TrySwap(m, t, routes, k, p1, changePosition, outcome);
      GatherNext(routes, f, changePosition, neighbours, added);
      neighbours := neighbours + added;
      changePosition := changePosition + 1;
    }
    SwapsGathered(routes, outcome, k, p1, changePosition, neighbours);
  }

  /** Tries every exchange of two areas within route k, recording the neighbours in scanning order. */
  method GenerateNeighbours(m: Metric, t: Truck, routes: Routes, k: nat, ghost outcome: SwapOutcomes, ghost positions: NodeRecords)
    returns (neighbours: seq<Routes>)
    requires Workable(routes.collectionRoutes) && k < |routes.collectionRoutes|
    requires SameOnScan(routes, outcome, Outcome(m, t, routes)) && PositionsAgree(routes, positions, outcome)
    ensures 2 <= |routes.collectionRoutes[k].route|
    ensures neighbours == Gather(AtNode(routes, positions, k), |routes.collectionRoutes[k].route| - 2)
    ensures AllSound(routes, neighbours)
  {
    SearchRouteEndsAtStops(routes.collectionRoutes[k].route);
    var collectionRoute := routes.collectionRoutes[k];
    var last := if |collectionRoute.route| < 3 then 1 else |collectionRoute.route| - 2;
    neighbours := [];
    var node := 1;
    ghost var f := AtNode(routes, positions, k);
    AtNodeStart(routes, positions, k);
    while node < last
      invariant 1 <= node <= last && neighbours == Gather(f, node) && AllSound(routes, neighbours)
    {
      var more := [];
      if !IsTransferStation(collectionRoute.route[node]) {
        more := TrySwaps(m, t, routes, k, node, outcome);
        PositionsAt(routes, outcome, positions, k, node);
      }
      GatherNext(routes, f, node, neighbours, more);
      neighbours := neighbours + more;
      node := node + 1;
    }
    NodesGathered(routes, positions, k, neighbours);
  }

  /**
   * Tries every route in turn: the neighbourhood the search scans at each step, in scanning
   * order. The search passes Outcome(m, t, routes) for outcome and the tables built from it,
   * so that the result is Neighbourhood(m, t, routes).
   */
  method GenerateAllNeighbours(m: Metric, t: Truck, routes: Routes,
                               ghost outcome: SwapOutcomes, ghost positions: NodeRecords, ghost nodes: RouteRecords)
    returns (neighbours: seq<Routes>)
    requires Workable(routes.collectionRoutes)
    requires SameOnScan(routes, outcome, Outcome(m, t, routes)) && PositionsAgree(routes, positions, outcome)
    requires NodesAgree(routes, nodes, positions)
    ensures neighbours == Gather(nodes, |routes.collectionRoutes|)
    ensures AllSound(routes, neighbours)
  {
    neighbours := [];
    var route := 0;
    while route < |routes.collectionRoutes|
      invariant route <= |routes.collectionRoutes|
      invariant neighbours == Gather(nodes, route)
      invariant AllSound(routes, neighbours)
    {
      var more := GenerateNeighbours(m, t, routes, route, outcome, positions);
      NodesAt(routes, positions, nodes, route);
      AllSoundConcat(routes, neighbours, more);
      neighbours := neighbours + more;
      route := route + 1;
    }
  }
}
