/**
 * Reinsertion within a route: an area is taken out of its position and put back at another
 * position of the same route. The new time is computed from the changed edges only, the
 * capacity of the sub-route it lands in is checked, and a stop left next to another stop is
 * dropped.
 */
module ReinsertionIntra {
  import opened Wrappers
  import opened Graph
  import opened Lists
  import opened Routing
  import opened Solutions
  import opened SubRoutes
  import opened Neighbourhoods

  /** The route with the node at position cp taken out and reinserted at position ip. */
  function Move<T>(r: seq<T>, cp: nat, ip: nat): (s: seq<T>)
    requires cp < |r| && ip < |r|
    ensures |s| == |r| && s[ip] == r[cp]
  {
    Insert(RemoveAt(r, cp), ip, r[cp])
  }

  /**
   * The route time after the move: the two edges of the moved node give way to the edge that
   * closes the gap, and the edge at the insertion point gives way to the two edges through the
   * node. Positions of the insertion point are taken in the route before the move.
   */
  function CalculateNewRouteTime(m: Metric, t: Truck, r: seq<Node>, time: real, cp: nat, ip: nat): real
    requires 1 <= cp <= |r| - 2 && 1 <= ip <= |r| - 2
  {
    var fixedIp := if ip < cp then ip - 1 else ip;
    time - TravelTime(m, t, r[cp - 1], r[cp]) - TravelTime(m, t, r[cp], r[cp + 1])
         + TravelTime(m, t, r[cp - 1], r[cp + 1])
         - TravelTime(m, t, r[fixedIp], r[fixedIp + 1])
         + TravelTime(m, t, r[fixedIp], r[cp]) + TravelTime(m, t, r[cp], r[fixedIp + 1])
  }

  /** The incremental time is exact: it changes the time by exactly the change in route cost. */
  lemma NewRouteTimeExact(m: Metric, t: Truck, r: seq<Node>, time: real, cp: nat, ip: nat)
    requires 1 <= cp <= |r| - 2 && 1 <= ip <= |r| - 2 && cp != ip
    ensures CalculateNewRouteTime(m, t, r, time, cp, ip) - time
         == RouteCost(m, t, Move(r, cp, ip)) - RouteCost(m, t, r)
  {
    var s := RemoveAt(r, cp);
    TravelRemoveAt(m, t, r, cp);
    TravelInsert(m, t, s, ip, r[cp]);
    if ip < cp {
      assert s[ip - 1] == r[ip - 1] && s[ip] == r[ip];
    } else {
      assert s[ip - 1] == r[ip] && s[ip] == r[ip + 1];
    }
  }

  /**
   * Moving an interior node of a workable route to another interior position (neither of them
   * the last stop before the depot) gives a workable route that serves the same areas.
   */
  lemma MoveSound(r: seq<Node>, cp: nat, ip: nat)
    requires SearchRoute(r) && 1 <= cp <= |r| - 3 && 1 <= ip <= |r| - 3
    ensures Areas(Move(r, cp, ip)) == Areas(r)
    ensures SearchRoute(Move(r, cp, ip))
  {
    MoveKeepsEnds(r, cp, ip);
    PermutedSearchRoute(r, Move(r, cp, ip));
  }

  /** A move between positions 1 .. |r| - 3 permutes r and keeps its first, last and last-but-one nodes. */
  lemma MoveKeepsEnds<T>(r: seq<T>, cp: nat, ip: nat)
    requires 1 <= cp <= |r| - 3 && 1 <= ip <= |r| - 3
    ensures multiset(Move(r, cp, ip)) == multiset(r)
    ensures Move(r, cp, ip)[0] == r[0] && Move(r, cp, ip)[|r| - 1] == r[|r| - 1]
    ensures Move(r, cp, ip)[|r| - 2] == r[|r| - 2]
  {
    MovePermutes(r, cp, ip);
    var s := RemoveAt(r, cp);
    assert s[0] == r[0] && s[|s| - 1] == r[|r| - 1] && s[|s| - 2] == r[|r| - 2];
  }

  lemma MovePermutes<T>(r: seq<T>, cp: nat, ip: nat)
    requires cp < |r| && ip < |r|
    ensures multiset(Move(r, cp, ip)) == multiset(r)
  {
    var s := RemoveAt(r, cp);
    RemoveAtMultiset(r, cp);
    InsertMultiset(s, ip, r[cp]);
    assert multiset(r) == multiset(s) + multiset{r[cp]};
  }

  /**
   * The clean-up after a move that left position cp free of the moved area: when a stop now
   * sits at cp right after another stop it is dropped; when it sits right before another stop,
   * that next stop is dropped.
   */
  function RemoveUnnecessaryNodes(m: Metric, t: Truck, r: seq<Node>, cp: nat, time: real): (seq<Node>, real)
    requires 1 <= cp <= |r| - 3
  {
    if IsArea(r[cp]) then (r, time)
    else if !IsArea(r[cp - 1]) then DropStop(m, t, r, cp, time)
    else if !IsArea(r[cp + 1]) then DropStop(m, t, r, cp + 1, time)
    else (r, time)
  }

  /**
   * The clean-up serves the same areas, corrects the time by exactly the change in cost, keeps a
   * workable route workable, never lengthens a route under the triangle inequality, and either
   * leaves the route alone or drops one stop that directly followed another stop.
   */
  lemma RemoveUnnecessaryNodesSound(m: Metric, t: Truck, r: seq<Node>, cp: nat, time: real)
    requires 1 <= cp <= |r| - 3
    ensures Areas(RemoveUnnecessaryNodes(m, t, r, cp, time).0) == Areas(r)
    ensures RemoveUnnecessaryNodes(m, t, r, cp, time).1 - time
         == RouteCost(m, t, RemoveUnnecessaryNodes(m, t, r, cp, time).0) - RouteCost(m, t, r)
    ensures SearchRoute(r) ==> SearchRoute(RemoveUnnecessaryNodes(m, t, r, cp, time).0)
    ensures TriangleInequality(m) ==> RemoveUnnecessaryNodes(m, t, r, cp, time).1 <= time
    ensures var s := RemoveUnnecessaryNodes(m, t, r, cp, time).0;
      s == r || exists j :: cp <= j <= cp + 1 && s == RemoveAt(r, j) && !IsArea(r[j]) && !IsArea(r[j - 1])
  {
    if !IsArea(r[cp]) {
      if !IsArea(r[cp - 1]) {
        DropStopSound(m, t, r, cp, time);
      } else if !IsArea(r[cp + 1]) {
        DropStopSound(m, t, r, cp + 1, time);
      }
    }
  }

  /**
   * The neighbour the move of cp to ip yields, if it is feasible: the moved route must keep
   * within the work duration and the sub-route it lands in within the capacity; then the clean-up
   * runs, and the new route starts with no sub-route boundaries.
   */
  ghost function Neighbour(m: Metric, t: Truck, cr: CollectionRoute, cp: nat, ip: nat): Option<CollectionRoute>
    requires EndsAtStops(cr.route) && 1 <= cp <= |cr.route| - 3 && 1 <= ip <= |cr.route| - 3
  {
    var time := CalculateNewRouteTime(m, t, cr.route, cr.routeTime, cp, ip);
    var moved := Move(cr.route, cp, ip);
    StopBeforeStart(moved, ip);
    if time > t.workDuration as real then None
    else if !SubRouteFits(moved, SubRouteStart(moved, ip), t.capacity) then None
    else
      var cleaned := RemoveUnnecessaryNodes(m, t, moved, cp, time);
      Some(CollectionRoute(cleaned.0, [], cleaned.1))
  }

  /**
   * A recorded neighbour of a workable route is workable, serves the same areas, carries a time
   * that differs from the old one by exactly the change in cost, and, under the triangle
   * inequality, keeps within the work duration.
   */
  lemma NeighbourSound(m: Metric, t: Truck, cr: CollectionRoute, cp: nat, ip: nat)
    requires SearchRoute(cr.route) && 1 <= cp <= |cr.route| - 3 && 1 <= ip <= |cr.route| - 3 && cp != ip
    ensures SearchRoute(cr.route) && EndsAtStops(cr.route)
    ensures Neighbour(m, t, cr, cp, ip).Some? ==>
      var x := Neighbour(m, t, cr, cp, ip).value;
      && SearchRoute(x.route) && Areas(x.route) == Areas(cr.route)
      && x.routeTime - cr.routeTime == RouteCost(m, t, x.route) - RouteCost(m, t, cr.route)
      && (TriangleInequality(m) ==> x.routeTime <= t.workDuration as real)
  {
    var time := CalculateNewRouteTime(m, t, cr.route, cr.routeTime, cp, ip);
    var moved := Move(cr.route, cp, ip);
    NewRouteTimeExact(m, t, cr.route, cr.routeTime, cp, ip);
    MoveSound(cr.route, cp, ip);
    RemoveUnnecessaryNodesSound(m, t, moved, cp, time);
  }

  /**
   * Computes the new time and, when it keeps within the work duration, applies the move and
   * checks the capacity of the sub-route the node lands in.
   */
  method IsFactibleRoute(m: Metric, t: Truck, route: seq<Node>, currentRouteTime: real, cp: nat, ip: nat)
    returns (isFactible: bool, newRoute: seq<Node>, newRouteTime: real)
    requires EndsAtStops(route) && 1 <= cp <= |route| - 3 && 1 <= ip <= |route| - 3
    ensures newRouteTime == CalculateNewRouteTime(m, t, route, currentRouteTime, cp, ip)
    ensures newRoute == if newRouteTime > t.workDuration as real then route else Move(route, cp, ip)
    ensures StopBefore(Move(route, cp, ip), ip)
    ensures isFactible <==> (newRouteTime <= t.workDuration as real
      && SubRouteFits(Move(route, cp, ip), SubRouteStart(Move(route, cp, ip), ip), t.capacity))
  {
    StopBeforeStart(Move(route, cp, ip), ip);
    newRouteTime := CalculateNewRouteTime(m, t, route, currentRouteTime, cp, ip);
    newRoute := route;
    if newRouteTime > t.workDuration as real {
      return false, newRoute, newRouteTime;
    }
    newRoute := Move(route, cp, ip);
    isFactible := IsFactibleCapacity(newRoute, ip, t.capacity);
  }

  /** Builds the neighbour of a move, or nothing when it is not feasible. */
  method BuildNeighbour(m: Metric, t: Truck, cr: CollectionRoute, cp: nat, ip: nat)
    returns (neighbour: Option<CollectionRoute>)
    requires EndsAtStops(cr.route) && 1 <= cp <= |cr.route| - 3 && 1 <= ip <= |cr.route| - 3
    ensures neighbour == Neighbour(m, t, cr, cp, ip)
  {
    var isFactible, newRoute, newRouteTime := IsFactibleRoute(m, t, cr.route, cr.routeTime, cp, ip);
    if !isFactible {
      return None;
    }
    var cleaned := RemoveUnnecessaryNodes(m, t, newRoute, cp, newRouteTime);
    neighbour := Some(CollectionRoute(cleaned.0, [], cleaned.1));
  }

  /** The outcome of each move (route, moved node, insertion point): the neighbouring route, or nothing. */
  type MoveOutcomes = (nat, nat, nat) -> Option<CollectionRoute>

  /** The move of the node at cp of route k to position ip is one the search scans. */
  predicate InScan(routes: Routes, k: nat, cp: nat, ip: nat)
  {
    k < |routes.collectionRoutes| && 1 <= cp <= |routes.collectionRoutes[k].route| - 3
    && 1 <= ip <= |routes.collectionRoutes[k].route| - 3
  }

  /**
   * The outcome of the moves of routes: the neighbour the move of position cp to position ip of
   * route k yields, and nothing for a move outside the scanned positions.
   */
  ghost function Outcome(m: Metric, t: Truck, routes: Routes): MoveOutcomes
  {
    (k: nat, cp: nat, ip: nat) =>
      if InScan(routes, k, cp, ip) && EndsAtStops(routes.collectionRoutes[k].route)
      then Neighbour(m, t, routes.collectionRoutes[k], cp, ip)
      else None
  }

  /** f gives the outcome g gives for every scanned move. */
  ghost predicate SameOnScan(routes: Routes, f: MoveOutcomes, g: MoveOutcomes)
  {
    forall k: nat, cp: nat, ip: nat {:trigger g(k, cp, ip)} | InScan(routes, k, cp, ip) :: f(k, cp, ip) == g(k, cp, ip)
  }

  /** What the search records for the node at cp of route k moved to position ip: nothing for ip = 0 or ip = cp. */
  ghost function AtPosition(routes: Routes, outcome: MoveOutcomes, k: nat, cp: nat): nat -> seq<Routes>
    requires k < |routes.collectionRoutes|
  {
    (ip: nat) => if 1 <= ip && ip != cp then Recorded(routes, k, outcome(k, cp, ip)) else []
  }

  /** What the search records for each node of a route (route, node). */
  type NodeRecords = (nat, nat) -> seq<Routes>

  /** What trying the node at cp of route k at every insertion point records, point by point. */
  ghost function Positions(routes: Routes, outcome: MoveOutcomes): NodeRecords
  {
    (k: nat, cp: nat) =>
      if k < |routes.collectionRoutes| && 2 <= |routes.collectionRoutes[k].route|
      then Gather(AtPosition(routes, outcome, k, cp), |routes.collectionRoutes[k].route| - 2)
      else []
  }

  /** positions records what Positions(routes, outcome) does, for every node of every route. */
  ghost predicate PositionsAgree(routes: Routes, positions: NodeRecords, outcome: MoveOutcomes)
  {
    forall k: nat, cp: nat {:trigger Positions(routes, outcome)(k, cp)} ::
      positions(k, cp) == Positions(routes, outcome)(k, cp)
  }

  /** What the search records for the node at cp of route k: nothing for a transfer station. */
  ghost function AtNode(routes: Routes, positions: NodeRecords, k: nat): nat -> seq<Routes>
    requires k < |routes.collectionRoutes|
  {
    (cp: nat) =>
      if 1 <= cp < |routes.collectionRoutes[k].route| && !IsTransferStation(routes.collectionRoutes[k].route[cp])
      then positions(k, cp)
      else []
  }

  /** What the search records for each route. */
  type RouteRecords = nat -> seq<Routes>

  /** What trying every node of route k records, node by node. */
  ghost function Nodes(routes: Routes, positions: NodeRecords): RouteRecords
  {
    (k: nat) =>
      if k < |routes.collectionRoutes| && 2 <= |routes.collectionRoutes[k].route|
      then Gather(AtNode(routes, positions, k), |routes.collectionRoutes[k].route| - 2)
      else []
  }

  /** nodes records what Nodes(routes, positions) does, for every route. */
  ghost predicate NodesAgree(routes: Routes, nodes: RouteRecords, positions: NodeRecords)
  {
    forall k: nat {:trigger Nodes(routes, positions)(k)} :: nodes(k) == Nodes(routes, positions)(k)
  }

  /**
   * The neighbourhood the search scans at each step, in scanning order: for every route, for
   * every node other than a transfer station, the neighbour of every feasible move of it to
   * another interior position, position by position.
   */
  ghost function Neighbourhood(m: Metric, t: Truck, routes: Routes): seq<Routes>
  {
    Gather(Nodes(routes, Positions(routes, Outcome(m, t, routes))), |routes.collectionRoutes|)
  }

  /** positions, agreeing with the outcomes, records for a node what trying it at every insertion point gathers. */
  lemma PositionsAt(routes: Routes, outcome: MoveOutcomes, positions: NodeRecords, k: nat, cp: nat)
    requires PositionsAgree(routes, positions, outcome)
    requires k < |routes.collectionRoutes| && 2 <= |routes.collectionRoutes[k].route|
    ensures positions(k, cp) == Gather(AtPosition(routes, outcome, k, cp), |routes.collectionRoutes[k].route| - 2)
  {
    assert positions(k, cp) == Positions(routes, outcome)(k, cp);
  }

  /** nodes, agreeing with positions, records for a route what trying every node of it gathers. */
  lemma NodesAt(routes: Routes, positions: NodeRecords, nodes: RouteRecords, k: nat)
    requires NodesAgree(routes, nodes, positions)
    requires k < |routes.collectionRoutes| && 2 <= |routes.collectionRoutes[k].route|
    ensures nodes(k) == Gather(AtNode(routes, positions, k), |routes.collectionRoutes[k].route| - 2)
  {
    assert nodes(k) == Nodes(routes, positions)(k);
  }

  /** Insertion point 0 is never tried. */
  lemma AtPositionStart(routes: Routes, outcome: MoveOutcomes, k: nat, cp: nat)
    requires k < |routes.collectionRoutes|
    ensures Gather(AtPosition(routes, outcome, k, cp), 1) == []
  {
    assert AtPosition(routes, outcome, k, cp)(0) == [];
  }

  /** The scan over insertion points stops at the last but one position. */
  lemma PositionsGathered(routes: Routes, outcome: MoveOutcomes, k: nat, cp: nat, n: nat, gathered: seq<Routes>)
    requires k < |routes.collectionRoutes| && n == |routes.collectionRoutes[k].route| - 2
    requires gathered == Gather(AtPosition(routes, outcome, k, cp), n)
    ensures gathered == Gather(AtPosition(routes, outcome, k, cp), |routes.collectionRoutes[k].route| - 2)
  {
  }

  /** Node 0, the start of the route, is never tried. */
  lemma AtNodeStart(routes: Routes, positions: NodeRecords, k: nat)
    requires k < |routes.collectionRoutes|
    ensures Gather(AtNode(routes, positions, k), 1) == []
  {
    assert AtNode(routes, positions, k)(0) == [];
  }

  /** On a route too short to have an inner node to move, nothing is gathered past the first. */
  lemma NodesGathered(routes: Routes, positions: NodeRecords, k: nat, gathered: seq<Routes>)
    requires k < |routes.collectionRoutes| && 2 <= |routes.collectionRoutes[k].route|
    requires gathered == Gather(AtNode(routes, positions, k), if |routes.collectionRoutes[k].route| < 3 then 1 else |routes.collectionRoutes[k].route| - 2)
    ensures gathered == Gather(AtNode(routes, positions, k), |routes.collectionRoutes[k].route| - 2)
  {
    if |routes.collectionRoutes[k].route| == 2 {
      assert AtNode(routes, positions, k)(0) == [];
    }
  }

  /** outcome gives the neighbour of the move of the node at cp of route k to position ip. */
  lemma OutcomeAt(m: Metric, t: Truck, routes: Routes, outcome: MoveOutcomes, k: nat, cp: nat, ip: nat)
    requires Workable(routes.collectionRoutes) && SameOnScan(routes, outcome, Outcome(m, t, routes))
    requires InScan(routes, k, cp, ip)
    ensures EndsAtStops(routes.collectionRoutes[k].route)
    ensures outcome(k, cp, ip) == Neighbour(m, t, routes.collectionRoutes[k], cp, ip)
  {
    SearchRouteEndsAtStops(routes.collectionRoutes[k].route);
    assert outcome(k, cp, ip) == Outcome(m, t, routes)(k, cp, ip);
  }

  /** What positions records for a node of route k other than a transfer station is in the whole neighbourhood gathered from nodes. */
  lemma NodeMovesComplete(routes: Routes, positions: NodeRecords, nodes: RouteRecords, k: nat, cp: nat, x: Routes)
    requires NodesAgree(routes, nodes, positions)
    requires k < |routes.collectionRoutes| && 1 <= cp <= |routes.collectionRoutes[k].route| - 3 && !IsTransferStation(routes.collectionRoutes[k].route[cp])
    requires x in positions(k, cp)
    ensures x in Gather(nodes, |routes.collectionRoutes|)
  {
    NodesAt(routes, positions, nodes, k);
    GatherComplete(AtNode(routes, positions, k), |routes.collectionRoutes[k].route| - 2, cp, x);
    GatherComplete(nodes, |routes.collectionRoutes|, k, x);
  }

  /** The neighbour of one feasible move of a node within its route is in what is gathered from positions. */
  lemma MoveCovered(m: Metric, t: Truck, routes: Routes, outcome: MoveOutcomes, positions: NodeRecords, nodes: RouteRecords, k: nat, cp: nat, ip: nat)
    requires Workable(routes.collectionRoutes) && SameOnScan(routes, outcome, Outcome(m, t, routes))
    requires PositionsAgree(routes, positions, outcome) && NodesAgree(routes, nodes, positions)
    requires 0 <= k < |routes.collectionRoutes| && 1 <= cp <= |routes.collectionRoutes[k].route| - 3 && !IsTransferStation(routes.collectionRoutes[k].route[cp]) && 1 <= ip <= |routes.collectionRoutes[k].route| - 3 && ip != cp && Neighbour(m, t, routes.collectionRoutes[k], cp, ip).Some?
    ensures Routes(ReplaceRoute(routes.collectionRoutes, k, Neighbour(m, t, routes.collectionRoutes[k], cp, ip).value), []) in Gather(nodes, |routes.collectionRoutes|)
  {
    OutcomeAt(m, t, routes, outcome, k, cp, ip);
    var x := Routes(ReplaceRoute(routes.collectionRoutes, k, Neighbour(m, t, routes.collectionRoutes[k], cp, ip).value), []);
    assert x in Recorded(routes, k, outcome(k, cp, ip));
    PositionsAt(routes, outcome, positions, k, cp);
    GatherComplete(AtPosition(routes, outcome, k, cp), |routes.collectionRoutes[k].route| - 2, ip, x);
    NodeMovesComplete(routes, positions, nodes, k, cp, x);
  }

  /**
   * The neighbourhood holds the neighbour of every feasible move of a node other than a transfer
   * station to another interior position of its route.
   */
  lemma NeighbourhoodComplete(m: Metric, t: Truck, routes: Routes)
    requires Workable(routes.collectionRoutes)
    ensures forall k, cp, ip | 0 <= k < |routes.collectionRoutes| && 1 <= cp <= |routes.collectionRoutes[k].route| - 3 && !IsTransferStation(routes.collectionRoutes[k].route[cp]) && 1 <= ip <= |routes.collectionRoutes[k].route| - 3 && ip != cp && Neighbour(m, t, routes.collectionRoutes[k], cp, ip).Some? ::
      Routes(ReplaceRoute(routes.collectionRoutes, k, Neighbour(m, t, routes.collectionRoutes[k], cp, ip).value), []) in Neighbourhood(m, t, routes)
  {
    var outcome := Outcome(m, t, routes);
    var positions := Positions(routes, outcome);
    assert SameOnScan(routes, outcome, Outcome(m, t, routes));
    var nodes := Nodes(routes, positions);
    assert PositionsAgree(routes, positions, outcome);
    assert NodesAgree(routes, nodes, positions);
    forall k, cp, ip | 0 <= k < |routes.collectionRoutes| && 1 <= cp <= |routes.collectionRoutes[k].route| - 3 && !IsTransferStation(routes.collectionRoutes[k].route[cp]) && 1 <= ip <= |routes.collectionRoutes[k].route| - 3 && ip != cp && Neighbour(m, t, routes.collectionRoutes[k], cp, ip).Some?
      ensures Routes(ReplaceRoute(routes.collectionRoutes, k, Neighbour(m, t, routes.collectionRoutes[k], cp, ip).value), []) in Gather(nodes, |routes.collectionRoutes|)
    {
      MoveCovered(m, t, routes, outcome, positions, nodes, k, cp, ip);
    }
  }

  /**
   * One pass of the scan over insertion points: the move of the node at cp of route k to ip is
   * built, and its neighbour recorded when it is feasible; ip = cp is skipped.
   */
  method TryPosition(m: Metric, t: Truck, routes: Routes, k: nat, cp: nat, ip: nat, ghost outcome: MoveOutcomes)
    returns (added: seq<Routes>)
    requires Workable(routes.collectionRoutes) && SameOnScan(routes, outcome, Outcome(m, t, routes))
    requires InScan(routes, k, cp, ip)
    ensures added == AtPosition(routes, outcome, k, cp)(ip) && AllSound(routes, added)
  {
    added := [];
    if cp != ip {
      OutcomeAt(m, t, routes, outcome, k, cp, ip);
      var neighbour := BuildNeighbour(m, t, routes.collectionRoutes[k], cp, ip);
      NeighbourSound(m, t, routes.collectionRoutes[k], cp, ip);
      RecordedSound(routes, k, neighbour);
      added := Recorded(routes, k, neighbour);
    }
  }

  /**
   * Tries moving the node at cp of route k to every other position, in order, recording the
   * neighbour of every feasible move. outcome is any table of outcomes that agrees with the
   * moves' own on the scanned moves; the search passes Outcome(m, t, routes) itself.
   */
  method TryPositions(m: Metric, t: Truck, routes: Routes, k: nat, cp: nat, ghost outcome: MoveOutcomes)
    returns (neighbours: seq<Routes>)
    requires Workable(routes.collectionRoutes) && k < |routes.collectionRoutes|
    requires 1 <= cp <= |routes.collectionRoutes[k].route| - 3
    requires SameOnScan(routes, outcome, Outcome(m, t, routes))
    ensures neighbours == Gather(AtPosition(routes, outcome, k, cp), |routes.collectionRoutes[k].route| - 2)
    ensures AllSound(routes, neighbours)
  {
    var len := |routes.collectionRoutes[k].route|;
    ghost var f := AtPosition(routes, outcome, k, cp);
    AtPositionStart(routes, outcome, k, cp);
    neighbours := [];
    var changePosition := 1;
    while changePosition < len - 2
      invariant 1 <= changePosition <= len - 2
      invariant neighbours == Gather(f, changePosition) && AllSound(routes, neighbours)
    {
      var added := TryPosition(m, t, routes, k, cp, changePosition, outcome);
      GatherNext(routes, f, changePosition, neighbours, added);
      neighbours := neighbours + added;
      changePosition := changePosition + 1;
    }
    PositionsGathered(routes, outcome, k, cp, changePosition, neighbours);
  }

  /**
   * Tries every reinsertion within route k of a node that is not a transfer station, recording
   * the neighbour of every feasible move in scanning order.
   */
  method GenerateNeighbours(m: Metric, t: Truck, routes: Routes, k: nat, ghost outcome: MoveOutcomes, ghost positions: NodeRecords)
    returns (neighbours: seq<Routes>)
    requires Workable(routes.collectionRoutes) && k < |routes.collectionRoutes|
    requires SameOnScan(routes, outcome, Outcome(m, t, routes)) && PositionsAgree(routes, positions, outcome)
    ensures 2 <= |routes.collectionRoutes[k].route|
    ensures neighbours == Gather(AtNode(routes, positions, k), |routes.collectionRoutes[k].route| - 2)
    ensures AllSound(routes, neighbours)
  {
    SearchRouteEndsAtStops(routes.collectionRoutes[k].route);
    var collectionRoute := routes.collectionRoutes[k];
    var last := if |collectionRoute.route| < 3 then 1 else |collectionRoute.route| - 2;
    neighbours := [];
    var node := 1;
    ghost var f := AtNode(routes, positions, k);
    AtNodeStart(routes, positions, k);
    while node < last
      invariant 1 <= node <= last && neighbours == Gather(f, node) && AllSound(routes, neighbours)
    {
      var more := [];
      if !IsTransferStation(collectionRoute.route[node]) {
        more := TryPositions(m, t, routes, k, node, outcome);
        PositionsAt(routes, outcome, positions, k, node);
      }
      GatherNext(routes, f, node, neighbours, more);
      neighbours := neighbours + more;
      node := node + 1;
    }
    NodesGathered(routes, positions, k, neighbours);
  }

  /**
   * Tries every route in turn: the neighbourhood the search scans at each step, in scanning
   * order. The search passes Outcome(m, t, routes) for outcome and the tables built from it,
   * so that the result is Neighbourhood(m, t, routes).
   */
  method GenerateAllNeighbours(m: Metric, t: Truck, routes: Routes,
                               ghost outcome: MoveOutcomes, ghost positions: NodeRecords, ghost nodes: RouteRecords)
    returns (neighbours: seq<Routes>)
    requires Workable(routes.collectionRoutes)
    requires SameOnScan(routes, outcome, Outcome(m, t, routes)) && PositionsAgree(routes, positions, outcome)
    requires NodesAgree(routes, nodes, positions)
    ensures neighbours == Gather(nodes, |routes.collectionRoutes|)
    ensures AllSound(routes, neighbours)
  {
    neighbours := [];
    var route := 0;
    while route < |routes.collectionRoutes|
      invariant route <= |routes.collectionRoutes|
      invariant neighbours == Gather(nodes, route)
      invariant AllSound(routes, neighbours)
    {
      var more := GenerateNeighbours(m, t, routes, route, outcome, positions);
      NodesAt(routes, positions, nodes, route);
      AllSoundConcat(routes, neighbours, more);
      neighbours := neighbours + more;
      route := route + 1;
    }
  }
}
