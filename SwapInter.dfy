/**
 * Swap between routes: an area of one route and an area of a later route exchange places.
 * Each route's new time is computed from the two edges around its changed position and the
 * difference in service time; both must keep within the work duration and the sub-routes of
 * both positions within the capacity.
 */
module SwapInter {
  import opened Wrappers
  import opened Graph
  import opened Lists
  import opened Routing
  import opened Solutions
  import opened SubRoutes
  import opened Neighbourhoods

  /**
   * The time of r1 once its node at p1 is replaced by the node at p2 of r2: the two edges around
   * the position are replaced, and the service time of the leaving node by that of the arriving one.
   */
  function CalculateNewRouteTime(m: Metric, t: Truck, r1: seq<Node>, r2: seq<Node>, time: real, p1: nat, p2: nat): real
    requires 1 <= p1 <= |r1| - 2 && p2 < |r2|
  {
    time - TravelTime(m, t, r1[p1 - 1], r1[p1]) - TravelTime(m, t, r1[p1], r1[p1 + 1])
         + TravelTime(m, t, r1[p1 - 1], r2[p2]) + TravelTime(m, t, r2[p2], r1[p1 + 1])
         - ProcessingTime(r1[p1]) + ProcessingTime(r2[p2])
  }

  /** The incremental time is exact: it changes the time by exactly the change in route cost. */
  lemma NewRouteTimeExact(m: Metric, t: Truck, r1: seq<Node>, r2: seq<Node>, time: real, p1: nat, p2: nat)
    requires 1 <= p1 <= |r1| - 2 && p2 < |r2|
    ensures CalculateNewRouteTime(m, t, r1, r2, time, p1, p2) - time
         == RouteCost(m, t, r1[p1 := r2[p2]]) - RouteCost(m, t, r1)
  {
    TravelReplace(m, t, r1, p1, r2[p2]);
  }

  /**
   * Putting an area in place of an area of a workable route before its last stop gives a
   * workable route that serves the same areas with the one exchanged for the other.
   */
  lemma ReplaceAreaSound(r: seq<Node>, k: nat, y: Node)
    requires SearchRoute(r) && 1 <= k <= |r| - 3 && IsArea(r[k]) && IsArea(y)
    ensures SearchRoute(r[k := y])
    ensures Areas(r[k := y]) + multiset{r[k]} == Areas(r) + multiset{y}
  {
    var s := RemoveAt(r, k);
    assert r[k := y] == Insert(s, k, y);
    AreasRemoveArea(r, k);
    AreasInsertArea(s, k, y);
    AreasCount(r, r[k]);
  }

  /**
   * The pair of routes the exchange of the area at p1 of cr1 with the area at p2 of cr2 yields,
   * if it is feasible: both routes must keep within the work duration (the first is checked
   * first) and the sub-routes of both positions within the capacity.
   */
  ghost function Neighbour(m: Metric, t: Truck, cr1: CollectionRoute, cr2: CollectionRoute, p1: nat, p2: nat)
    : Option<(CollectionRoute, CollectionRoute)>
    requires EndsAtStops(cr1.route) && EndsAtStops(cr2.route)
    requires 1 <= p1 <= |cr1.route| - 3 && 1 <= p2 <= |cr2.route| - 3
  {
    var time1 := CalculateNewRouteTime(m, t, cr1.route, cr2.route, cr1.routeTime, p1, p2);
    var time2 := CalculateNewRouteTime(m, t, cr2.route, cr1.route, cr2.routeTime, p2, p1);
    var route1 := cr1.route[p1 := cr2.route[p2]];
    var route2 := cr2.route[p2 := cr1.route[p1]];
    StopBeforeStart(route1, p1);
    StopBeforeStart(route2, p2);
    if time1 > t.workDuration as real || time2 > t.workDuration as real then None
    else if !SubRouteFits(route1, SubRouteStart(route1, p1), t.capacity) then None
    else if !SubRouteFits(route2, SubRouteStart(route2, p2), t.capacity) then None
    else Some((CollectionRoute(route1, [], time1), CollectionRoute(route2, [], time2)))
  }

  /**
   * A neighbour of two workable routes is a pair of workable routes serving between them the
   * same areas, each keeping within the work duration and carrying a time that differs from its
   * old one by exactly the change in its cost.
   */
  lemma NeighbourSound(m: Metric, t: Truck, cr1: CollectionRoute, cr2: CollectionRoute, p1: nat, p2: nat)
    requires SearchRoute(cr1.route) && SearchRoute(cr2.route)
    requires 1 <= p1 <= |cr1.route| - 3 && 1 <= p2 <= |cr2.route| - 3
    requires !IsTransferStation(cr1.route[p1]) && !IsTransferStation(cr2.route[p2])
    ensures EndsAtStops(cr1.route) && EndsAtStops(cr2.route)
    ensures Neighbour(m, t, cr1, cr2, p1, p2).Some? ==>
      var p := Neighbour(m, t, cr1, cr2, p1, p2).value;
      && SearchRoute(p.0.route) && SearchRoute(p.1.route)
      && Areas(p.0.route) + Areas(p.1.route) == Areas(cr1.route) + Areas(cr2.route)
      && p.0.routeTime <= t.workDuration as real && p.1.routeTime <= t.workDuration as real
      && p.0.routeTime - cr1.routeTime == RouteCost(m, t, p.0.route) - RouteCost(m, t, cr1.route)
      && p.1.routeTime - cr2.routeTime == RouteCost(m, t, p.1.route) - RouteCost(m, t, cr2.route)
  {
    NewRouteTimeExact(m, t, cr1.route, cr2.route, cr1.routeTime, p1, p2);
    NewRouteTimeExact(m, t, cr2.route, cr1.route, cr2.routeTime, p2, p1);
    ExchangeSound(cr1.route, cr2.route, p1, p2);
  }

  /** Exchanging an area of one workable route with one of another keeps both workable and the areas served. */
  lemma ExchangeSound(r1: seq<Node>, r2: seq<Node>, p1: nat, p2: nat)
    requires SearchRoute(r1) && SearchRoute(r2)
    requires 1 <= p1 <= |r1| - 3 && 1 <= p2 <= |r2| - 3
    requires !IsTransferStation(r1[p1]) && !IsTransferStation(r2[p2])
    ensures SearchRoute(r1[p1 := r2[p2]]) && SearchRoute(r2[p2 := r1[p1]])
    ensures Areas(r1[p1 := r2[p2]]) + Areas(r2[p2 := r1[p1]]) == Areas(r1) + Areas(r2)
  {
    var x, y := r1[p1], r2[p2];
    ReplaceAreaSound(r1, p1, y);
    ReplaceAreaSound(r2, p2, x);
    var a1, a2 := Areas(r1[p1 := y]), Areas(r2[p2 := x]);
    forall z: Node
      ensures (a1 + a2)[z] == (Areas(r1) + Areas(r2))[z]
    {
      assert (a1 + multiset{x})[z] == (Areas(r1) + multiset{y})[z];
      assert (a2 + multiset{y})[z] == (Areas(r2) + multiset{x})[z];
    }
    assert a1 + a2 == Areas(r1) + Areas(r2);
  }

  /**
   * Computes the first route's new time and, when it keeps within the work duration, the
   * second's; when both do, exchanges the nodes and checks the capacity of both sub-routes.
   * The second time is left as it was when the first one is already too long.
   */
  method IsFactibleRoute(m: Metric, t: Truck, route1: seq<Node>, route2: seq<Node>, currentRouteTime1: real,
                         currentRouteTime2: real, p1: nat, p2: nat)
    returns (isFactible: bool, newRoute1: seq<Node>, newRoute2: seq<Node>, newRouteTime1: real, newRouteTime2: real)
    requires EndsAtStops(route1) && EndsAtStops(route2) && 1 <= p1 <= |route1| - 3 && 1 <= p2 <= |route2| - 3
    ensures newRouteTime1 == CalculateNewRouteTime(m, t, route1, route2, currentRouteTime1, p1, p2)
    ensures newRouteTime2 == if newRouteTime1 > t.workDuration as real then currentRouteTime2
      else CalculateNewRouteTime(m, t, route2, route1, currentRouteTime2, p2, p1)
    ensures StopBefore(route1[p1 := route2[p2]], p1) && StopBefore(route2[p2 := route1[p1]], p2)
    ensures isFactible <==> (
      && newRouteTime1 <= t.workDuration as real && newRouteTime2 <= t.workDuration as real
      && SubRouteFits(route1[p1 := route2[p2]], SubRouteStart(route1[p1 := route2[p2]], p1), t.capacity)
      && SubRouteFits(route2[p2 := route1[p1]], SubRouteStart(route2[p2 := route1[p1]], p2), t.capacity))
    ensures isFactible ==> newRoute1 == route1[p1 := route2[p2]] && newRoute2 == route2[p2 := route1[p1]]
  {
    StopBeforeStart(route1[p1 := route2[p2]], p1);
    StopBeforeStart(route2[p2 := route1[p1]], p2);
    newRoute1, newRoute2 := route1, route2;
    newRouteTime1 := CalculateNewRouteTime(m, t, route1, route2, currentRouteTime1, p1, p2);
    if newRouteTime1 > t.workDuration as real {
      return false, newRoute1, newRoute2, newRouteTime1, currentRouteTime2;
    }
    newRouteTime2 := CalculateNewRouteTime(m, t, route2, route1, currentRouteTime2, p2, p1);
    if newRouteTime2 > t.workDuration as real {
      return false, newRoute1, newRoute2, newRouteTime1, newRouteTime2;
    }
    var swapNode1, swapNode2 := route1[p1], route2[p2];
    newRoute1 := newRoute1[p1 := swapNode2];
    newRoute2 := newRoute2[p2 := swapNode1];
    var fits1 := IsFactibleCapacity(newRoute1, p1, t.capacity);
    var fits2 := IsFactibleCapacity(newRoute2, p2, t.capacity);
    isFactible := fits1 && fits2;
  }

  /** Builds the pair of routes of an exchange, or nothing when it is not feasible. */
  method BuildNeighbour(m: Metric, t: Truck, cr1: CollectionRoute, cr2: CollectionRoute, p1: nat, p2: nat)
    returns (neighbour: Option<(CollectionRoute, CollectionRoute)>)
    requires EndsAtStops(cr1.route) && EndsAtStops(cr2.route)
    requires 1 <= p1 <= |cr1.route| - 3 && 1 <= p2 <= |cr2.route| - 3
    ensures neighbour == Neighbour(m, t, cr1, cr2, p1, p2)
  {
    var isFactible, newRoute1, newRoute2, newRouteTime1, newRouteTime2 :=
      IsFactibleRoute(m, t, cr1.route, cr2.route, cr1.routeTime, cr2.routeTime, p1, p2);
    if !isFactible {
      return None;
    }
    neighbour := Some((CollectionRoute(newRoute1, [], newRouteTime1), CollectionRoute(newRoute2, [], newRouteTime2)));
  }

  /** What the search records for an exchange between routes i and j: nothing, or the new solution. */
  function RecordedPair(routes: Routes, i: nat, j: nat, n: Option<(CollectionRoute, CollectionRoute)>): seq<Routes>
    requires i < |routes.collectionRoutes| && j < |routes.collectionRoutes| && i != j
  {
    match n
    case None => []
    case Some(p) => [Routes(ReplacePair(routes.collectionRoutes, i, j, [p.0, p.1]), [])]
  }

  /** What is recorded for a sound pair replacing routes i and j of a workable list is a sound neighbour. */
  lemma RecordedPairSound(routes: Routes, i: nat, j: nat, n: Option<(CollectionRoute, CollectionRoute)>)
    requires Workable(routes.collectionRoutes) && i < |routes.collectionRoutes| && j < |routes.collectionRoutes| && i != j
    requires n.Some? ==> SearchRoute(n.value.0.route) && SearchRoute(n.value.1.route)
    requires n.Some? ==> (Areas(n.value.0.route) + Areas(n.value.1.route)
      == Areas(routes.collectionRoutes[i].route) + Areas(routes.collectionRoutes[j].route))
    ensures AllSound(routes, RecordedPair(routes, i, j, n))
  {
    if n.Some? {
      TwoRoutes(n.value.0, n.value.1);
      ReplacePairSound(routes, i, j, [n.value.0, n.value.1]);
    }
  }

  /** The solution a feasible exchange yields: routes i and j taken out (the later one first), then both new routes appended. */
  method NewSolution(routes: Routes, i: nat, j: nat, p: (CollectionRoute, CollectionRoute)) returns (neighbour: Routes)
    requires i < |routes.collectionRoutes| && j < |routes.collectionRoutes| && i != j
    ensures [neighbour] == RecordedPair(routes, i, j, Some(p))
  {
    var maxIndexRoute := if i < j then j else i;
    var minIndexRoute := if i < j then i else j;
    var newRoutes := RemoveAt(routes.collectionRoutes, maxIndexRoute);
    newRoutes := RemoveAt(newRoutes, minIndexRoute);
    newRoutes := newRoutes + [p.0];
    newRoutes := newRoutes + [p.1];
    assert newRoutes == RemoveAt(RemoveAt(routes.collectionRoutes, maxIndexRoute), minIndexRoute) + [p.0, p.1];
    neighbour := Routes(newRoutes, []);
  }

  /** What the search records for each exchange (first route, second route, their positions): the new solution, or nothing. */
  type ExchangeRecords = (nat, nat, nat, nat) -> seq<Routes>

  /** The exchange of the node at p1 of route i with the node at p2 of route j is one the search scans. */
  predicate InScan(routes: Routes, i: nat, j: nat, p1: nat, p2: nat)
  {
    i < |routes.collectionRoutes| && j < |routes.collectionRoutes| && i != j && 1 <= p1 <= |routes.collectionRoutes[i].route| - 3 && 1 <= p2 <= |routes.collectionRoutes[j].route| - 3
  }

  /**
   * What the search records for the exchanges between the routes: the solution the exchange of
   * the node at p1 of route i with the node at p2 of route j yields, if it is feasible, and
   * nothing for an exchange outside the scanned positions.
   */
  ghost function Outcome(m: Metric, t: Truck, routes: Routes): ExchangeRecords
  {
    (i: nat, j: nat, p1: nat, p2: nat) =>
      if InScan(routes, i, j, p1, p2) && EndsAtStops(routes.collectionRoutes[i].route) && EndsAtStops(routes.collectionRoutes[j].route)
      then RecordedPair(routes, i, j, Neighbour(m, t, routes.collectionRoutes[i], routes.collectionRoutes[j], p1, p2))
      else []
  }

  /** f records what g records for every scanned exchange. */
  ghost predicate SameOnScan(routes: Routes, f: ExchangeRecords, g: ExchangeRecords)
  {
    forall i: nat, j: nat, p1: nat, p2: nat {:trigger g(i, j, p1, p2)} | InScan(routes, i, j, p1, p2) ::
      f(i, j, p1, p2) == g(i, j, p1, p2)
  }

  /** What the search records for the node at p1 of route i and the node at p2 of route j: nothing for a transfer station. */
  ghost function AtPosition(routes: Routes, outcome: ExchangeRecords, i: nat, j: nat, p1: nat): nat -> seq<Routes>
    requires j < |routes.collectionRoutes|
  {
    (p2: nat) =>
      if 1 <= p2 < |routes.collectionRoutes[j].route| && !IsTransferStation(routes.collectionRoutes[j].route[p2])
      then outcome(i, j, p1, p2)
      else []
  }

  /** What the search records for each node of a route exchanged with a second route (first route, second route, node). */
  type NodeRecords = (nat, nat, nat) -> seq<Routes>

  /** What trying the node at p1 of route i against every area of route j records, area by area. */
  ghost function Positions(routes: Routes, outcome: ExchangeRecords): NodeRecords
  {
    (i: nat, j: nat, p1: nat) =>
      if j < |routes.collectionRoutes| && 2 <= |routes.collectionRoutes[j].route|
      then Gather(AtPosition(routes, outcome, i, j, p1), |routes.collectionRoutes[j].route| - 2)
      else []
  }

  /** positions records what Positions(routes, outcome) does, for every node of every pair of routes. */
  ghost predicate PositionsAgree(routes: Routes, positions: NodeRecords, outcome: ExchangeRecords)
  {
    forall i: nat, j: nat, p1: nat {:trigger Positions(routes, outcome)(i, j, p1)} ::
      positions(i, j, p1) == Positions(routes, outcome)(i, j, p1)
  }

  /** What the search records for the node at p1 of route i, exchanged with route j: nothing for a transfer station. */
  ghost function AtNode(routes: Routes, positions: NodeRecords, i: nat, j: nat): nat -> seq<Routes>
    requires i < |routes.collectionRoutes|
  {
    (p1: nat) =>
      if 1 <= p1 < |routes.collectionRoutes[i].route| && !IsTransferStation(routes.collectionRoutes[i].route[p1])
      then positions(i, j, p1)
      else []
  }

  /** What the search records for each pair of routes (first route, second route). */
  type PairRecords = (nat, nat) -> seq<Routes>

  /** What trying every node of route i against route j records, node by node. */
  ghost function Nodes(routes: Routes, positions: NodeRecords): PairRecords
  {
    (i: nat, j: nat) =>
      if i < |routes.collectionRoutes| && 2 <= |routes.collectionRoutes[i].route|
      then Gather(AtNode(routes, positions, i, j), |routes.collectionRoutes[i].route| - 2)
      else []
  }

  /** nodes records what Nodes(routes, positions) does, for every pair of routes. */
  ghost predicate NodesAgree(routes: Routes, nodes: PairRecords, positions: NodeRecords)
  {
    forall i: nat, j: nat {:trigger Nodes(routes, positions)(i, j)} ::
      nodes(i, j) == Nodes(routes, positions)(i, j)
  }

  /** What the search records for route i and route j: nothing unless j comes after i. */
  ghost function AtPartner(routes: Routes, nodes: PairRecords, i: nat): nat -> seq<Routes>
  {
    (j: nat) => if i < j < |routes.collectionRoutes| then nodes(i, j) else []
  }

  /** What the search records for route i and every later route: nothing for the last route. */
  ghost function AtRoute(routes: Routes, nodes: PairRecords): nat -> seq<Routes>
  {
    (i: nat) => if i + 1 < |routes.collectionRoutes| then Gather(AtPartner(routes, nodes, i), |routes.collectionRoutes|) else []
  }

  /**
   * The neighbourhood the search scans at each step, in scanning order: for every route and
   * every later route, for every node of the first other than a transfer station, the solution
   * of every feasible exchange with an area of the second, area by area.
   */
  ghost function Neighbourhood(m: Metric, t: Truck, routes: Routes): seq<Routes>
  {
    Gather(AtRoute(routes, Nodes(routes, Positions(routes, Outcome(m, t, routes)))), |routes.collectionRoutes|)
  }

  /** positions, agreeing with the outcomes, records for a node what trying it against route j gathers. */
  lemma PositionsAt(routes: Routes, outcome: ExchangeRecords, positions: NodeRecords, i: nat, j: nat, p1: nat)
    requires PositionsAgree(routes, positions, outcome)
    requires j < |routes.collectionRoutes| && 2 <= |routes.collectionRoutes[j].route|
    ensures positions(i, j, p1) == Gather(AtPosition(routes, outcome, i, j, p1), |routes.collectionRoutes[j].route| - 2)
  {
    assert positions(i, j, p1) == Positions(routes, outcome)(i, j, p1);
  }

  /** nodes, agreeing with positions, records for a pair of routes what trying every node of route i gathers. */
  lemma NodesAt(routes: Routes, positions: NodeRecords, nodes: PairRecords, i: nat, j: nat)
    requires NodesAgree(routes, nodes, positions)
    requires i < |routes.collectionRoutes| && 2 <= |routes.collectionRoutes[i].route|
    ensures nodes(i, j) == Gather(AtNode(routes, positions, i, j), |routes.collectionRoutes[i].route| - 2)
  {
    assert nodes(i, j) == Nodes(routes, positions)(i, j);
  }

  /** Gathering one more node of route i appends what positions records for it, or nothing for a transfer station. */
  lemma AtNodeStep(routes: Routes, positions: NodeRecords, i: nat, j: nat, p1: nat)
    requires i < |routes.collectionRoutes| && 1 <= p1 < |routes.collectionRoutes[i].route|
    ensures Gather(AtNode(routes, positions, i, j), p1 + 1)
      == Gather(AtNode(routes, positions, i, j), p1) + if !IsTransferStation(routes.collectionRoutes[i].route[p1]) then positions(i, j, p1) else []
  {
  }

  /** Route i records nothing with itself or an earlier route. */
  lemma AtPartnerStart(routes: Routes, nodes: PairRecords, i: nat)
    ensures Gather(AtPartner(routes, nodes, i), i + 1) == []
  {
    GatherNone(AtPartner(routes, nodes, i), i + 1);
  }

  /** Gathering one more later route j appends what nodes records for the pair. */
  lemma AtPartnerStep(routes: Routes, nodes: PairRecords, i: nat, j: nat)
    requires i < j < |routes.collectionRoutes|
    ensures Gather(AtPartner(routes, nodes, i), j + 1) == Gather(AtPartner(routes, nodes, i), j) + nodes(i, j)
  {
  }

  /** The scan over the later routes, one more route on: what it gathered, then what the pair records. */
  lemma PartnerGathered(routes: Routes, nodes: PairRecords, i: nat, j: nat, gathered: seq<Routes>, more: seq<Routes>)
    requires i < j < |routes.collectionRoutes|
    requires gathered == Gather(AtPartner(routes, nodes, i), j) && AllSound(routes, gathered)
    requires more == nodes(i, j) && AllSound(routes, more)
    ensures gathered + more == Gather(AtPartner(routes, nodes, i), j + 1) && AllSound(routes, gathered + more)
  {
    AtPartnerStep(routes, nodes, i, j);
    AllSoundConcat(routes, gathered, more);
  }

  /** Gathering one more route i, not the last one, appends what its exchanges with the later routes record. */
  lemma AtRouteStep(routes: Routes, nodes: PairRecords, i: nat)
    requires i + 1 < |routes.collectionRoutes|
    ensures Gather(AtRoute(routes, nodes), i + 1) == Gather(AtRoute(routes, nodes), i) + Gather(AtPartner(routes, nodes, i), |routes.collectionRoutes|)
  {
  }

  /** The scan over the routes, one more route on: what it gathered, then that route's exchanges with the later ones. */
  lemma RouteGathered(routes: Routes, nodes: PairRecords, i: nat, gathered: seq<Routes>, more: seq<Routes>)
    requires i + 1 < |routes.collectionRoutes|
    requires gathered == Gather(AtRoute(routes, nodes), i) && AllSound(routes, gathered)
    requires more == Gather(AtPartner(routes, nodes, i), |routes.collectionRoutes|) && AllSound(routes, more)
    ensures gathered + more == Gather(AtRoute(routes, nodes), i + 1) && AllSound(routes, gathered + more)
  {
    AtRouteStep(routes, nodes, i);
    AllSoundConcat(routes, gathered, more);
  }

  /** The last route has no later route to exchange with, so nothing is recorded for it. */
  lemma AtRouteLast(routes: Routes, nodes: PairRecords, n: nat)
    requires n + 1 == |routes.collectionRoutes|
    ensures Gather(AtRoute(routes, nodes), |routes.collectionRoutes|) == Gather(AtRoute(routes, nodes), n)
  {
    assert AtRoute(routes, nodes)(n) == [];
  }

  /** The scan stops before the last route, which adds nothing: what it gathered is everything. */
  lemma RoutesGathered(routes: Routes, nodes: PairRecords, i: nat, gathered: seq<Routes>)
    requires i == if |routes.collectionRoutes| == 0 then 0 else |routes.collectionRoutes| - 1
    requires gathered == Gather(AtRoute(routes, nodes), i)
    ensures gathered == Gather(AtRoute(routes, nodes), |routes.collectionRoutes|)
  {
    if 0 < |routes.collectionRoutes| {
      AtRouteLast(routes, nodes, i);
    }
  }

  /**
   * outcome records, for the exchange of the node at p1 of route i with the node at p2 of route j,
   * the solution the exchange yields if it is feasible, and nothing otherwise.
   */
  lemma OutcomeAt(m: Metric, t: Truck, routes: Routes, outcome: ExchangeRecords, i: nat, j: nat, p1: nat, p2: nat)
    requires Workable(routes.collectionRoutes) && SameOnScan(routes, outcome, Outcome(m, t, routes))
    requires InScan(routes, i, j, p1, p2)
    ensures EndsAtStops(routes.collectionRoutes[i].route) && EndsAtStops(routes.collectionRoutes[j].route)
    ensures outcome(i, j, p1, p2) == RecordedPair(routes, i, j, Neighbour(m, t, routes.collectionRoutes[i], routes.collectionRoutes[j], p1, p2))
  {
    SearchRouteEndsAtStops(routes.collectionRoutes[i].route);
    SearchRouteEndsAtStops(routes.collectionRoutes[j].route);
    assert outcome(i, j, p1, p2) == Outcome(m, t, routes)(i, j, p1, p2);
  }

  /** What is recorded for an exchange of the node at p1 of route i with an area of route j is in what positions records for p1. */
  lemma PositionMovesComplete(routes: Routes, outcome: ExchangeRecords, positions: NodeRecords, i: nat, j: nat, p1: nat, p2: nat, x: Routes)
    requires PositionsAgree(routes, positions, outcome)
    requires j < |routes.collectionRoutes| && 1 <= p2 <= |routes.collectionRoutes[j].route| - 3 && !IsTransferStation(routes.collectionRoutes[j].route[p2])
    requires x in outcome(i, j, p1, p2)
    ensures x in positions(i, j, p1)
  {
    PositionsAt(routes, outcome, positions, i, j, p1);
    GatherComplete(AtPosition(routes, outcome, i, j, p1), |routes.collectionRoutes[j].route| - 2, p2, x);
  }

  /** What positions records for a node of route i other than a transfer station is in what nodes records for the pair. */
  lemma NodeMovesComplete(routes: Routes, positions: NodeRecords, nodes: PairRecords, i: nat, j: nat, p1: nat, x: Routes)
    requires NodesAgree(routes, nodes, positions)
    requires i < |routes.collectionRoutes| && 1 <= p1 <= |routes.collectionRoutes[i].route| - 3 && !IsTransferStation(routes.collectionRoutes[i].route[p1])
    requires x in positions(i, j, p1)
    ensures x in nodes(i, j)
  {
    NodesAt(routes, positions, nodes, i, j);
    GatherComplete(AtNode(routes, positions, i, j), |routes.collectionRoutes[i].route| - 2, p1, x);
  }

  /** What nodes records for a route and a later route is in the whole neighbourhood gathered from nodes. */
  lemma RouteMovesComplete(routes: Routes, nodes: PairRecords, i: nat, j: nat, x: Routes)
    requires i < j < |routes.collectionRoutes| && x in nodes(i, j)
    ensures x in Gather(AtRoute(routes, nodes), |routes.collectionRoutes|)
  {
    GatherComplete(AtPartner(routes, nodes, i), |routes.collectionRoutes|, j, x);
    GatherComplete(AtRoute(routes, nodes), |routes.collectionRoutes|, i, x);
  }

  /** The neighbour of every feasible exchange of the area at p1 of route i with an area of route j is recorded. */
  lemma PositionMovesCover(m: Metric, t: Truck, routes: Routes, outcome: ExchangeRecords, i: nat, j: nat, p1: nat)
    requires Workable(routes.collectionRoutes) && i < |routes.collectionRoutes| && j < |routes.collectionRoutes| && i != j
    requires 1 <= p1 <= |routes.collectionRoutes[i].route| - 3
    requires SameOnScan(routes, outcome, Outcome(m, t, routes))
    ensures 2 <= |routes.collectionRoutes[j].route|
    ensures forall p2 | 1 <= p2 <= |routes.collectionRoutes[j].route| - 3 && !IsTransferStation(routes.collectionRoutes[j].route[p2]) && Neighbour(m, t, routes.collectionRoutes[i], routes.collectionRoutes[j], p1, p2).Some? ::
      Routes(ReplacePair(routes.collectionRoutes, i, j, [Neighbour(m, t, routes.collectionRoutes[i], routes.collectionRoutes[j], p1, p2).value.0, Neighbour(m, t, routes.collectionRoutes[i], routes.collectionRoutes[j], p1, p2).value.1]), [])
        in Gather(AtPosition(routes, outcome, i, j, p1), |routes.collectionRoutes[j].route| - 2)
  {
    SearchRouteEndsAtStops(routes.collectionRoutes[j].route);
    forall p2 | 1 <= p2 <= |routes.collectionRoutes[j].route| - 3 && !IsTransferStation(routes.collectionRoutes[j].route[p2]) && Neighbour(m, t, routes.collectionRoutes[i], routes.collectionRoutes[j], p1, p2).Some?
      ensures Routes(ReplacePair(routes.collectionRoutes, i, j, [Neighbour(m, t, routes.collectionRoutes[i], routes.collectionRoutes[j], p1, p2).value.0, Neighbour(m, t, routes.collectionRoutes[i], routes.collectionRoutes[j], p1, p2).value.1]), [])
        in Gather(AtPosition(routes, outcome, i, j, p1), |routes.collectionRoutes[j].route| - 2)
    {
      PositionMoveCovered(m, t, routes, outcome, i, j, p1, p2);
    }
  }

  /** The solution of one feasible exchange of the area at p1 with an area of route j is in what the scan of route j gathers. */
  lemma PositionMoveCovered(m: Metric, t: Truck, routes: Routes, outcome: ExchangeRecords, i: nat, j: nat, p1: nat, p2: nat)
    requires Workable(routes.collectionRoutes) && i < |routes.collectionRoutes| && j < |routes.collectionRoutes| && i != j
    requires 1 <= p1 <= |routes.collectionRoutes[i].route| - 3
    requires SameOnScan(routes, outcome, Outcome(m, t, routes))
    requires 1 <= p2 <= |routes.collectionRoutes[j].route| - 3 && !IsTransferStation(routes.collectionRoutes[j].route[p2])
    requires Neighbour(m, t, routes.collectionRoutes[i], routes.collectionRoutes[j], p1, p2).Some?
    ensures Routes(ReplacePair(routes.collectionRoutes, i, j, [Neighbour(m, t, routes.collectionRoutes[i], routes.collectionRoutes[j], p1, p2).value.0, Neighbour(m, t, routes.collectionRoutes[i], routes.collectionRoutes[j], p1, p2).value.1]), [])
      in Gather(AtPosition(routes, outcome, i, j, p1), |routes.collectionRoutes[j].route| - 2)
  {
    var x := Routes(ReplacePair(routes.collectionRoutes, i, j, [Neighbour(m, t, routes.collectionRoutes[i], routes.collectionRoutes[j], p1, p2).value.0, Neighbour(m, t, routes.collectionRoutes[i], routes.collectionRoutes[j], p1, p2).value.1]), []);
    OutcomeAt(m, t, routes, outcome, i, j, p1, p2);
    assert x in AtPosition(routes, outcome, i, j, p1)(p2);
    GatherComplete(AtPosition(routes, outcome, i, j, p1), |routes.collectionRoutes[j].route| - 2, p2, x);
  }

  /** The solution of one feasible exchange between a route and a later one is in what is gathered from nodes. */
  lemma ExchangeCovered(m: Metric, t: Truck, routes: Routes, outcome: ExchangeRecords, positions: NodeRecords, nodes: PairRecords,
                        i: nat, j: nat, p1: nat, p2: nat)
    requires Workable(routes.collectionRoutes) && SameOnScan(routes, outcome, Outcome(m, t, routes))
    requires PositionsAgree(routes, positions, outcome) && NodesAgree(routes, nodes, positions)
    requires 0 <= i < j < |routes.collectionRoutes| && 1 <= p1 <= |routes.collectionRoutes[i].route| - 3 && !IsTransferStation(routes.collectionRoutes[i].route[p1]) && 1 <= p2 <= |routes.collectionRoutes[j].route| - 3 && !IsTransferStation(routes.collectionRoutes[j].route[p2]) && Neighbour(m, t, routes.collectionRoutes[i], routes.collectionRoutes[j], p1, p2).Some?
    ensures Routes(ReplacePair(routes.collectionRoutes, i, j, [Neighbour(m, t, routes.collectionRoutes[i], routes.collectionRoutes[j], p1, p2).value.0, Neighbour(m, t, routes.collectionRoutes[i], routes.collectionRoutes[j], p1, p2).value.1]), []) in Gather(AtRoute(routes, nodes), |routes.collectionRoutes|)
  {
    OutcomeAt(m, t, routes, outcome, i, j, p1, p2);
    var x := Routes(ReplacePair(routes.collectionRoutes, i, j, [Neighbour(m, t, routes.collectionRoutes[i], routes.collectionRoutes[j], p1, p2).value.0, Neighbour(m, t, routes.collectionRoutes[i], routes.collectionRoutes[j], p1, p2).value.1]), []);
    assert x in outcome(i, j, p1, p2);
    PositionMovesComplete(routes, outcome, positions, i, j, p1, p2, x);
    NodeMovesComplete(routes, positions, nodes, i, j, p1, x);
    RouteMovesComplete(routes, nodes, i, j, x);
  }

  /**
   * The neighbourhood holds the neighbour of every feasible exchange of two areas other than
   * transfer stations between a route and a later one.
   */
  lemma NeighbourhoodComplete(m: Metric, t: Truck, routes: Routes)
    requires Workable(routes.collectionRoutes)
    ensures forall i, j, p1, p2 | 0 <= i < j < |routes.collectionRoutes| && 1 <= p1 <= |routes.collectionRoutes[i].route| - 3 && !IsTransferStation(routes.collectionRoutes[i].route[p1]) && 1 <= p2 <= |routes.collectionRoutes[j].route| - 3 && !IsTransferStation(routes.collectionRoutes[j].route[p2]) && Neighbour(m, t, routes.collectionRoutes[i], routes.collectionRoutes[j], p1, p2).Some? ::
      Routes(ReplacePair(routes.collectionRoutes, i, j, [Neighbour(m, t, routes.collectionRoutes[i], routes.collectionRoutes[j], p1, p2).value.0, Neighbour(m, t, routes.collectionRoutes[i], routes.collectionRoutes[j], p1, p2).value.1]), []) in Neighbourhood(m, t, routes)
  {
    var outcome := Outcome(m, t, routes);
    var positions := Positions(routes, outcome);
    var nodes := Nodes(routes, positions);
    assert SameOnScan(routes, outcome, Outcome(m, t, routes));
    assert PositionsAgree(routes, positions, outcome);
    assert NodesAgree(routes, nodes, positions);
    forall i, j, p1, p2 | 0 <= i < j < |routes.collectionRoutes| && 1 <= p1 <= |routes.collectionRoutes[i].route| - 3 && !IsTransferStation(routes.collectionRoutes[i].route[p1]) && 1 <= p2 <= |routes.collectionRoutes[j].route| - 3 && !IsTransferStation(routes.collectionRoutes[j].route[p2]) && Neighbour(m, t, routes.collectionRoutes[i], routes.collectionRoutes[j], p1, p2).Some?
      ensures Routes(ReplacePair(routes.collectionRoutes, i, j, [Neighbour(m, t, routes.collectionRoutes[i], routes.collectionRoutes[j], p1, p2).value.0, Neighbour(m, t, routes.collectionRoutes[i], routes.collectionRoutes[j], p1, p2).value.1]), []) in Gather(AtRoute(routes, nodes), |routes.collectionRoutes|)
    {
      ExchangeCovered(m, t, routes, outcome, positions, nodes, i, j, p1, p2);
    }
  }

  /**
   * One pass of the scan over route j: the exchange of the area at p1 of route i with the node at
   * p2 of route j is built, and its solution recorded when it is feasible; a transfer station at
   * p2 is skipped.
   */
  method TryExchange(m: Metric, t: Truck, routes: Routes, i: nat, j: nat, p1: nat, p2: nat, ghost outcome: ExchangeRecords)
    returns (added: seq<Routes>)
    requires Workable(routes.collectionRoutes) && i < |routes.collectionRoutes| && j < |routes.collectionRoutes| && i != j
    requires 1 <= p1 <= |routes.collectionRoutes[i].route| - 3 && !IsTransferStation(routes.collectionRoutes[i].route[p1])
    requires 1 <= p2 <= |routes.collectionRoutes[j].route| - 3
    requires SameOnScan(routes, outcome, Outcome(m, t, routes))
    ensures added == AtPosition(routes, outcome, i, j, p1)(p2) && AllSound(routes, added)
  {
    added := [];
    if !IsTransferStation(routes.collectionRoutes[j].route[p2]) {
      OutcomeAt(m, t, routes, outcome, i, j, p1, p2);
      var neighbour := BuildNeighbour(m, t, routes.collectionRoutes[i], routes.collectionRoutes[j], p1, p2);
      NeighbourSound(m, t, routes.collectionRoutes[i], routes.collectionRoutes[j], p1, p2);
      RecordedPairSound(routes, i, j, neighbour);
      if neighbour.Some? {
        var solution := NewSolution(routes, i, j, neighbour.value);
        added := [solution];
      }
    }
  }

  /**
   * Tries exchanging the area at p1 of route i with every area of route j, in order, recording
   * the neighbour of every feasible exchange. outcome is any table of records that agrees with
   * the exchanges' own on the scanned ones; the search passes Outcome(m, t, routes) itself.
   */
  method TryExchanges(m: Metric, t: Truck, routes: Routes, i: nat, j: nat, p1: nat, ghost outcome: ExchangeRecords)
    returns (neighbours: seq<Routes>)
    requires Workable(routes.collectionRoutes) && i < |routes.collectionRoutes| && j < |routes.collectionRoutes| && i != j
    requires 1 <= p1 <= |routes.collectionRoutes[i].route| - 3 && !IsTransferStation(routes.collectionRoutes[i].route[p1])
    requires SameOnScan(routes, outcome, Outcome(m, t, routes))
    ensures 2 <= |routes.collectionRoutes[j].route|
    ensures neighbours == Gather(AtPosition(routes, outcome, i, j, p1), |routes.collectionRoutes[j].route| - 2)
    ensures AllSound(routes, neighbours)
  {
    SearchRouteEndsAtStops(routes.collectionRoutes[j].route);
    var len := |routes.collectionRoutes[j].route|;
    ghost var f := AtPosition(routes, outcome, i, j, p1);
    assert f(0) == [];
    neighbours := [];
    var changePosition := 1;
    while changePosition < len - 2
      invariant 1 <= changePosition && (changePosition == 1 || changePosition <= len - 2)
      invariant neighbours == Gather(f, changePosition) && AllSound(routes, neighbours)
    {
      var added := TryExchange(m, t, routes, i, j, p1, changePosition, outcome);
      GatherNext(routes, f, changePosition, neighbours, added);
      neighbours := neighbours + added;
      changePosition := changePosition + 1;
    }
  }

  /** Tries every exchange of an area of route i with an area of route j, node by node of route i. */
  method GenerateNeighbours(m: Metric, t: Truck, routes: Routes, i: nat, j: nat,
                            ghost outcome: ExchangeRecords, ghost positions: NodeRecords)
    returns (neighbours: seq<Routes>)
    requires Workable(routes.collectionRoutes) && i < |routes.collectionRoutes| && j < |routes.collectionRoutes| && i != j
    requires SameOnScan(routes, outcome, Outcome(m, t, routes)) && PositionsAgree(routes, positions, outcome)
    ensures 2 <= |routes.collectionRoutes[i].route|
    ensures neighbours == Gather(AtNode(routes, positions, i, j), |routes.collectionRoutes[i].route| - 2)
    ensures AllSound(routes, neighbours)
  {
    SearchRouteEndsAtStops(routes.collectionRoutes[i].route);
    var collectionRoute1 := routes.collectionRoutes[i];
    var len := |collectionRoute1.route|;
    neighbours := [];
    var node := 1;
    while node < len - 2
      invariant 1 <= node && (node == 1 || node <= len - 2)
      invariant neighbours == Gather(AtNode(routes, positions, i, j), node)
      invariant AllSound(routes, neighbours)
    {
      AtNodeStep(routes, positions, i, j, node);
      if !IsTransferStation(collectionRoute1.route[node]) {
        var more := TryExchanges(m, t, routes, i, j, node, outcome);
        PositionsAt(routes, outcome, positions, i, j, node);
        AllSoundConcat(routes, neighbours, more);
        neighbours := neighbours + more;
      }
      node := node + 1;
    }
  }

  /**
   * One pass of the scan over later routes: every exchange between route i and route j is tried,
   * and what they record is added to what was gathered for the routes before j.
   */
  method TryPartner(m: Metric, t: Truck, routes: Routes, i: nat, j: nat,
                    ghost outcome: ExchangeRecords, ghost positions: NodeRecords, ghost nodes: PairRecords,
                    gathered: seq<Routes>)
    returns (r: seq<Routes>)
    requires Workable(routes.collectionRoutes) && i < j < |routes.collectionRoutes|
    requires SameOnScan(routes, outcome, Outcome(m, t, routes)) && PositionsAgree(routes, positions, outcome)
    requires NodesAgree(routes, nodes, positions)
    requires gathered == Gather(AtPartner(routes, nodes, i), j) && AllSound(routes, gathered)
    ensures r == Gather(AtPartner(routes, nodes, i), j + 1) && AllSound(routes, r)
  {
    var more := GenerateNeighbours(m, t, routes, i, j, outcome, positions);
    NodesAt(routes, positions, nodes, i, j);
    PartnerGathered(routes, nodes, i, j, gathered, more);
    r := gathered + more;
  }

  /** The inner loop over the second route: the exchanges of route i with every later route, route by route. */
  method GeneratePartnerNeighbours(m: Metric, t: Truck, routes: Routes, i: nat,
                                   ghost outcome: ExchangeRecords, ghost positions: NodeRecords, ghost nodes: PairRecords)
    returns (neighbours: seq<Routes>)
    requires Workable(routes.collectionRoutes) && i < |routes.collectionRoutes|
    requires SameOnScan(routes, outcome, Outcome(m, t, routes)) && PositionsAgree(routes, positions, outcome)
    requires NodesAgree(routes, nodes, positions)
    ensures neighbours == Gather(AtPartner(routes, nodes, i), |routes.collectionRoutes|)
    ensures AllSound(routes, neighbours)
  {
    var n := |routes.collectionRoutes|;
    AtPartnerStart(routes, nodes, i);
    neighbours := [];
    var route2 := i + 1;
    while route2 < n
      invariant i < route2 <= n
      invariant neighbours == Gather(AtPartner(routes, nodes, i), route2) && AllSound(routes, neighbours)
    {
      neighbours := TryPartner(m, t, routes, i, route2, outcome, positions, nodes, neighbours);
      route2 := route2 + 1;
    }
  }

  /**
   * Tries every pair of routes, the first before the second: the neighbourhood the search scans
   * at each step, in scanning order. The search passes Outcome(m, t, routes) for outcome and
   * the tables built from it, so that the result is Neighbourhood(m, t, routes).
   */
  method GenerateAllNeighbours(m: Metric, t: Truck, routes: Routes,
                               ghost outcome: ExchangeRecords, ghost positions: NodeRecords, ghost nodes: PairRecords)
    returns (neighbours: seq<Routes>)
    requires Workable(routes.collectionRoutes)
    requires SameOnScan(routes, outcome, Outcome(m, t, routes)) && PositionsAgree(routes, positions, outcome)
    requires NodesAgree(routes, nodes, positions)
    ensures neighbours == Gather(AtRoute(routes, nodes), |routes.collectionRoutes|)
    ensures AllSound(routes, neighbours)
  {
    var last := if |routes.collectionRoutes| == 0 then 0 else |routes.collectionRoutes| - 1;
    neighbours := [];
    var route1 := 0;
    while route1 < last
      invariant route1 <= last && neighbours == Gather(AtRoute(routes, nodes), route1) && AllSound(routes, neighbours)
    {
      var more := GeneratePartnerNeighbours(m, t, routes, route1, outcome, positions, nodes);
      RouteGathered(routes, nodes, route1, neighbours, more);
      neighbours := neighbours + more;
      route1 := route1 + 1;
    }
    RoutesGathered(routes, nodes, route1, neighbours);
  }
}
