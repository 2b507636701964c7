/**
 * Reinsertion between routes: an area is taken out of one route and inserted into another.
 * Each route's new time is computed from its changed edges and the moved area's service time;
 * the receiving route must keep within the work duration and the sub-route the area lands in
 * within the capacity. A stop left next to another stop in the giving route is dropped, and a
 * giving route left with no area is dropped from the solution.
 */
module ReinsertionInter {
  import opened Wrappers
  import opened Graph
  import opened Lists
  import opened Routing
  import opened Solutions
  import opened SubRoutes
  import opened Neighbourhoods

  /**
   * The giving route's time once the node at cp is taken out: its two edges give way to the
   * edge that closes the gap, and its service time is saved.
   */
  function CalculateChangingRouteTime(m: Metric, t: Truck, r: seq<Node>, time: real, cp: nat): real
    requires 1 <= cp <= |r| - 2
  {
    time - TravelTime(m, t, r[cp - 1], r[cp]) - TravelTime(m, t, r[cp], r[cp + 1])
         + TravelTime(m, t, r[cp - 1], r[cp + 1]) - ProcessingTime(r[cp])
  }

  /**
   * The receiving route's time once the node at cp of r1 is inserted at ip of r2: the edge at
   * the insertion point gives way to the two edges through the node, whose service time is added.
   */
  function CalculateInsertionRouteTime(m: Metric, t: Truck, r1: seq<Node>, r2: seq<Node>, time: real, cp: nat, ip: nat): real
    requires cp < |r1| && 1 <= ip <= |r2| - 1
  {
    time - TravelTime(m, t, r2[ip - 1], r2[ip])
         + TravelTime(m, t, r2[ip - 1], r1[cp]) + TravelTime(m, t, r1[cp], r2[ip])
         + ProcessingTime(r1[cp])
  }

  /** The giving route's time changes by exactly the change in its cost. */
  lemma ChangingRouteTimeExact(m: Metric, t: Truck, r: seq<Node>, time: real, cp: nat)
    requires 1 <= cp <= |r| - 2
    ensures CalculateChangingRouteTime(m, t, r, time, cp) - time
         == RouteCost(m, t, RemoveAt(r, cp)) - RouteCost(m, t, r)
  {
    TravelRemoveAt(m, t, r, cp);
  }

  /** The receiving route's time changes by exactly the change in its cost. */
  lemma InsertionRouteTimeExact(m: Metric, t: Truck, r1: seq<Node>, r2: seq<Node>, time: real, cp: nat, ip: nat)
    requires cp < |r1| && 1 <= ip <= |r2| - 1
    ensures CalculateInsertionRouteTime(m, t, r1, r2, time, cp, ip) - time
         == RouteCost(m, t, Insert(r2, ip, r1[cp])) - RouteCost(m, t, r2)
  {
    TravelInsert(m, t, r2, ip, r1[cp]);
  }

  /** The giving route's clean-up: a stop at cp right after another stop is dropped. */
  function RemoveUnnecessaryNodes(m: Metric, t: Truck, r: seq<Node>, cp: nat, time: real): (seq<Node>, real)
    requires 1 <= cp <= |r| - 2
  {
    if !IsArea(r[cp]) && !IsArea(r[cp - 1]) then DropStop(m, t, r, cp, time) else (r, time)
  }

  /**
   * The clean-up serves the same areas, corrects the time by exactly the change in cost, keeps a
   * workable route workable and never lengthens a route under the triangle inequality.
   */
  lemma RemoveUnnecessaryNodesSound(m: Metric, t: Truck, r: seq<Node>, cp: nat, time: real)
    requires 1 <= cp <= |r| - 2
    ensures Areas(RemoveUnnecessaryNodes(m, t, r, cp, time).0) == Areas(r)
    ensures RemoveUnnecessaryNodes(m, t, r, cp, time).1 - time
         == RouteCost(m, t, RemoveUnnecessaryNodes(m, t, r, cp, time).0) - RouteCost(m, t, r)
    ensures SearchRoute(r) ==> SearchRoute(RemoveUnnecessaryNodes(m, t, r, cp, time).0)
    ensures TriangleInequality(m) ==> RemoveUnnecessaryNodes(m, t, r, cp, time).1 <= time
  {
    if !IsArea(r[cp]) && !IsArea(r[cp - 1]) {
      DropStopSound(m, t, r, cp, time);
    }
  }

  /** Taking an area out of a workable route before its last stop leaves a workable route without it. */
  lemma TakeOutSound(r: seq<Node>, cp: nat)
    requires SearchRoute(r) && 1 <= cp <= |r| - 3 && !IsTransferStation(r[cp])
    ensures IsArea(r[cp])
    ensures SearchRoute(RemoveAt(r, cp))
    ensures Areas(RemoveAt(r, cp)) == Areas(r) - multiset{r[cp]}
  {
    AreasRemoveArea(r, cp);
    var s := RemoveAt(r, cp);
    assert s[|s| - 2] == r[|r| - 2];
    forall k | 0 < k < |s| - 1
      ensures IsArea(s[k]) || IsTransferStation(s[k])
    {
      if k < cp { assert s[k] == r[k]; } else { assert s[k] == r[k + 1]; }
    }
  }

  /** Inserting an area into a workable route before its last stop gives a workable route with it. */
  lemma PutInSound(r: seq<Node>, ip: nat, x: Node)
    requires SearchRoute(r) && 1 <= ip <= |r| - 2 && IsArea(x)
    ensures SearchRoute(Insert(r, ip, x))
    ensures Areas(Insert(r, ip, x)) == Areas(r) + multiset{x}
  {
    AreasInsertArea(r, ip, x);
    var s := Insert(r, ip, x);
    assert s[|s| - 2] == r[|r| - 2];
    forall k | 0 < k < |s| - 1
      ensures IsArea(s[k]) || IsTransferStation(s[k])
    {
      if k < ip { assert s[k] == r[k]; } else if k > ip { assert s[k] == r[k - 1]; }
    }
  }

  /**
   * The pair of routes the move of the area at cp of cr1 to position ip of cr2 yields, if it is
   * feasible: the receiving route must keep within the work duration and the sub-route the area
   * lands in within the capacity; the giving route is cleaned up. Both start with no sub-route
   * boundaries.
   */
  ghost function Neighbour(m: Metric, t: Truck, cr1: CollectionRoute, cr2: CollectionRoute, cp: nat, ip: nat)
    : Option<(CollectionRoute, CollectionRoute)>
    requires 1 <= cp <= |cr1.route| - 3 && 1 <= ip <= |cr2.route| - 2 && EndsAtStops(cr2.route)
  {
    var time1 := CalculateChangingRouteTime(m, t, cr1.route, cr1.routeTime, cp);
    var time2 := CalculateInsertionRouteTime(m, t, cr1.route, cr2.route, cr2.routeTime, cp, ip);
    var route1 := RemoveAt(cr1.route, cp);
    var route2 := Insert(cr2.route, ip, cr1.route[cp]);
    StopBeforeStart(route2, ip);
    if time2 > t.workDuration as real then None
    else if !SubRouteFits(route2, SubRouteStart(route2, ip), t.capacity) then None
    else
      var cleaned := RemoveUnnecessaryNodes(m, t, route1, cp, time1);
      Some((CollectionRoute(cleaned.0, [], cleaned.1), CollectionRoute(route2, [], time2)))
  }

  /** The routes a neighbour puts in place of the two: the giving route only if it still visits an area. */
  function Replacements(p: (CollectionRoute, CollectionRoute)): seq<CollectionRoute>
  {
    (if |p.0.route| > 2 then [p.0] else []) + [p.1]
  }

  /** What the search records for a move from route i to route j: nothing, or the new solution. */
  function RecordedPair(routes: Routes, i: nat, j: nat, n: Option<(CollectionRoute, CollectionRoute)>): seq<Routes>
    requires i < |routes.collectionRoutes| && j < |routes.collectionRoutes| && i != j
  {
    match n
    case None => []
    case Some(p) => [Routes(ReplacePair(routes.collectionRoutes, i, j, Replacements(p)), [])]
  }

  /**
   * A neighbour of two workable routes is a pair of workable routes serving between them the
   * same areas; each carries a time that differs from its old one by exactly the change in its
   * cost, and the receiving route keeps within the work duration.
   */
  lemma NeighbourSound(m: Metric, t: Truck, cr1: CollectionRoute, cr2: CollectionRoute, cp: nat, ip: nat)
    requires SearchRoute(cr1.route) && SearchRoute(cr2.route)
    requires 1 <= cp <= |cr1.route| - 3 && 1 <= ip <= |cr2.route| - 2 && !IsTransferStation(cr1.route[cp])
    ensures EndsAtStops(cr2.route)
    ensures Neighbour(m, t, cr1, cr2, cp, ip).Some? ==>
      var p := Neighbour(m, t, cr1, cr2, cp, ip).value;
      && SearchRoute(p.0.route) && SearchRoute(p.1.route)
      && Areas(p.0.route) + Areas(p.1.route) == Areas(cr1.route) + Areas(cr2.route)
      && p.0.routeTime - cr1.routeTime == RouteCost(m, t, p.0.route) - RouteCost(m, t, cr1.route)
      && p.1.routeTime - cr2.routeTime == RouteCost(m, t, p.1.route) - RouteCost(m, t, cr2.route)
      && p.1.routeTime <= t.workDuration as real
  {
    SearchRouteEndsAtStops(cr2.route);
    var time1 := CalculateChangingRouteTime(m, t, cr1.route, cr1.routeTime, cp);
    var time2 := CalculateInsertionRouteTime(m, t, cr1.route, cr2.route, cr2.routeTime, cp, ip);
    var route1 := RemoveAt(cr1.route, cp);
    var route2 := Insert(cr2.route, ip, cr1.route[cp]);
    if Neighbour(m, t, cr1, cr2, cp, ip).Some? {
      ChangingRouteTimeExact(m, t, cr1.route, cr1.routeTime, cp);
      InsertionRouteTimeExact(m, t, cr1.route, cr2.route, cr2.routeTime, cp, ip);
      TransferSound(cr1.route, cr2.route, cp, ip);
      RemoveUnnecessaryNodesSound(m, t, route1, cp, time1);
      var cleaned := RemoveUnnecessaryNodes(m, t, route1, cp, time1);
      assert time2 <= t.workDuration as real;
      assert Neighbour(m, t, cr1, cr2, cp, ip).value == (CollectionRoute(cleaned.0, [], cleaned.1), CollectionRoute(route2, [], time2));
    }
  }

  /** Moving an area between two workable routes gives two workable routes serving the same areas. */
  lemma TransferSound(r1: seq<Node>, r2: seq<Node>, cp: nat, ip: nat)
    requires SearchRoute(r1) && SearchRoute(r2)
    requires 1 <= cp <= |r1| - 3 && 1 <= ip <= |r2| - 2 && !IsTransferStation(r1[cp])
    ensures SearchRoute(RemoveAt(r1, cp)) && SearchRoute(Insert(r2, ip, r1[cp]))
    ensures Areas(RemoveAt(r1, cp)) + Areas(Insert(r2, ip, r1[cp])) == Areas(r1) + Areas(r2)
  {
    var x := r1[cp];
    TakeOutSound(r1, cp);
    PutInSound(r2, ip, x);
    assert x in Areas(r1) by {
      AreasCount(r1, x);
    }
  }

  /** A workable route of two nodes visits no area. */
  lemma ShortRouteEmpty(r: seq<Node>)
    requires SearchRoute(r) && |r| <= 2
    ensures Areas(r) == multiset{}
  {
    assert r == [r[0]] + [r[1]];
    AreaNodesConcat([r[0]], [r[1]]);
    assert [r[0]][1..] == [] && [r[1]][1..] == [];
  }

  /** What is recorded for a sound pair replacing routes i and j of a workable list is a sound neighbour. */
  lemma RecordedPairSound(routes: Routes, i: nat, j: nat, n: Option<(CollectionRoute, CollectionRoute)>)
    requires Workable(routes.collectionRoutes) && i < |routes.collectionRoutes| && j < |routes.collectionRoutes| && i != j
    requires n.Some? ==> SearchRoute(n.value.0.route) && SearchRoute(n.value.1.route)
    requires n.Some? ==> (Areas(n.value.0.route) + Areas(n.value.1.route)
      == Areas(routes.collectionRoutes[i].route) + Areas(routes.collectionRoutes[j].route))
    ensures AllSound(routes, RecordedPair(routes, i, j, n))
  {
    if n.Some? {
      ReplacementsSound(n.value);
      ReplacePairSound(routes, i, j, Replacements(n.value));
    }
  }

  /** The replacements of a pair of workable routes are workable and serve the areas of both. */
  lemma ReplacementsSound(p: (CollectionRoute, CollectionRoute))
    requires SearchRoute(p.0.route) && SearchRoute(p.1.route)
    ensures Workable(Replacements(p))
    ensures RoutesAreas(Replacements(p)) == Areas(p.0.route) + Areas(p.1.route)
  {
    var xs := Replacements(p);
    if |p.0.route| > 2 {
      assert xs == [p.0, p.1];
      TwoRoutes(p.0, p.1);
    } else {
      assert xs == [] + [p.1];
      RoutesAreasAppend([], p.1);
      ShortRouteEmpty(p.0.route);
    }
  }

  /**
   * Computes both new times and, when the receiving route keeps within the work duration,
   * applies the move and checks the capacity of the sub-route the area lands in.
   */
  method IsFactibleRoute(m: Metric, t: Truck, route1: seq<Node>, route2: seq<Node>, currentRouteTime1: real,
                         currentRouteTime2: real, cp: nat, ip: nat)
    returns (isFactible: bool, newRoute1: seq<Node>, newRoute2: seq<Node>, newRouteTime1: real, newRouteTime2: real)
    requires 1 <= cp <= |route1| - 3 && 1 <= ip <= |route2| - 2 && EndsAtStops(route2)
    ensures newRouteTime1 == CalculateChangingRouteTime(m, t, route1, currentRouteTime1, cp)
    ensures newRouteTime2 == CalculateInsertionRouteTime(m, t, route1, route2, currentRouteTime2, cp, ip)
    ensures newRouteTime2 > t.workDuration as real ==> newRoute1 == route1 && newRoute2 == route2
    ensures newRouteTime2 <= t.workDuration as real ==>
      newRoute1 == RemoveAt(route1, cp) && newRoute2 == Insert(route2, ip, route1[cp])
    ensures StopBefore(Insert(route2, ip, route1[cp]), ip)
    ensures isFactible <==> (newRouteTime2 <= t.workDuration as real
      && SubRouteFits(Insert(route2, ip, route1[cp]), SubRouteStart(Insert(route2, ip, route1[cp]), ip), t.capacity))
  {
    StopBeforeStart(Insert(route2, ip, route1[cp]), ip);
    newRouteTime1 := CalculateChangingRouteTime(m, t, route1, currentRouteTime1, cp);
    newRouteTime2 := CalculateInsertionRouteTime(m, t, route1, route2, currentRouteTime2, cp, ip);
    newRoute1, newRoute2 := route1, route2;
    if newRouteTime2 > t.workDuration as real {
      return false, newRoute1, newRoute2, newRouteTime1, newRouteTime2;
    }
    var changingNode := route1[cp];
    newRoute1 := RemoveAt(newRoute1, cp);
    newRoute2 := Insert(newRoute2, ip, changingNode);
    isFactible := IsFactibleCapacity(newRoute2, ip, t.capacity);
  }

  /** Builds the pair of routes of a move, or nothing when it is not feasible. */
  method BuildNeighbour(m: Metric, t: Truck, cr1: CollectionRoute, cr2: CollectionRoute, cp: nat, ip: nat)
    returns (neighbour: Option<(CollectionRoute, CollectionRoute)>)
    requires 1 <= cp <= |cr1.route| - 3 && 1 <= ip <= |cr2.route| - 2 && EndsAtStops(cr2.route)
    ensures neighbour == Neighbour(m, t, cr1, cr2, cp, ip)
  {
    var isFactible, newRoute1, newRoute2, newRouteTime1, newRouteTime2 :=
      IsFactibleRoute(m, t, cr1.route, cr2.route, cr1.routeTime, cr2.routeTime, cp, ip);
    if !isFactible {
      return None;
    }
    var cleaned := RemoveUnnecessaryNodes(m, t, newRoute1, cp, newRouteTime1);
    neighbour := Some((CollectionRoute(cleaned.0, [], cleaned.1), CollectionRoute(newRoute2, [], newRouteTime2)));
  }

  /**
   * The solution a feasible move yields: routes i and j taken out (the later one first), the
   * giving route appended when it still visits an area, then the receiving route.
   */
  method NewSolution(routes: Routes, i: nat, j: nat, p: (CollectionRoute, CollectionRoute)) returns (neighbour: Routes)
    requires i < |routes.collectionRoutes| && j < |routes.collectionRoutes| && i != j
    ensures [neighbour] == RecordedPair(routes, i, j, Some(p))
  {
    var maxIndexRoute := if i < j then j else i;
    var minIndexRoute := if i < j then i else j;
    var newRoutes := RemoveAt(routes.collectionRoutes, maxIndexRoute);
    newRoutes := RemoveAt(newRoutes, minIndexRoute);
    if |p.0.route| > 2 {
      newRoutes := newRoutes + [p.0];
    }
    newRoutes := newRoutes + [p.1];
    assert newRoutes == RemoveAt(RemoveAt(routes.collectionRoutes, maxIndexRoute), minIndexRoute) + Replacements(p);
    neighbour := Routes(newRoutes, []);
  }

  /**
   * What the search records for each move (giving route, receiving route, moved area, insertion
   * point): the new solution, or nothing.
   */
  type MoveRecords = (nat, nat, nat, nat) -> seq<Routes>

  /** The move of the node at cp of route i to position ip of route j is one the search scans. */
  predicate InScan(routes: Routes, i: nat, j: nat, cp: nat, ip: nat)
  {
    i < |routes.collectionRoutes| && j < |routes.collectionRoutes| && i != j
    && 1 <= cp <= |routes.collectionRoutes[i].route| - 3 && 1 <= ip <= |routes.collectionRoutes[j].route| - 2
  }

  /**
   * What the search records for the moves between the routes: the solution the move of the node
   * at cp of route i to position ip of route j yields, if it is feasible, and nothing for a move
   * outside the scanned positions.
   */
  ghost function Outcome(m: Metric, t: Truck, routes: Routes): MoveRecords
  {
    (i: nat, j: nat, cp: nat, ip: nat) =>
      if InScan(routes, i, j, cp, ip) && EndsAtStops(routes.collectionRoutes[j].route)
      then RecordedPair(routes, i, j, Neighbour(m, t, routes.collectionRoutes[i], routes.collectionRoutes[j], cp, ip))
      else []
  }

  /** f records what g records for every scanned move. */
  ghost predicate SameOnScan(routes: Routes, f: MoveRecords, g: MoveRecords)
  {
    forall i: nat, j: nat, cp: nat, ip: nat {:trigger g(i, j, cp, ip)} | InScan(routes, i, j, cp, ip) ::
      f(i, j, cp, ip) == g(i, j, cp, ip)
  }

  /** What the search records at insertion point ip of route j for the node at cp of route i. */
  ghost function AtPosition(outcome: MoveRecords, i: nat, j: nat, cp: nat): nat -> seq<Routes>
  {
    (ip: nat) => if ip == 0 then [] else outcome(i, j, cp, ip)
  }

  /** What the search records for each node of a route moved into a second route (giving route, receiving route, node). */
  type NodeRecords = (nat, nat, nat) -> seq<Routes>

  /** What trying the node at cp of route i at every insertion point of route j records, point by point. */
  ghost function Positions(routes: Routes, outcome: MoveRecords): NodeRecords
  {
    (i: nat, j: nat, cp: nat) =>
      if j < |routes.collectionRoutes| && 1 <= |routes.collectionRoutes[j].route|
      then Gather(AtPosition(outcome, i, j, cp), |routes.collectionRoutes[j].route| - 1)
      else []
  }

  /** positions records what Positions(routes, outcome) does, for every node of every pair of routes. */
  ghost predicate PositionsAgree(routes: Routes, positions: NodeRecords, outcome: MoveRecords)
  {
    forall i: nat, j: nat, cp: nat {:trigger Positions(routes, outcome)(i, j, cp)} ::
      positions(i, j, cp) == Positions(routes, outcome)(i, j, cp)
  }

  /** What the search records for node cp of route i, moved into route j: nothing for a transfer station. */
  ghost function AtNode(routes: Routes, positions: NodeRecords, i: nat, j: nat): nat -> seq<Routes>
    requires i < |routes.collectionRoutes|
  {
    (cp: nat) =>
      if 1 <= cp < |routes.collectionRoutes[i].route| - 2 && !IsTransferStation(routes.collectionRoutes[i].route[cp])
      then positions(i, j, cp)
      else []
  }

  /** What the search records for each ordered pair of routes (giving route, receiving route). */
  type PairRecords = (nat, nat) -> seq<Routes>

  /** What trying every node of route i in route j records, node by node. */
  ghost function Nodes(routes: Routes, positions: NodeRecords): PairRecords
  {
    (i: nat, j: nat) =>
      if i < |routes.collectionRoutes| && 2 <= |routes.collectionRoutes[i].route|
      then Gather(AtNode(routes, positions, i, j), |routes.collectionRoutes[i].route| - 2)
      else []
  }

  /** nodes records what Nodes(routes, positions) does, for every ordered pair of routes. */
  ghost predicate NodesAgree(routes: Routes, nodes: PairRecords, positions: NodeRecords)
  {
    forall i: nat, j: nat {:trigger Nodes(routes, positions)(i, j)} ::
      nodes(i, j) == Nodes(routes, positions)(i, j)
  }

  /** What the search records for route i giving to route j: nothing when they are the same route. */
  ghost function AtPartner(routes: Routes, nodes: PairRecords, i: nat): nat -> seq<Routes>
  {
    (j: nat) => if j < |routes.collectionRoutes| && j != i then nodes(i, j) else []
  }

  /** What the search records for route i giving to every route. */
  ghost function AtRoute(routes: Routes, nodes: PairRecords): nat -> seq<Routes>
  {
    (i: nat) => if i < |routes.collectionRoutes| then Gather(AtPartner(routes, nodes, i), |routes.collectionRoutes|) else []
  }

  /**
   * The neighbourhood the search scans at each step, in scanning order: for every ordered pair
   * of distinct routes, for every node of the first other than a transfer station, the solution
   * of every feasible move of it into the second, insertion point by insertion point.
   */
  ghost function Neighbourhood(m: Metric, t: Truck, routes: Routes): seq<Routes>
  {
    Gather(AtRoute(routes, Nodes(routes, Positions(routes, Outcome(m, t, routes)))), |routes.collectionRoutes|)
  }

  /** positions, agreeing with the outcomes, records for a node what trying it in route j gathers. */
  lemma PositionsAt(routes: Routes, outcome: MoveRecords, positions: NodeRecords, i: nat, j: nat, cp: nat)
    requires PositionsAgree(routes, positions, outcome)
    requires j < |routes.collectionRoutes| && 1 <= |routes.collectionRoutes[j].route|
    ensures positions(i, j, cp) == Gather(AtPosition(outcome, i, j, cp), |routes.collectionRoutes[j].route| - 1)
  {
    assert positions(i, j, cp) == Positions(routes, outcome)(i, j, cp);
  }

  /** nodes, agreeing with positions, records for a pair of routes what trying every node of route i gathers. */
  lemma NodesAt(routes: Routes, positions: NodeRecords, nodes: PairRecords, i: nat, j: nat)
    requires NodesAgree(routes, nodes, positions)
    requires i < |routes.collectionRoutes| && 2 <= |routes.collectionRoutes[i].route|
    ensures nodes(i, j) == Gather(AtNode(routes, positions, i, j), |routes.collectionRoutes[i].route| - 2)
  {
    assert nodes(i, j) == Nodes(routes, positions)(i, j);
  }

  /** Gathering one more insertion point, not the first, appends what outcome records for it. */
  lemma AtPositionStep(outcome: MoveRecords, i: nat, j: nat, cp: nat, ip: nat)
    requires 1 <= ip
    ensures Gather(AtPosition(outcome, i, j, cp), ip + 1) == Gather(AtPosition(outcome, i, j, cp), ip) + outcome(i, j, cp, ip)
  {
  }

  /** Gathering one more node of route i appends what positions records for it, or nothing for a transfer station. */
  lemma AtNodeStep(routes: Routes, positions: NodeRecords, i: nat, j: nat, cp: nat)
    requires i < |routes.collectionRoutes| && 1 <= cp < |routes.collectionRoutes[i].route| - 2
    ensures Gather(AtNode(routes, positions, i, j), cp + 1)
      == Gather(AtNode(routes, positions, i, j), cp) + if !IsTransferStation(routes.collectionRoutes[i].route[cp]) then positions(i, j, cp) else []
  {
  }

  /** Gathering one more receiving route j appends what nodes records for the pair, or nothing when j is route i. */
  lemma AtPartnerStep(routes: Routes, nodes: PairRecords, i: nat, j: nat)
    requires j < |routes.collectionRoutes|
    ensures Gather(AtPartner(routes, nodes, i), j + 1) == Gather(AtPartner(routes, nodes, i), j) + if j != i then nodes(i, j) else []
  {
  }

  /** Gathering one more giving route i appends what its moves into every route record. */
  lemma AtRouteStep(routes: Routes, nodes: PairRecords, i: nat)
    requires i < |routes.collectionRoutes|
    ensures Gather(AtRoute(routes, nodes), i + 1) == Gather(AtRoute(routes, nodes), i) + Gather(AtPartner(routes, nodes, i), |routes.collectionRoutes|)
  {
  }

  /**
   * outcome records, for the move of the node at cp of route i to position ip of route j, the
   * solution the move yields if it is feasible, and nothing otherwise.
   */
  lemma OutcomeAt(m: Metric, t: Truck, routes: Routes, outcome: MoveRecords, i: nat, j: nat, cp: nat, ip: nat)
    requires Workable(routes.collectionRoutes) && SameOnScan(routes, outcome, Outcome(m, t, routes))
    requires InScan(routes, i, j, cp, ip)
    ensures EndsAtStops(routes.collectionRoutes[j].route)
    ensures outcome(i, j, cp, ip) == RecordedPair(routes, i, j, Neighbour(m, t, routes.collectionRoutes[i], routes.collectionRoutes[j], cp, ip))
  {
    SearchRouteEndsAtStops(routes.collectionRoutes[j].route);
    assert outcome(i, j, cp, ip) == Outcome(m, t, routes)(i, j, cp, ip);
  }

  /** What is recorded for a move of the node at cp of route i to a point of route j is in what positions records for cp. */
  lemma PositionMovesComplete(routes: Routes, outcome: MoveRecords, positions: NodeRecords, i: nat, j: nat, cp: nat, ip: nat, x: Routes)
    requires PositionsAgree(routes, positions, outcome)
    requires j < |routes.collectionRoutes| && 1 <= ip <= |routes.collectionRoutes[j].route| - 2
    requires x in outcome(i, j, cp, ip)
    ensures x in positions(i, j, cp)
  {
    PositionsAt(routes, outcome, positions, i, j, cp);
    GatherComplete(AtPosition(outcome, i, j, cp), |routes.collectionRoutes[j].route| - 1, ip, x);
  }

  /** What positions records for a node of route i other than a transfer station is in what nodes records for the pair. */
  lemma NodeMovesComplete(routes: Routes, positions: NodeRecords, nodes: PairRecords, i: nat, j: nat, cp: nat, x: Routes)
    requires NodesAgree(routes, nodes, positions)
    requires i < |routes.collectionRoutes| && 1 <= cp <= |routes.collectionRoutes[i].route| - 3 && !IsTransferStation(routes.collectionRoutes[i].route[cp])
    requires x in positions(i, j, cp)
    ensures x in nodes(i, j)
  {
    NodesAt(routes, positions, nodes, i, j);
    GatherComplete(AtNode(routes, positions, i, j), |routes.collectionRoutes[i].route| - 2, cp, x);
  }

  /** What nodes records for an ordered pair of distinct routes is in the whole neighbourhood gathered from nodes. */
  lemma RouteMovesComplete(routes: Routes, nodes: PairRecords, i: nat, j: nat, x: Routes)
    requires i < |routes.collectionRoutes| && j < |routes.collectionRoutes| && i != j && x in nodes(i, j)
    ensures x in Gather(AtRoute(routes, nodes), |routes.collectionRoutes|)
  {
    GatherComplete(AtPartner(routes, nodes, i), |routes.collectionRoutes|, j, x);
    GatherComplete(AtRoute(routes, nodes), |routes.collectionRoutes|, i, x);
  }

  /** The neighbour of every feasible insertion of the area at cp of route i into route j is recorded. */
  lemma PositionMovesCover(m: Metric, t: Truck, routes: Routes, outcome: MoveRecords, i: nat, j: nat, cp: nat)
    requires Workable(routes.collectionRoutes) && i < |routes.collectionRoutes| && j < |routes.collectionRoutes| && i != j
    requires 1 <= cp <= |routes.collectionRoutes[i].route| - 3
    requires SameOnScan(routes, outcome, Outcome(m, t, routes))
    ensures forall ip | 1 <= ip <= |routes.collectionRoutes[j].route| - 2 && Neighbour(m, t, routes.collectionRoutes[i], routes.collectionRoutes[j], cp, ip).Some? ::
      Routes(ReplacePair(routes.collectionRoutes, i, j, Replacements(Neighbour(m, t, routes.collectionRoutes[i], routes.collectionRoutes[j], cp, ip).value)), [])
        in Gather(AtPosition(outcome, i, j, cp), |routes.collectionRoutes[j].route| - 1)
  {
    forall ip | 1 <= ip <= |routes.collectionRoutes[j].route| - 2 && Neighbour(m, t, routes.collectionRoutes[i], routes.collectionRoutes[j], cp, ip).Some?
      ensures Routes(ReplacePair(routes.collectionRoutes, i, j, Replacements(Neighbour(m, t, routes.collectionRoutes[i], routes.collectionRoutes[j], cp, ip).value)), [])
        in Gather(AtPosition(outcome, i, j, cp), |routes.collectionRoutes[j].route| - 1)
    {
      PositionMoveCovered(m, t, routes, outcome, i, j, cp, ip);
    }
  }

  /** The solution of one feasible move of the area at cp into route j is in what the scan of its insertion points gathers. */
  lemma PositionMoveCovered(m: Metric, t: Truck, routes: Routes, outcome: MoveRecords, i: nat, j: nat, cp: nat, ip: nat)
    requires Workable(routes.collectionRoutes) && i < |routes.collectionRoutes| && j < |routes.collectionRoutes| && i != j
    requires 1 <= cp <= |routes.collectionRoutes[i].route| - 3
    requires SameOnScan(routes, outcome, Outcome(m, t, routes))
    requires 1 <= ip <= |routes.collectionRoutes[j].route| - 2 && Neighbour(m, t, routes.collectionRoutes[i], routes.collectionRoutes[j], cp, ip).Some?
    ensures Routes(ReplacePair(routes.collectionRoutes, i, j, Replacements(Neighbour(m, t, routes.collectionRoutes[i], routes.collectionRoutes[j], cp, ip).value)), [])
      in Gather(AtPosition(outcome, i, j, cp), |routes.collectionRoutes[j].route| - 1)
  {
    var x := Routes(ReplacePair(routes.collectionRoutes, i, j, Replacements(Neighbour(m, t, routes.collectionRoutes[i], routes.collectionRoutes[j], cp, ip).value)), []);
    OutcomeAt(m, t, routes, outcome, i, j, cp, ip);
    assert x in AtPosition(outcome, i, j, cp)(ip);
    GatherComplete(AtPosition(outcome, i, j, cp), |routes.collectionRoutes[j].route| - 1, ip, x);
  }

  /** The solution of one feasible move of an area between two distinct routes is in what is gathered from nodes. */
  lemma MoveCovered(m: Metric, t: Truck, routes: Routes, outcome: MoveRecords, positions: NodeRecords, nodes: PairRecords,
                    i: nat, j: nat, cp: nat, ip: nat)
    requires Workable(routes.collectionRoutes) && SameOnScan(routes, outcome, Outcome(m, t, routes))
    requires PositionsAgree(routes, positions, outcome) && NodesAgree(routes, nodes, positions)
    requires 0 <= i < |routes.collectionRoutes| && 0 <= j < |routes.collectionRoutes| && i != j && 1 <= cp <= |routes.collectionRoutes[i].route| - 3 && !IsTransferStation(routes.collectionRoutes[i].route[cp]) && 1 <= ip <= |routes.collectionRoutes[j].route| - 2 && Neighbour(m, t, routes.collectionRoutes[i], routes.collectionRoutes[j], cp, ip).Some?
    ensures Routes(ReplacePair(routes.collectionRoutes, i, j, Replacements(Neighbour(m, t, routes.collectionRoutes[i], routes.collectionRoutes[j], cp, ip).value)), []) in Gather(AtRoute(routes, nodes), |routes.collectionRoutes|)
  {
    OutcomeAt(m, t, routes, outcome, i, j, cp, ip);
    var x := Routes(ReplacePair(routes.collectionRoutes, i, j, Replacements(Neighbour(m, t, routes.collectionRoutes[i], routes.collectionRoutes[j], cp, ip).value)), []);
    assert x in outcome(i, j, cp, ip);
    PositionMovesComplete(routes, outcome, positions, i, j, cp, ip, x);
    NodeMovesComplete(routes, positions, nodes, i, j, cp, x);
    RouteMovesComplete(routes, nodes, i, j, x);
  }

  /**
   * The neighbourhood holds the neighbour of every feasible move of an area other than a
   * transfer station from one route to any insertion point of another.
   */
  lemma NeighbourhoodComplete(m: Metric, t: Truck, routes: Routes)
    requires Workable(routes.collectionRoutes)
    ensures forall i, j, cp, ip | 0 <= i < |routes.collectionRoutes| && 0 <= j < |routes.collectionRoutes| && i != j && 1 <= cp <= |routes.collectionRoutes[i].route| - 3 && !IsTransferStation(routes.collectionRoutes[i].route[cp]) && 1 <= ip <= |routes.collectionRoutes[j].route| - 2 && Neighbour(m, t, routes.collectionRoutes[i], routes.collectionRoutes[j], cp, ip).Some? ::
      Routes(ReplacePair(routes.collectionRoutes, i, j, Replacements(Neighbour(m, t, routes.collectionRoutes[i], routes.collectionRoutes[j], cp, ip).value)), []) in Neighbourhood(m, t, routes)
  {
    var outcome := Outcome(m, t, routes);
    var positions := Positions(routes, outcome);
    var nodes := Nodes(routes, positions);
    assert SameOnScan(routes, outcome, Outcome(m, t, routes));
    assert PositionsAgree(routes, positions, outcome);
    assert NodesAgree(routes, nodes, positions);
    forall i, j, cp, ip | 0 <= i < |routes.collectionRoutes| && 0 <= j < |routes.collectionRoutes| && i != j && 1 <= cp <= |routes.collectionRoutes[i].route| - 3 && !IsTransferStation(routes.collectionRoutes[i].route[cp]) && 1 <= ip <= |routes.collectionRoutes[j].route| - 2 && Neighbour(m, t, routes.collectionRoutes[i], routes.collectionRoutes[j], cp, ip).Some?
      ensures Routes(ReplacePair(routes.collectionRoutes, i, j, Replacements(Neighbour(m, t, routes.collectionRoutes[i], routes.collectionRoutes[j], cp, ip).value)), []) in Gather(AtRoute(routes, nodes), |routes.collectionRoutes|)
    {
      MoveCovered(m, t, routes, outcome, positions, nodes, i, j, cp, ip);
    }
  }

  /**
   * Tries inserting the area at cp of route i at every position of route j, in order, recording
   * the neighbour of every feasible move. outcome is any table of records that agrees with the
   * moves' own on the scanned moves; the search passes Outcome(m, t, routes) itself.
   */
  method TryInsertions(m: Metric, t: Truck, routes: Routes, i: nat, j: nat, cp: nat, ghost outcome: MoveRecords)
    returns (neighbours: seq<Routes>)
    requires Workable(routes.collectionRoutes) && i < |routes.collectionRoutes| && j < |routes.collectionRoutes| && i != j
    requires 1 <= cp <= |routes.collectionRoutes[i].route| - 3 && !IsTransferStation(routes.collectionRoutes[i].route[cp])
    requires SameOnScan(routes, outcome, Outcome(m, t, routes))
    ensures neighbours == Gather(AtPosition(outcome, i, j, cp), |routes.collectionRoutes[j].route| - 1)
    ensures AllSound(routes, neighbours)
    ensures forall ip | 1 <= ip <= |routes.collectionRoutes[j].route| - 2 && Neighbour(m, t, routes.collectionRoutes[i], routes.collectionRoutes[j], cp, ip).Some? ::
      Routes(ReplacePair(routes.collectionRoutes, i, j, Replacements(Neighbour(m, t, routes.collectionRoutes[i], routes.collectionRoutes[j], cp, ip).value)), [])
        in neighbours
  {
    var collectionRoute1 := routes.collectionRoutes[i];
    var collectionRoute2 := routes.collectionRoutes[j];
    SearchRouteEndsAtStops(collectionRoute2.route);
    neighbours := [];
    var changePosition := 1;
    while changePosition < |collectionRoute2.route| - 1
      invariant 1 <= changePosition <= |collectionRoute2.route| - 1
      invariant neighbours == Gather(AtPosition(outcome, i, j, cp), changePosition)
      invariant AllSound(routes, neighbours)
    {
      AtPositionStep(outcome, i, j, cp, changePosition);
      OutcomeAt(m, t, routes, outcome, i, j, cp, changePosition);
      var neighbour := BuildNeighbour(m, t, collectionRoute1, collectionRoute2, cp, changePosition);
      NeighbourSound(m, t, collectionRoute1, collectionRoute2, cp, changePosition);
      RecordedPairSound(routes, i, j, neighbour);
      AllSoundConcat(routes, neighbours, RecordedPair(routes, i, j, neighbour));
      if neighbour.Some? {
        var solution := NewSolution(routes, i, j, neighbour.value);
        neighbours := neighbours + [solution];
      }
      changePosition := changePosition + 1;
    }
    PositionMovesCover(m, t, routes, outcome, i, j, cp);
  }

  /** Tries every move of an area of route i into route j, recording the neighbour of every feasible move in scanning order. */
  method GenerateNeighbours(m: Metric, t: Truck, routes: Routes, i: nat, j: nat,
                            ghost outcome: MoveRecords, ghost positions: NodeRecords)
    returns (neighbours: seq<Routes>)
    requires Workable(routes.collectionRoutes) && i < |routes.collectionRoutes| && j < |routes.collectionRoutes| && i != j
    requires SameOnScan(routes, outcome, Outcome(m, t, routes)) && PositionsAgree(routes, positions, outcome)
    ensures 2 <= |routes.collectionRoutes[i].route|
    ensures neighbours == Gather(AtNode(routes, positions, i, j), |routes.collectionRoutes[i].route| - 2)
    ensures AllSound(routes, neighbours)
  {
    SearchRouteEndsAtStops(routes.collectionRoutes[i].route);
    SearchRouteEndsAtStops(routes.collectionRoutes[j].route);
    var collectionRoute1 := routes.collectionRoutes[i];
    var len := |collectionRoute1.route|;
    neighbours := [];
    var node := 1;
    while node < len - 2
      invariant 1 <= node && (node == 1 || node <= len - 2)
      invariant neighbours == Gather(AtNode(routes, positions, i, j), node)
      invariant AllSound(routes, neighbours)
    {
      AtNodeStep(routes, positions, i, j, node);
      if !IsTransferStation(collectionRoute1.route[node]) {
        var more := TryInsertions(m, t, routes, i, j, node, outcome);
        PositionsAt(routes, outcome, positions, i, j, node);
        AllSoundConcat(routes, neighbours, more);
        neighbours := neighbours + more;
      }
      node := node + 1;
    }
  }

  /** The inner loop over the second route: the moves out of route i into every other route, route by route. */
  method GeneratePartnerNeighbours(m: Metric, t: Truck, routes: Routes, i: nat,
                                   ghost outcome: MoveRecords, ghost positions: NodeRecords, ghost nodes: PairRecords)
    returns (neighbours: seq<Routes>)
    requires Workable(routes.collectionRoutes) && i < |routes.collectionRoutes|
    requires SameOnScan(routes, outcome, Outcome(m, t, routes)) && PositionsAgree(routes, positions, outcome)
    requires NodesAgree(routes, nodes, positions)
    ensures neighbours == Gather(AtPartner(routes, nodes, i), |routes.collectionRoutes|)
    ensures AllSound(routes, neighbours)
  {
    neighbours := [];
    var route2 := 0;
    while route2 < |routes.collectionRoutes|
      invariant route2 <= |routes.collectionRoutes|
      invariant neighbours == Gather(AtPartner(routes, nodes, i), route2)
      invariant AllSound(routes, neighbours)
    {
      AtPartnerStep(routes, nodes, i, route2);
      if i != route2 {
        var more := GenerateNeighbours(m, t, routes, i, route2, outcome, positions);
        NodesAt(routes, positions, nodes, i, route2);
        AllSoundConcat(routes, neighbours, more);
        neighbours := neighbours + more;
      }
      route2 := route2 + 1;
    }
  }

  /**
   * Tries every ordered pair of distinct routes: the neighbourhood the search scans at each step,
   * in scanning order. The search passes Outcome(m, t, routes) for outcome and the tables built
   * from it, so that the result is Neighbourhood(m, t, routes).
   */
  method GenerateAllNeighbours(m: Metric, t: Truck, routes: Routes,
                               ghost outcome: MoveRecords, ghost positions: NodeRecords, ghost nodes: PairRecords)
    returns (neighbours: seq<Routes>)
    requires Workable(routes.collectionRoutes)
    requires SameOnScan(routes, outcome, Outcome(m, t, routes)) && PositionsAgree(routes, positions, outcome)
    requires NodesAgree(routes, nodes, positions)
    ensures neighbours == Gather(AtRoute(routes, nodes), |routes.collectionRoutes|)
    ensures AllSound(routes, neighbours)
  {
    neighbours := [];
    var route1 := 0;
    while route1 < |routes.collectionRoutes|
      invariant route1 <= |routes.collectionRoutes|
      invariant neighbours == Gather(AtRoute(routes, nodes), route1)
      invariant AllSound(routes, neighbours)
    {
      var more := GeneratePartnerNeighbours(m, t, routes, route1, outcome, positions, nodes);
      AtRouteStep(routes, nodes, route1);
      AllSoundConcat(routes, neighbours, more);
      neighbours := neighbours + more;
      route1 := route1 + 1;
    }
  }
}
