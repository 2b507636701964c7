/**
 * The local-search object every operator is: the problem instance it searches on, a kind that
 * selects its neighbourhood, and the list of feasible neighbours it keeps between the rounds of
 * its best-improvement descent (and across calls, since the list is cleared only after a move
 * is adopted).
 */
module LocalSearches {
  import opened Wrappers
  import opened Graph
  import opened Routing
  import opened Solutions
  import opened Neighbourhoods
  import opened Instance
  import ReinsertionIntra
  import ReinsertionInter
  import SwapIntra
  import SwapInter
  import TwoOpt

  /** The five neighbourhoods. */
  datatype Operator =
    | ReinsertionIntraSearch
    | ReinsertionInterSearch
    | SwapIntraSearch
    | SwapInterSearch
    | TwoOptSearch

  /** n serves exactly areas with workable routes and carries no transport plan. */
  ghost predicate Serves(areas: multiset<Node>, n: Routes)
  {
    && Workable(n.collectionRoutes)
    && RoutesAreas(n.collectionRoutes) == areas
    && n.transportTrucks == []
  }

  /** Every one of ns serves areas. */
  ghost predicate ServesAll(areas: multiset<Node>, ns: seq<Routes>)
  {
    forall i :: 0 <= i < |ns| ==> Serves(areas, ns[i])
  }

  /** Sound neighbours of a solution that serves areas serve areas too, added to a list that does. */
  lemma ServesAllAppend(routes: Routes, areas: multiset<Node>, ns: seq<Routes>, more: seq<Routes>)
    requires RoutesAreas(routes.collectionRoutes) == areas
    requires ServesAll(areas, ns) && AllSound(routes, more)
    ensures ServesAll(areas, ns + more)
  {
    forall i | 0 <= i < |ns + more|
      ensures Serves(areas, (ns + more)[i])
    {
      if i >= |ns| {
        assert (ns + more)[i] == more[i - |ns|];
        assert SoundNeighbour(routes, more[i - |ns|]);
      } else {
        assert (ns + more)[i] == ns[i];
      }
    }
  }

  /**
   * The position of the first neighbour of least collection time: no neighbour is faster, and
   * every neighbour before it is strictly slower.
   */
  function FirstBest(ns: seq<Routes>): (i: nat)
    requires |ns| > 0
    ensures i < |ns|
    ensures forall j :: 0 <= j < |ns| ==> CollectionTime(ns[i].collectionRoutes) <= CollectionTime(ns[j].collectionRoutes)
    ensures forall j :: 0 <= j < i ==> CollectionTime(ns[j].collectionRoutes) > CollectionTime(ns[i].collectionRoutes)
    decreases |ns|
  {
    if |ns| == 1 then 0
    else
      var k := FirstBest(ns[..|ns| - 1]);
      assert forall j :: 0 <= j < |ns| - 1 ==> ns[..|ns| - 1][j] == ns[j];
      if CollectionTime(ns[|ns| - 1].collectionRoutes) < CollectionTime(ns[k].collectionRoutes) then |ns| - 1 else k
  }

  /** Only the position of the first least time answers both conditions of FirstBest. */
  lemma FirstBestUnique(ns: seq<Routes>, i: nat)
    requires i < |ns|
    requires forall j :: 0 <= j < |ns| ==> CollectionTime(ns[i].collectionRoutes) <= CollectionTime(ns[j].collectionRoutes)
    requires forall j :: 0 <= j < i ==> CollectionTime(ns[j].collectionRoutes) > CollectionTime(ns[i].collectionRoutes)
    ensures FirstBest(ns) == i
  {
  }

  /** A solution no slower than any stored neighbour is no slower than any of a scan appended to them. */
  lemma NoFasterInScan(routes: Routes, earlier: seq<Routes>, more: seq<Routes>)
    requires forall i :: 0 <= i < |earlier + more| ==>
      CollectionTime(routes.collectionRoutes) <= CollectionTime((earlier + more)[i].collectionRoutes)
    ensures forall n :: n in more ==> CollectionTime(routes.collectionRoutes) <= CollectionTime(n.collectionRoutes)
  {
    forall n | n in more
      ensures CollectionTime(routes.collectionRoutes) <= CollectionTime(n.collectionRoutes)
    {
      var j :| 0 <= j < |more| && more[j] == n;
      assert (earlier + more)[|earlier| + j] == n;
    }
  }

  class LocalSearch {
    const kind: Operator
    const problemInstance: VrptSwtsInstance
    /** The areas of the instance the operator was made for: what every solution it sees serves. */
    ghost const areas: multiset<Node>
    var factibleNeighbours: seq<Routes>

    ghost predicate Valid()
      reads this
    {
      ServesAll(areas, factibleNeighbours)
    }

    constructor (kind: Operator, problemInstance: VrptSwtsInstance)
      ensures this.kind == kind && this.problemInstance == problemInstance
      ensures areas == multiset(problemInstance.collectionAreas)
      ensures factibleNeighbours == []
      ensures Valid()
    {
      this.kind := kind;
      this.problemInstance := problemInstance;
      areas := multiset(problemInstance.collectionAreas);
      factibleNeighbours := [];
    }

    /**
     * The neighbour of least collection time, the first one on ties; nothing when the list is
     * empty. The list is left as it is.
     */
    method GetBestNeighbour() returns (best: Option<Routes>)
      ensures best.None? <==> factibleNeighbours == []
      ensures best.Some? ==> best.value == factibleNeighbours[FirstBest(factibleNeighbours)]
    {
      if |factibleNeighbours| == 0 {
        return None;
      }
      var bestIndex := 0;
      var bestNeighbour := factibleNeighbours[0];
      var i := 1;
      while i < |factibleNeighbours|
        invariant 1 <= i <= |factibleNeighbours|
        invariant bestIndex < i && bestNeighbour == factibleNeighbours[bestIndex]
        invariant forall j :: 0 <= j < i ==>
          CollectionTime(bestNeighbour.collectionRoutes) <= CollectionTime(factibleNeighbours[j].collectionRoutes)
        invariant forall j :: 0 <= j < bestIndex ==>
          CollectionTime(factibleNeighbours[j].collectionRoutes) > CollectionTime(bestNeighbour.collectionRoutes)
      {
        var time := GetCollectionTime(factibleNeighbours[i]);
        var bestTime := GetCollectionTime(bestNeighbour);
        if time < bestTime {
          bestIndex, bestNeighbour := i, factibleNeighbours[i];
        }
        i := i + 1;
      }
      FirstBestUnique(factibleNeighbours, bestIndex);
      best := Some(bestNeighbour);
    }

    /** The neighbourhood of routes that this operator's kind scans. */
    ghost function Neighbours(routes: Routes): seq<Routes>
    {
      var m, t := problemInstance.distance, problemInstance.collectionTruck;
      match kind
      case ReinsertionIntraSearch => ReinsertionIntra.Neighbourhood(m, t, routes)
      case ReinsertionInterSearch => ReinsertionInter.Neighbourhood(m, t, routes)
      case SwapIntraSearch => SwapIntra.Neighbourhood(m, t, routes)
      case SwapInterSearch => SwapInter.Neighbourhood(m, t, routes)
      case TwoOptSearch => TwoOpt.Neighbourhood(m, t, routes)
    }

    /** No solution in this operator's neighbourhood of routes is strictly faster than routes. */
    ghost predicate LocalMinimum(routes: Routes)
    {
      forall n :: n in Neighbours(routes) ==> CollectionTime(routes.collectionRoutes) <= CollectionTime(n.collectionRoutes)
    }

    /** A solution no slower than any stored neighbour, the last scan of routes included, is a local minimum. */
    lemma ScanMinimum(routes: Routes, earlier: seq<Routes>, more: seq<Routes>)
      requires more == Neighbours(routes)
      requires forall i :: 0 <= i < |earlier + more| ==>
        CollectionTime(routes.collectionRoutes) <= CollectionTime((earlier + more)[i].collectionRoutes)
      ensures LocalMinimum(routes)
    {
      NoFasterInScan(routes, earlier, more);
    }

    /** One scan of the operator's neighbourhood around routes. */
    method GenerateNeighbours(routes: Routes) returns (neighbours: seq<Routes>)
      requires Workable(routes.collectionRoutes)
      ensures AllSound(routes, neighbours)
      ensures kind == ReinsertionIntraSearch ==> neighbours == ReinsertionIntra.Neighbourhood(problemInstance.distance, problemInstance.collectionTruck, routes)
      ensures kind == ReinsertionInterSearch ==> neighbours == ReinsertionInter.Neighbourhood(problemInstance.distance, problemInstance.collectionTruck, routes)
      ensures kind == SwapIntraSearch ==> neighbours == SwapIntra.Neighbourhood(problemInstance.distance, problemInstance.collectionTruck, routes)
      ensures kind == SwapInterSearch ==> neighbours == SwapInter.Neighbourhood(problemInstance.distance, problemInstance.collectionTruck, routes)
      ensures kind == TwoOptSearch ==> neighbours == TwoOpt.Neighbourhood(problemInstance.distance, problemInstance.collectionTruck, routes)
    {
      var m, t := problemInstance.distance, problemInstance.collectionTruck;
      match kind
      case ReinsertionIntraSearch =>
        ghost var outcome := ReinsertionIntra.Outcome(m, t, routes);
        ghost var positions := ReinsertionIntra.Positions(routes, outcome);
        ghost var nodes := ReinsertionIntra.Nodes(routes, positions);
        assert ReinsertionIntra.SameOnScan(routes, outcome, ReinsertionIntra.Outcome(m, t, routes));
        assert ReinsertionIntra.PositionsAgree(routes, positions, outcome);
        assert ReinsertionIntra.NodesAgree(routes, nodes, positions);
        neighbours := ReinsertionIntra.GenerateAllNeighbours(m, t, routes, outcome, positions, nodes);
      case ReinsertionInterSearch =>
        ghost var outcome := ReinsertionInter.Outcome(m, t, routes);
        ghost var positions := ReinsertionInter.Positions(routes, outcome);
        ghost var nodes := ReinsertionInter.Nodes(routes, positions);
        assert ReinsertionInter.SameOnScan(routes, outcome, ReinsertionInter.Outcome(m, t, routes));
        assert ReinsertionInter.PositionsAgree(routes, positions, outcome);
        assert ReinsertionInter.NodesAgree(routes, nodes, positions);
        neighbours := ReinsertionInter.GenerateAllNeighbours(m, t, routes, outcome, positions, nodes);
      case SwapIntraSearch =>
        ghost var outcome := SwapIntra.Outcome(m, t, routes);
        ghost var positions := SwapIntra.Positions(routes, outcome);
        ghost var nodes := SwapIntra.Nodes(routes, positions);
        assert SwapIntra.SameOnScan(routes, outcome, SwapIntra.Outcome(m, t, routes));
        assert SwapIntra.PositionsAgree(routes, positions, outcome);
        assert SwapIntra.NodesAgree(routes, nodes, positions);
        neighbours := SwapIntra.GenerateAllNeighbours(m, t, routes, outcome, positions, nodes);
      case SwapInterSearch =>
        ghost var outcome := SwapInter.Outcome(m, t, routes);
        ghost var positions := SwapInter.Positions(routes, outcome);
        ghost var nodes := SwapInter.Nodes(routes, positions);
        assert SwapInter.SameOnScan(routes, outcome, SwapInter.Outcome(m, t, routes));
        assert SwapInter.PositionsAgree(routes, positions, outcome);
        assert SwapInter.NodesAgree(routes, nodes, positions);
        neighbours := SwapInter.GenerateAllNeighbours(m, t, routes, outcome, positions, nodes);
      case TwoOptSearch =>
        ghost var outcome := TwoOpt.Outcome(m, t, routes);
        ghost var lowers := TwoOpt.Lowers(routes, outcome);
        assert TwoOpt.SameOnScan(routes, outcome, TwoOpt.Outcome(m, t, routes));
        assert TwoOpt.LowersAgree(routes, lowers, outcome);
        neighbours := TwoOpt.GenerateAllNeighbours(m, t, routes, outcome, lowers);
    }

    /**
     * One scan of the descent: the neighbours found around routes are added to the stored list,
     * and the best stored neighbour is returned, or nothing when the list is empty.
     */
    method Explore(routes: Routes) returns (best: Option<Routes>, more: seq<Routes>)
      requires Valid()
      requires Workable(routes.collectionRoutes) && RoutesAreas(routes.collectionRoutes) == areas
      modifies this
      ensures Valid()
      ensures factibleNeighbours == old(factibleNeighbours) + more && AllSound(routes, more)
      ensures more == Neighbours(routes)
      ensures best.None? <==> factibleNeighbours == []
      ensures best.Some? ==> best.value == factibleNeighbours[FirstBest(factibleNeighbours)]
      ensures best.Some? ==> Serves(areas, best.value)
    {
      more := GenerateNeighbours(routes);
      ServesAllAppend(routes, areas, factibleNeighbours, more);
      factibleNeighbours := factibleNeighbours + more;
      best := GetBestNeighbour();
    }

    /**
     * One round of the descent from routes: a scan, then the best stored neighbour when it is
     * strictly faster. Otherwise nothing, and routes is a local minimum no slower than any
     * neighbour stored.
     */
    method Descend(routes: Routes) returns (next: Option<Routes>)
      requires Valid()
      requires Workable(routes.collectionRoutes) && RoutesAreas(routes.collectionRoutes) == areas
      modifies this
      ensures Valid()
      ensures next.Some? ==> Serves(areas, next.value)
      ensures next.Some? ==> CollectionTime(next.value.collectionRoutes) < CollectionTime(routes.collectionRoutes)
      ensures next.None? ==> LocalMinimum(routes)
      ensures next.None? ==> forall i :: 0 <= i < |factibleNeighbours| ==>
        CollectionTime(routes.collectionRoutes) <= CollectionTime(factibleNeighbours[i].collectionRoutes)
    {
      ghost var earlier := factibleNeighbours;
      var bestNeighbour, more := Explore(routes);
      if bestNeighbour.None? {
        ScanMinimum(routes, earlier, more);
        return None;
      }
      var currentTime := GetCollectionTime(routes);
      var bestTime := GetCollectionTime(bestNeighbour.value);
      if currentTime <= bestTime {
        ScanMinimum(routes, earlier, more);
        return None;
      }
      next := bestNeighbour;
    }

    /**
     * Best-improvement descent: scan the neighbourhood, add what it finds to the stored list,
     * and move to the best stored neighbour while it is strictly faster; the list is cleared
     * after each move. The result is the start or strictly faster, serves the same areas with
     * workable routes, and is no slower than any neighbour left stored. At most fuel + 1 moves
     * are made, counted by moves; unless the last of them used up the fuel, the result is a
     * local minimum of the operator's neighbourhood.
     */
    method SearchLocalMinimum(initialRoutes: Routes, fuel: nat) returns (result: Routes, ghost moves: nat)
      requires Valid()
      requires Workable(initialRoutes.collectionRoutes) && RoutesAreas(initialRoutes.collectionRoutes) == areas
      modifies this
      ensures Valid()
      ensures Workable(result.collectionRoutes) && RoutesAreas(result.collectionRoutes) == areas
      ensures result == initialRoutes
           || CollectionTime(result.collectionRoutes) < CollectionTime(initialRoutes.collectionRoutes)
      ensures forall i :: 0 <= i < |factibleNeighbours| ==>
        CollectionTime(result.collectionRoutes) <= CollectionTime(factibleNeighbours[i].collectionRoutes)
      ensures moves <= fuel + 1
      ensures moves == 0 ==> result == initialRoutes
      ensures moves > 0 ==> CollectionTime(result.collectionRoutes) < CollectionTime(initialRoutes.collectionRoutes)
      ensures moves <= fuel ==> LocalMinimum(result)
    {
      result := initialRoutes;
      moves := 0;
      var steps := fuel;
      while true
        invariant Valid()
        invariant Workable(result.collectionRoutes) && RoutesAreas(result.collectionRoutes) == areas
        invariant moves + steps == fuel
        invariant moves == 0 ==> result == initialRoutes
        invariant moves > 0 ==> CollectionTime(result.collectionRoutes) < CollectionTime(initialRoutes.collectionRoutes)
        decreases steps
      {
        var next := Descend(result);
        if next.None? {
          return;
        }
        result := next.value;
        factibleNeighbours := [];
        moves := moves + 1;
        if steps == 0 {
          return;
        }
        steps := steps - 1;
      }
    }
  }

  /** op keeps its invariant and searches solutions that serve areas. */
  ghost predicate Ready(op: LocalSearch, areas: multiset<Node>)
    reads op
  {
    op.areas == areas && op.Valid()
  }

  /** Every operator of ops is ready. */
  ghost predicate AllReady(ops: seq<LocalSearch>, areas: multiset<Node>)
    reads ops
  {
    forall k {:trigger Ready(ops[k], areas)} :: 0 <= k < |ops| ==> Ready(ops[k], areas)
  }
}
