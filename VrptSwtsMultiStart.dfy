/**
 * Multi-start: Iterations + 1 rounds of GRASP construction followed by the sequential search
 * over the five operators; the fastest local minimum, the earliest on ties, gets the one
 * transport plan.
 */
module MultiStart {
  import opened Wrappers
  import opened Graph
  import opened Routing
  import opened Transport
  import opened Solutions
  import opened Neighbourhoods
  import opened Instance
  import opened Randomness
  import opened TransportInvariants
  import opened Resolver
  import opened LocalSearches
  import opened Sequential
  import opened Grasp

  /** The number of rounds after the first one. */
  const Iterations: nat := 20

  /** The operators of the sequential search, in the order they run. */
  const OperatorOrder: seq<Operator> :=
    [ReinsertionIntraSearch, ReinsertionInterSearch, SwapIntraSearch, SwapInterSearch, TwoOptSearch]

  /** Adding a solution moves the first least time to it exactly when it is strictly faster than the one before. */
  lemma FirstBestAppend(ns: seq<Routes>, n: Routes)
    requires |ns| > 0
    ensures FirstBest(ns + [n])
         == if CollectionTime(n.collectionRoutes) < CollectionTime(ns[FirstBest(ns)].collectionRoutes) then |ns| else FirstBest(ns)
  {
    assert (ns + [n])[..|ns|] == ns;
  }

  /** A workable route that serves an area has at least three stops, the one before the return a station. */
  lemma ServingRouteEndsAtStation(r: seq<Node>)
    requires SearchRoute(r) && Areas(r) != multiset{}
    ensures |r| >= 3 && IsTransferStation(r[|r| - 2])
  {
    var x :| x in Areas(r);
    AreasCount(r, x);
    var k :| 0 <= k < |r| && r[k] == x;
    assert 0 < k < |r| - 1;
  }

  /** Workable routes that serve some area unload at least once. */
  lemma {:induction false} ServingRoutesUnload(m: Metric, t: Truck, rs: seq<CollectionRoute>)
    requires Workable(rs) && RoutesAreas(rs) != multiset{}
    ensures RoutesTasks(m, t, rs) != []
    decreases |rs|
  {
    var init, last := rs[..|rs| - 1], rs[|rs| - 1];
    assert SearchRoute(last.route);
    assert RoutesAreas(rs) == RoutesAreas(init) + Areas(last.route);
    assert RoutesTasks(m, t, rs) == RoutesTasks(m, t, init) + RouteTasks(m, t, last.route);
    if Areas(last.route) != multiset{} {
      ServingRouteEndsAtStation(last.route);
      StationBeforeReturnUnloads(m, t, last.route);
    } else {
      assert Workable(init) by {
        forall k | 0 <= k < |init|
          ensures SearchRoute(init[k].route)
        {
          assert init[k] == rs[k];
        }
      }
      ServingRoutesUnload(m, t, init);
    }
  }

  /** The kinds of ops, in order. */
  function Kinds(ops: seq<LocalSearch>): (kinds: seq<Operator>)
    ensures |kinds| == |ops| && forall k :: 0 <= k < |ops| ==> kinds[k] == ops[k].kind
  {
    seq(|ops|, k requires 0 <= k < |ops| => ops[k].kind)
  }

  /** ops followed by a new operator of the given kind on a clone of problemInstance, with nothing stored. */
  method AddOperator(ops: seq<LocalSearch>, kind: Operator, problemInstance: VrptSwtsInstance) returns (more: seq<LocalSearch>)
    requires AllReady(ops, multiset(problemInstance.collectionAreas))
    ensures |more| == |ops| + 1 && more[..|ops|] == ops && fresh(more[|ops|])
    ensures more[|ops|].kind == kind && more[|ops|].factibleNeighbours == []
    ensures Kinds(more) == Kinds(ops) + [kind]
    ensures AllReady(more, multiset(problemInstance.collectionAreas))
  {
    var copy := problemInstance.Clone();
    var op := new LocalSearch(kind, copy);
    more := ops + [op];
    assert more[..|ops|] == ops;
    forall k | 0 <= k < |more|
      ensures Ready(more[k], multiset(problemInstance.collectionAreas))
    {
      if k < |ops| {
        assert more[k] == ops[k];
        assert Ready(ops[k], multiset(problemInstance.collectionAreas));
      }
    }
  }

  /** The five operators in OperatorOrder, each on a clone of problemInstance and ready for its areas. */
  method Operators(problemInstance: VrptSwtsInstance) returns (ops: seq<LocalSearch>)
    ensures Kinds(ops) == OperatorOrder
    ensures AllReady(ops, multiset(problemInstance.collectionAreas))
  {
    ghost var none: seq<LocalSearch> := [];
    assert Kinds(none) == [];
    ops := AddOperator([], ReinsertionIntraSearch, problemInstance);
    assert Kinds(ops) == [ReinsertionIntraSearch];
    ops := AddOperator(ops, ReinsertionInterSearch, problemInstance);
    assert Kinds(ops) == OperatorOrder[..2];
    ops := AddOperator(ops, SwapIntraSearch, problemInstance);
    assert Kinds(ops) == OperatorOrder[..3];
    ops := AddOperator(ops, SwapInterSearch, problemInstance);
    assert Kinds(ops) == OperatorOrder[..4];
    ops := AddOperator(ops, TwoOptSearch, problemInstance);
  }

  class VrptSwtsMultiStart {
    const grasp: VrptSwtsGrasp
    const sequentialSearch: SequentialSearch

    /**
     * GRASP on a clone of the instance, and the five operators in OperatorOrder, each on a
     * clone of its own and ready for the instance's areas.
     */
    constructor (problemInstance: VrptSwtsInstance, randomWindow: nat, rng: RandomSource)
      ensures fresh(grasp) && fresh(grasp.resolver) && fresh(grasp.resolver.problemInstance) && fresh(grasp.instanceCopy)
      ensures grasp.resolver.strategy == RandomTopK(randomWindow) && grasp.resolver.rng == rng
      ensures grasp.instanceCopy.distance == problemInstance.distance
      ensures grasp.instanceCopy.collectionTruck == problemInstance.collectionTruck
      ensures grasp.instanceCopy.transportTruck == problemInstance.transportTruck
      ensures grasp.instanceCopy.depot == problemInstance.depot && grasp.instanceCopy.dumpsite == problemInstance.dumpsite
      ensures grasp.instanceCopy.transferStations == problemInstance.transferStations
      ensures grasp.instanceCopy.collectionAreas == problemInstance.collectionAreas
      ensures fresh(sequentialSearch) && Kinds(sequentialSearch.localSearches) == OperatorOrder
      ensures AllReady(sequentialSearch.localSearches, multiset(problemInstance.collectionAreas))
    {
      var graspInstance := problemInstance.Clone();
      grasp := new VrptSwtsGrasp(graspInstance, randomWindow, rng);
      var ops := Operators(problemInstance);
      sequentialSearch := new SequentialSearch(ops);
    }

    /** What Run needs: a saved instance construction can serve, and every operator ready for its areas. */
    ghost predicate Prepared()
      reads grasp, grasp.instanceCopy, sequentialSearch, sequentialSearch.localSearches
    {
      && ConstructionFeasible(grasp.instanceCopy, grasp.resolver.strategy)
      && IsDumpsite(grasp.instanceCopy.dumpsite)
      && AllReady(sequentialSearch.localSearches, multiset(grasp.instanceCopy.collectionAreas))
    }

    /**
     * One GRASP construction on the saved instance: it fails exactly when the instance has no
     * area, and otherwise its routes serve every area of the instance and are routes the local
     * searches work on.
     */
    method Construction() returns (built: Result<Routes>)
      requires ConstructionFeasible(grasp.instanceCopy, grasp.resolver.strategy) && IsDumpsite(grasp.instanceCopy.dumpsite)
      modifies grasp.resolver, grasp.resolver.rng
      ensures SameSetting(grasp.resolver.problemInstance, grasp.instanceCopy)
      ensures built.Failure? <==> grasp.instanceCopy.collectionAreas == []
      ensures built.Success? ==>
        && RoutesAreas(built.value.collectionRoutes) == multiset(grasp.instanceCopy.collectionAreas)
        && Workable(built.value.collectionRoutes)
    {
      ghost var candidates;
      built, candidates := grasp.BuildRoutes();
      if built.Success? {
        var inst := grasp.instanceCopy;
        assert Candidate(inst, built.value.collectionRoutes);
        ConstructedWorkable(built.value.collectionRoutes, inst.depot, inst.transferStations, inst.collectionTruck.capacity);
      }
    }

    /**
     * One round: a GRASP construction and the sequential search from it. The construction fails
     * exactly when the instance has no area; otherwise the local minimum is the constructed
     * solution or strictly faster, and both serve every area with workable routes.
     */
    method BuildAndImprove(stepFuel: nat) returns (localMinimum: Result<Routes>, graspRoutes: Routes)
      requires Prepared()
      modifies grasp.resolver, grasp.resolver.rng, sequentialSearch.localSearches
      ensures Prepared() && SameSetting(grasp.resolver.problemInstance, grasp.instanceCopy)
      ensures localMinimum.Failure? <==> grasp.instanceCopy.collectionAreas == []
      ensures localMinimum.Success? ==>
        && RoutesAreas(graspRoutes.collectionRoutes) == multiset(grasp.instanceCopy.collectionAreas)
        && Workable(graspRoutes.collectionRoutes)
        && (localMinimum.value == graspRoutes
            || CollectionTime(localMinimum.value.collectionRoutes) < CollectionTime(graspRoutes.collectionRoutes))
        && Workable(localMinimum.value.collectionRoutes)
        && RoutesAreas(localMinimum.value.collectionRoutes) == multiset(grasp.instanceCopy.collectionAreas)
    {
      var built := Construction();
      assert AllReady(sequentialSearch.localSearches, multiset(grasp.instanceCopy.collectionAreas));
      if built.Failure? {
        localMinimum := Failure(built.error);
        graspRoutes := Routes([], []);
      } else {
        graspRoutes := built.value;
        var routes := Improve(graspRoutes, stepFuel);
        localMinimum := Success(routes);
      }
    }

    /** The sequential search from routes, every operator ready for the areas routes serve. */
    method Improve(routes: Routes, stepFuel: nat) returns (localMinimum: Routes)
      requires Workable(routes.collectionRoutes)
      requires AllReady(sequentialSearch.localSearches, RoutesAreas(routes.collectionRoutes))
      modifies sequentialSearch.localSearches
      ensures AllReady(sequentialSearch.localSearches, RoutesAreas(routes.collectionRoutes))
      ensures Workable(localMinimum.collectionRoutes)
      ensures RoutesAreas(localMinimum.collectionRoutes) == RoutesAreas(routes.collectionRoutes)
      ensures localMinimum == routes
           || CollectionTime(localMinimum.collectionRoutes) < CollectionTime(routes.collectionRoutes)
    {
      ghost var trace;
      localMinimum, trace := sequentialSearch.Search(routes, stepFuel);
    }

    /** What holds between the rounds of Run: the local minima so far, best the earliest fastest of them. */
    ghost predicate Between(rounds: seq<Routes>, best: Routes)
      reads grasp, grasp.resolver, grasp.resolver.problemInstance, grasp.instanceCopy, sequentialSearch, sequentialSearch.localSearches
    {
      && Prepared()
      && SameSetting(grasp.resolver.problemInstance, grasp.instanceCopy)
      && grasp.instanceCopy.collectionAreas != []
      && |rounds| > 0
      && (forall k :: 0 <= k < |rounds| ==>
            Workable(rounds[k].collectionRoutes)
            && RoutesAreas(rounds[k].collectionRoutes) == multiset(grasp.instanceCopy.collectionAreas))
      && best == rounds[FirstBest(rounds)]
    }

    /** One more round of Run: the new local minimum replaces best only when strictly faster. */
    method NextRound(best: Routes, ghost rounds: seq<Routes>, stepFuel: nat) returns (next: Routes, ghost more: seq<Routes>)
      requires Between(rounds, best)
      modifies grasp.resolver, grasp.resolver.rng, sequentialSearch.localSearches
      ensures |more| == |rounds| + 1 && more[..|rounds|] == rounds
      ensures Between(more, next)
    {
      var localMinimum, _ := BuildAndImprove(stepFuel);
      if localMinimum.Failure? {
        assert false;
      }
      more := rounds + [localMinimum.value];
      assert more[..|rounds|] == rounds;
      var bestTime := GetCollectionTime(best);
      var time := GetCollectionTime(localMinimum.value);
      next := if bestTime > time then localMinimum.value else best;
      RoundAppend(rounds, best, localMinimum.value);
    }

    /**
     * A further round keeps what holds between rounds; the best moves to it exactly when it is
     * strictly faster.
     */
    lemma RoundAppend(rounds: seq<Routes>, best: Routes, r: Routes)
      requires Between(rounds, best)
      requires Workable(r.collectionRoutes) && RoutesAreas(r.collectionRoutes) == multiset(grasp.instanceCopy.collectionAreas)
      ensures Between(rounds + [r],
                      if CollectionTime(best.collectionRoutes) > CollectionTime(r.collectionRoutes) then r else best)
    {
      FirstBestAppend(rounds, r);
      forall k | 0 <= k < |rounds + [r]|
        ensures Workable((rounds + [r])[k].collectionRoutes)
             && RoutesAreas((rounds + [r])[k].collectionRoutes) == multiset(grasp.instanceCopy.collectionAreas)
      {
        if k < |rounds| {
          assert (rounds + [r])[k] == rounds[k];
        }
      }
    }

    /**
     * Iterations + 1 rounds, their local minima in rounds, in order. The solution returned
     * carries the collection routes of the earliest fastest of them, so no round found a faster
     * one, and the transport plan built from those routes alone. It fails exactly when the
     * instance has no area.
     */
    method Run(stepFuel: nat) returns (result: Result<Routes>, ghost rounds: seq<Routes>)
      requires Prepared()
      modifies grasp.resolver, grasp.resolver.rng, sequentialSearch.localSearches
      ensures Prepared()
      ensures result.Failure? <==> grasp.instanceCopy.collectionAreas == []
      ensures result.Success? ==>
        && |rounds| == Iterations + 1
        && result.value.collectionRoutes == rounds[FirstBest(rounds)].collectionRoutes
        && (forall k :: 0 <= k < |rounds| ==>
              CollectionTime(result.value.collectionRoutes) <= CollectionTime(rounds[k].collectionRoutes))
        && Workable(result.value.collectionRoutes)
        && RoutesAreas(result.value.collectionRoutes) == multiset(grasp.instanceCopy.collectionAreas)
        && grasp.resolver.transportTasks
           == RoutesTasks(grasp.instanceCopy.distance, grasp.instanceCopy.collectionTruck, result.value.collectionRoutes)
        && TransportPlan(result.value.transportTrucks, grasp.resolver.transportTasks, grasp.instanceCopy.transportTruck,
                         grasp.instanceCopy.dumpsite, grasp.instanceCopy.distance)
    {
      var best;
      best, rounds := Rounds(stepFuel);
      if best.Failure? {
        result := Failure(best.error);
        return;
      }
      result := Conclude(best.value, rounds);
    }

    /**
     * The end of Run once every round is done: the transport plan for the earliest fastest local
     * minimum, which serves every area with workable routes and is no slower than any round.
     */
    method Conclude(bestRoutes: Routes, ghost rounds: seq<Routes>) returns (result: Result<Routes>)
      requires Between(rounds, bestRoutes)
      modifies grasp.resolver
      ensures Prepared()
      ensures result.Success?
      ensures result.value.collectionRoutes == rounds[FirstBest(rounds)].collectionRoutes
      ensures forall k :: 0 <= k < |rounds| ==>
                CollectionTime(result.value.collectionRoutes) <= CollectionTime(rounds[k].collectionRoutes)
      ensures Workable(result.value.collectionRoutes)
      ensures RoutesAreas(result.value.collectionRoutes) == multiset(grasp.instanceCopy.collectionAreas)
      ensures grasp.resolver.transportTasks
           == RoutesTasks(grasp.instanceCopy.distance, grasp.instanceCopy.collectionTruck, result.value.collectionRoutes)
      ensures TransportPlan(result.value.transportTrucks, grasp.resolver.transportTasks, grasp.instanceCopy.transportTruck,
                            grasp.instanceCopy.dumpsite, grasp.instanceCopy.distance)
    {
      ghost var areas := multiset(grasp.instanceCopy.collectionAreas);
      assert Workable(bestRoutes.collectionRoutes) && RoutesAreas(bestRoutes.collectionRoutes) == areas;
      assert grasp.instanceCopy.collectionAreas[0] in areas;
      result := Transport(bestRoutes);
    }

    /**
     * The rounds of Run: a first one, then Iterations more, each kept only when strictly faster
     * than the best so far. With no area the first construction fails and nothing else is done.
     */
    method Rounds(stepFuel: nat) returns (best: Result<Routes>, ghost rounds: seq<Routes>)
      requires Prepared()
      modifies grasp.resolver, grasp.resolver.rng, sequentialSearch.localSearches
      ensures Prepared() && SameSetting(grasp.resolver.problemInstance, grasp.instanceCopy)
      ensures best.Failure? <==> grasp.instanceCopy.collectionAreas == []
      ensures best.Success? ==> |rounds| == Iterations + 1 && Between(rounds, best.value)
    {
      var initialRoutes, _ := BuildAndImprove(stepFuel);
      if initialRoutes.Failure? {
        best := initialRoutes;
        rounds := [];
        return;
      }
      var bestRoutes := initialRoutes.value;
      rounds := [bestRoutes];
      for i := 0 to Iterations
        invariant |rounds| == i + 1
        invariant Between(rounds, bestRoutes)
      {
        bestRoutes, rounds := NextRound(bestRoutes, rounds, stepFuel);
      }
      best := Success(bestRoutes);
    }

    /**
     * The one transport plan, for best: its unloads replace the recorded ones and the plan is
     * built from them. Since best serves some area with workable routes, there are unloads
     * and the plan is built.
     */
    method Transport(bestRoutes: Routes) returns (result: Result<Routes>)
      requires IsDumpsite(grasp.instanceCopy.dumpsite) && SameSetting(grasp.resolver.problemInstance, grasp.instanceCopy)
      requires Workable(bestRoutes.collectionRoutes) && RoutesAreas(bestRoutes.collectionRoutes) != multiset{}
      modifies grasp.resolver
      ensures result.Success?
      ensures result.value.collectionRoutes == bestRoutes.collectionRoutes
      ensures grasp.resolver.transportTasks
           == RoutesTasks(grasp.instanceCopy.distance, grasp.instanceCopy.collectionTruck, bestRoutes.collectionRoutes)
      ensures TransportPlan(result.value.transportTrucks, grasp.resolver.transportTasks, grasp.instanceCopy.transportTruck,
                            grasp.instanceCopy.dumpsite, grasp.instanceCopy.distance)
    {
      var _ := grasp.resolver.GenerateTransportTasks(bestRoutes.collectionRoutes);
      ServingRoutesUnload(grasp.instanceCopy.distance, grasp.instanceCopy.collectionTruck, bestRoutes.collectionRoutes);
      var transportTrucks := grasp.resolver.BuildTransportRoutes();
      if transportTrucks.Failure? {
        assert false;
      }
      result := Success(Routes(bestRoutes.collectionRoutes, transportTrucks.value));
    }
  }
}
