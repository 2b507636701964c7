/**
 * GRASP construction: the greedy construction with a random pick among the nearest few areas,
 * run Accuracy + 1 times on fresh copies of the instance; the routes with the fewest vehicles,
 * and among those the least collection time, are kept, and the transport plan is built for
 * them alone.
 */
module Grasp {
  import opened Wrappers
  import opened Graph
  import opened Routing
  import opened Transport
  import opened Solutions
  import opened Neighbourhoods
  import opened Instance
  import opened Randomness
  import opened TransportInvariants
  import opened Resolver

  /** The number of constructions after the first one. */
  const Accuracy: nat := 20

  /** a uses fewer routes than b, or as many and strictly less collection time. */
  predicate Better(a: seq<CollectionRoute>, b: seq<CollectionRoute>)
  {
    |a| < |b| || (|a| == |b| && CollectionTime(a) < CollectionTime(b))
  }

  /** Better is a strict order whose negation is the lexicographic order on (route count, time). */
  lemma BetterIsLexicographic(a: seq<CollectionRoute>, b: seq<CollectionRoute>)
    ensures !Better(a, b) <==> (|b| < |a| || (|b| == |a| && CollectionTime(b) <= CollectionTime(a)))
    ensures !(Better(a, b) && Better(b, a))
  {
  }

  /**
   * The position of the candidate kept by BuildRoutes: no candidate is better, and every
   * candidate before it is worse (a later candidate replaces the kept one only when better).
   */
  function Kept(cs: seq<seq<CollectionRoute>>): (i: nat)
    requires |cs| > 0
    ensures i < |cs|
    ensures forall j :: 0 <= j < |cs| ==> !Better(cs[j], cs[i])
    ensures forall j :: 0 <= j < i ==> Better(cs[i], cs[j])
    decreases |cs|
  {
    if |cs| == 1 then 0
    else
      var k := Kept(cs[..|cs| - 1]);
      assert forall j :: 0 <= j < |cs| - 1 ==> cs[..|cs| - 1][j] == cs[j];
      if Better(cs[|cs| - 1], cs[k]) then |cs| - 1 else k
  }

  /** Adding a candidate moves the kept position to it exactly when it is better than the kept one. */
  lemma KeptAppend(cs: seq<seq<CollectionRoute>>, c: seq<CollectionRoute>)
    requires |cs| > 0
    ensures Kept(cs + [c]) == if Better(c, cs[Kept(cs)]) then |cs| else Kept(cs)
  {
    assert (cs + [c])[..|cs|] == cs;
  }

  /**
   * routes are what one construction on inst returns: every area of inst in exactly one route,
   * and every route as construction leaves it.
   */
  ghost predicate Candidate(inst: VrptSwtsInstance, routes: seq<CollectionRoute>)
    reads inst
  {
    && RoutesAreas(routes) == multiset(inst.collectionAreas)
    && forall k :: 0 <= k < |routes| ==>
         ConstructedRoute(routes[k], inst.depot, inst.transferStations, inst.collectionTruck.capacity)
  }

  /** Constructed routes are routes the local searches work on. */
  lemma ConstructedWorkable(routes: seq<CollectionRoute>, depot: Node, stations: seq<Node>, cap: int)
    requires forall k :: 0 <= k < |routes| ==> ConstructedRoute(routes[k], depot, stations, cap)
    ensures Workable(routes)
  {
    forall k | 0 <= k < |routes|
      ensures SearchRoute(routes[k].route)
    {
      assert ConstructedRoute(routes[k], depot, stations, cap);
    }
  }

  /** a and b share the distance, the vehicle profiles and the dumpsite. */
  ghost predicate SameSetting(a: VrptSwtsInstance, b: VrptSwtsInstance)
  {
    && a.distance == b.distance
    && a.collectionTruck == b.collectionTruck && a.transportTruck == b.transportTruck
    && a.dumpsite == b.dumpsite
  }

  class VrptSwtsGrasp {
    /** The construction machinery GRASP specialises, choosing among the randomWindow nearest areas. */
    const resolver: VrptSwtsResolver
    const randomWindow: nat
    /** The instance as given, kept untouched: every construction starts from a clone of it. */
    const instanceCopy: VrptSwtsInstance

    constructor (problemInstance: VrptSwtsInstance, randomWindow: nat, rng: RandomSource)
      ensures fresh(resolver) && fresh(instanceCopy)
      ensures resolver.problemInstance == problemInstance && resolver.transportTasks == []
      ensures resolver.strategy == RandomTopK(randomWindow) && resolver.rng == rng
      ensures this.randomWindow == randomWindow
      ensures instanceCopy.collectionTruck == problemInstance.collectionTruck
      ensures instanceCopy.transportTruck == problemInstance.transportTruck
      ensures instanceCopy.depot == problemInstance.depot && instanceCopy.dumpsite == problemInstance.dumpsite
      ensures instanceCopy.distance == problemInstance.distance
      ensures instanceCopy.transferStations == problemInstance.transferStations
      ensures instanceCopy.collectionAreas == problemInstance.collectionAreas
    {
      resolver := new VrptSwtsResolver(problemInstance, RandomTopK(randomWindow), rng);
      this.randomWindow := randomWindow;
      var copy := problemInstance.Clone();
      instanceCopy := copy;
    }

    /**
     * One construction on a fresh clone of the saved instance, which becomes the resolver's
     * instance; the routes returned are a candidate for the saved instance.
     */
    method Construct() returns (routes: seq<CollectionRoute>)
      requires ConstructionFeasible(instanceCopy, resolver.strategy)
      modifies resolver, resolver.rng
      ensures Candidate(instanceCopy, routes)
      ensures fresh(resolver.problemInstance) && SameSetting(resolver.problemInstance, instanceCopy)
    {
      resolver.problemInstance := instanceCopy.Clone();
      ghost var ended;
      routes, ended := resolver.BuildCollectionRoutes();
      forall k | 0 <= k < |routes|
        ensures ConstructedRoute(routes[k], instanceCopy.depot, instanceCopy.transferStations, instanceCopy.collectionTruck.capacity)
      {
        assert BuiltRoute(resolver.problemInstance.distance, resolver.problemInstance.collectionTruck, resolver.problemInstance.depot,
                          resolver.problemInstance.transferStations, routes[k], ended[k]);
      }
    }

    /** candidates are constructions on the saved instance, and best is the one kept among them. */
    ghost predicate Selection(candidates: seq<seq<CollectionRoute>>, best: seq<CollectionRoute>)
      reads instanceCopy
    {
      && |candidates| > 0
      && (forall k :: 0 <= k < |candidates| ==> Candidate(instanceCopy, candidates[k]))
      && best == candidates[Kept(candidates)]
    }

    /**
     * One more construction, compared with the kept routes: it replaces them when it has fewer
     * routes, or as many and strictly less collection time.
     */
    method Consider(bestCollectionRoutes: seq<CollectionRoute>, ghost candidates: seq<seq<CollectionRoute>>)
      returns (kept: seq<CollectionRoute>, ghost more: seq<seq<CollectionRoute>>)
      requires Selection(candidates, bestCollectionRoutes) && ConstructionFeasible(instanceCopy, resolver.strategy)
      modifies resolver, resolver.rng
      ensures |more| == |candidates| + 1 && more[..|candidates|] == candidates
      ensures Selection(more, kept)
      ensures SameSetting(resolver.problemInstance, instanceCopy)
    {
      var collectionRoutes := Construct();
      more := candidates + [collectionRoutes];
      assert more[..|candidates|] == candidates;
      var bestRoutes, routes := Routes(bestCollectionRoutes, []), Routes(collectionRoutes, []);
      var bestTime := GetCollectionTime(bestRoutes);
      var time := GetCollectionTime(routes);
      kept := bestCollectionRoutes;
      if |routes.collectionRoutes| < |bestRoutes.collectionRoutes| {
        kept := collectionRoutes;
      }
      if |routes.collectionRoutes| == |bestRoutes.collectionRoutes| && time < bestTime {
        kept := collectionRoutes;
      }
      assert kept == if Better(collectionRoutes, bestCollectionRoutes) then collectionRoutes else bestCollectionRoutes;
      SelectionAppend(candidates, bestCollectionRoutes, collectionRoutes);
    }

    /** A further candidate keeps the selection, which moves to it exactly when it is better. */
    lemma SelectionAppend(candidates: seq<seq<CollectionRoute>>, best: seq<CollectionRoute>, c: seq<CollectionRoute>)
      requires Selection(candidates, best) && Candidate(instanceCopy, c)
      ensures Selection(candidates + [c], if Better(c, best) then c else best)
    {
      KeptAppend(candidates, c);
      forall k | 0 <= k < |candidates + [c]|
        ensures Candidate(instanceCopy, (candidates + [c])[k])
      {
        if k < |candidates| {
          assert (candidates + [c])[k] == candidates[k];
        }
      }
    }

    /**
     * Accuracy + 1 constructions, the candidates, in order; the routes returned are the kept
     * one: the first of the fewest routes and least collection time among them.
     */
    method SelectRoutes() returns (bestCollectionRoutes: seq<CollectionRoute>, ghost candidates: seq<seq<CollectionRoute>>)
      requires ConstructionFeasible(instanceCopy, resolver.strategy)
      modifies resolver, resolver.rng
      ensures |candidates| == Accuracy + 1
      ensures Selection(candidates, bestCollectionRoutes)
      ensures SameSetting(resolver.problemInstance, instanceCopy)
    {
      bestCollectionRoutes := Construct();
      candidates := [bestCollectionRoutes];
      for i := 0 to Accuracy
        invariant |candidates| == i + 1
        invariant Selection(candidates, bestCollectionRoutes)
        invariant SameSetting(resolver.problemInstance, instanceCopy)
      {
        bestCollectionRoutes, candidates := Consider(bestCollectionRoutes, candidates);
      }
    }

    /**
     * GRASP: the kept routes of Accuracy + 1 constructions (SelectRoutes). Their unloads replace
     * the recorded ones and the transport plan is built from them: that fails exactly when the
     * instance has no area, and otherwise the result carries the kept routes and a plan that
     * serves every unload.
     */
    method BuildRoutes() returns (result: Result<Routes>, ghost candidates: seq<seq<CollectionRoute>>)
      requires ConstructionFeasible(instanceCopy, resolver.strategy) && IsDumpsite(instanceCopy.dumpsite)
      modifies resolver, resolver.rng
      ensures |candidates| == Accuracy + 1
      ensures forall k :: 0 <= k < |candidates| ==> Candidate(instanceCopy, candidates[k])
      ensures SameSetting(resolver.problemInstance, instanceCopy)
      ensures resolver.transportTasks
           == RoutesTasks(instanceCopy.distance, instanceCopy.collectionTruck, candidates[Kept(candidates)])
      ensures result.Failure? <==> instanceCopy.collectionAreas == []
      ensures result.Success? ==> result.value.collectionRoutes == candidates[Kept(candidates)]
      ensures result.Success? ==>
        TransportPlan(result.value.transportTrucks, resolver.transportTasks, instanceCopy.transportTruck,
                      instanceCopy.dumpsite, instanceCopy.distance)
    {
      var bestCollectionRoutes;
      bestCollectionRoutes, candidates := SelectRoutes();
      assert Candidate(instanceCopy, bestCollectionRoutes);
      var _ := resolver.GenerateTransportTasks(bestCollectionRoutes);
      NoTasksIffNoAreas(instanceCopy.distance, instanceCopy.collectionTruck, bestCollectionRoutes,
                        instanceCopy.depot, instanceCopy.transferStations, instanceCopy.collectionTruck.capacity);
      var transportTrucks := resolver.BuildTransportRoutes();
      if transportTrucks.Failure? {
        result := Failure(transportTrucks.error);
      } else {
        result := Success(Routes(bestCollectionRoutes, transportTrucks.value));
      }
    }
  }
}
