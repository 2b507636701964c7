/**
 * Sequential search: every operator of a fixed list runs its descent once, in list order, each
 * one starting from the solution the previous one returned.
 */
module Sequential {
  import opened Graph
  import opened Routing
  import opened Solutions
  import opened Neighbourhoods
  import opened LocalSearches

  /**
   * trace records a chain of descents from initialRoutes: it starts there, and every step keeps
   * the solution it starts from or moves to a strictly faster one that serves the same areas
   * with workable routes.
   */
  ghost predicate Descents(areas: multiset<Node>, initialRoutes: Routes, trace: seq<Routes>)
  {
    && |trace| > 0
    && trace[0] == initialRoutes
    && (forall k :: 0 <= k < |trace| ==>
          Workable(trace[k].collectionRoutes) && RoutesAreas(trace[k].collectionRoutes) == areas)
    && (forall k :: 0 <= k < |trace| - 1 ==>
          trace[k + 1] == trace[k]
          || CollectionTime(trace[k + 1].collectionRoutes) < CollectionTime(trace[k].collectionRoutes))
  }

  /** The end of a chain of descents is its start or strictly faster than it. */
  lemma {:induction false} DescentsEnd(areas: multiset<Node>, initialRoutes: Routes, trace: seq<Routes>)
    requires Descents(areas, initialRoutes, trace)
    ensures trace[|trace| - 1] == initialRoutes
         || CollectionTime(trace[|trace| - 1].collectionRoutes) < CollectionTime(initialRoutes.collectionRoutes)
    decreases |trace|
  {
    if |trace| > 1 {
      var init := trace[..|trace| - 1];
      assert Descents(areas, initialRoutes, init) by {
        forall k | 0 <= k < |init| - 1
          ensures init[k + 1] == init[k]
               || CollectionTime(init[k + 1].collectionRoutes) < CollectionTime(init[k].collectionRoutes)
        {
          assert init[k] == trace[k] && init[k + 1] == trace[k + 1];
        }
      }
      DescentsEnd(areas, initialRoutes, init);
      assert init[|init| - 1] == trace[|trace| - 2];
    }
  }

  /** Extending a chain of descents by one more step keeps it one. */
  lemma DescentsAppend(areas: multiset<Node>, initialRoutes: Routes, trace: seq<Routes>, next: Routes)
    requires Descents(areas, initialRoutes, trace)
    requires Workable(next.collectionRoutes) && RoutesAreas(next.collectionRoutes) == areas
    requires next == trace[|trace| - 1]
          || CollectionTime(next.collectionRoutes) < CollectionTime(trace[|trace| - 1].collectionRoutes)
    ensures Descents(areas, initialRoutes, trace + [next])
  {
    var t := trace + [next];
    forall k | 0 <= k < |t| - 1
      ensures t[k + 1] == t[k] || CollectionTime(t[k + 1].collectionRoutes) < CollectionTime(t[k].collectionRoutes)
    {
      assert t[k] == trace[k];
      if k + 1 < |trace| {
        assert t[k + 1] == trace[k + 1];
      }
    }
  }

  class SequentialSearch {
    const localSearches: seq<LocalSearch>

    constructor (localSearches: seq<LocalSearch>)
      ensures this.localSearches == localSearches
    {
      this.localSearches := localSearches;
    }

    /**
     * Runs each operator's descent once, in list order, operator k starting from trace[k] and
     * ending at trace[k + 1]. Each step keeps its start or is strictly faster, so the result is
     * the start or strictly faster; every solution on the way serves the same areas with
     * workable routes; with no operator the start is returned. Each descent gets stepFuel.
     */
    method Search(initialRoutes: Routes, stepFuel: nat) returns (localMinimum: Routes, ghost trace: seq<Routes>)
      requires AllReady(localSearches, RoutesAreas(initialRoutes.collectionRoutes))
      requires Workable(initialRoutes.collectionRoutes)
      modifies localSearches
      ensures AllReady(localSearches, RoutesAreas(initialRoutes.collectionRoutes))
      ensures |trace| == |localSearches| + 1 && trace[|localSearches|] == localMinimum
      ensures Descents(RoutesAreas(initialRoutes.collectionRoutes), initialRoutes, trace)
      ensures Workable(localMinimum.collectionRoutes)
      ensures RoutesAreas(localMinimum.collectionRoutes) == RoutesAreas(initialRoutes.collectionRoutes)
      ensures localMinimum == initialRoutes
           || CollectionTime(localMinimum.collectionRoutes) < CollectionTime(initialRoutes.collectionRoutes)
      ensures localSearches == [] ==> localMinimum == initialRoutes
    {
      ghost var areas := RoutesAreas(initialRoutes.collectionRoutes);
      localMinimum := initialRoutes;
      trace := [initialRoutes];
      for k := 0 to |localSearches|
        invariant |trace| == k + 1 && trace[k] == localMinimum
        invariant Descents(areas, initialRoutes, trace)
        invariant AllReady(localSearches, areas)
      {
        var next := Descend(k, localMinimum, stepFuel, areas);
        DescentsAppend(areas, initialRoutes, trace, next);
        trace := trace + [next];
        localMinimum := next;
      }
      DescentsEnd(areas, initialRoutes, trace);
    }

    /** Operator k's descent from routes; the other operators are left as they are. */
    method Descend(k: nat, routes: Routes, stepFuel: nat, ghost areas: multiset<Node>) returns (next: Routes)
      requires k < |localSearches| && AllReady(localSearches, areas)
      requires Workable(routes.collectionRoutes) && RoutesAreas(routes.collectionRoutes) == areas
      modifies localSearches
      ensures AllReady(localSearches, areas)
      ensures Workable(next.collectionRoutes) && RoutesAreas(next.collectionRoutes) == areas
      ensures next == routes || CollectionTime(next.collectionRoutes) < CollectionTime(routes.collectionRoutes)
    {
      var localSearch := localSearches[k];
      assert Ready(localSearches[k], areas);
      ghost var moves;
      next, moves := localSearch.SearchLocalMinimum(routes, stepFuel);
      forall j | 0 <= j < |localSearches|
        ensures Ready(localSearches[j], areas)
      {
        if localSearches[j] != localSearch {
          assert old(Ready(localSearches[j], areas));
        }
      }
    }
  }
}
