/**
 * Random variable neighbourhood descent: draw an untried operator at random, run its descent
 * from the best solution so far, and on a strict improvement adopt the result and make every
 * operator but the one just drawn available again; stop when no operator is left to try.
 */
module RvndSearch {
  import opened Graph
  import opened Lists
  import opened Randomness
  import opened Routing
  import opened Solutions
  import opened Neighbourhoods
  import opened LocalSearches
  import opened LocalSearchPool

  class Rvnd {
    const localSearches: LocalSearchesList

    constructor (localSearches: LocalSearchesList)
      ensures this.localSearches == localSearches
    {
      this.localSearches := localSearches;
    }

    /**
     * What holds between two rounds of a descent that started from initialRoutes with the
     * active operators start, drew the operators drawn so far and is at bestRoutes: the pool
     * still holds the operators ops, all ready; bestRoutes serves the areas with workable routes;
     * until an improvement was adopted it is the start and the operators drawn are exactly the
     * ones no longer active, and after one it is strictly faster than the start.
     */
    ghost predicate Between(ops: seq<LocalSearch>, areas: multiset<Node>, initialRoutes: Routes, start: seq<LocalSearch>,
                            bestRoutes: Routes, improvedOnce: bool, drawn: seq<LocalSearch>)
      reads localSearches, ops
    {
      && localSearches.Pool() == multiset(ops) && AllReady(ops, areas)
      && Workable(bestRoutes.collectionRoutes) && RoutesAreas(bestRoutes.collectionRoutes) == areas
      && (!improvedOnce ==> bestRoutes == initialRoutes)
      && (!improvedOnce ==> multiset(localSearches.activeSearches) + multiset(drawn) == multiset(start))
      && (improvedOnce ==> CollectionTime(bestRoutes.collectionRoutes) < CollectionTime(initialRoutes.collectionRoutes))
    }

    /**
     * Draws an active operator at random: it is ready, and what held between the rounds still
     * holds with it counted as drawn, since it is no longer active.
     */
    method Draw(ghost ops: seq<LocalSearch>, ghost areas: multiset<Node>, ghost initialRoutes: Routes,
                ghost start: seq<LocalSearch>, ghost bestRoutes: Routes, ghost improvedOnce: bool,
                ghost drawn: seq<LocalSearch>)
      returns (localSearch: LocalSearch)
      requires localSearches.activeSearches != []
      requires Between(ops, areas, initialRoutes, start, bestRoutes, improvedOnce, drawn)
      modifies localSearches, localSearches.rng
      ensures Between(ops, areas, initialRoutes, start, bestRoutes, improvedOnce, drawn + [localSearch])
      ensures localSearch in ops && Ready(localSearch, areas)
      ensures |localSearches.activeSearches| == |old(localSearches.activeSearches)| - 1
    {
      localSearch := localSearches.GetRandomSearch();
      assert localSearch in multiset(ops);
      ghost var k :| 0 <= k < |ops| && ops[k] == localSearch;
      assert Ready(ops[k], areas);
      assert multiset(drawn + [localSearch]) == multiset(drawn) + multiset{localSearch};
    }

    /**
     * Draws an active operator at random and runs its descent from bestRoutes: the neighbour
     * found serves the same areas with workable routes, and what held between the rounds still
     * holds with the operator drawn counted as drawn.
     */
    method DrawAndDescend(ghost ops: seq<LocalSearch>, ghost areas: multiset<Node>, ghost initialRoutes: Routes,
                          ghost start: seq<LocalSearch>, bestRoutes: Routes, ghost improvedOnce: bool,
                          ghost drawn: seq<LocalSearch>, stepFuel: nat)
      returns (localSearch: LocalSearch, bestNeighbour: Routes)
      requires localSearches.activeSearches != []
      requires Between(ops, areas, initialRoutes, start, bestRoutes, improvedOnce, drawn)
      modifies localSearches, localSearches.rng, ops
      ensures Between(ops, areas, initialRoutes, start, bestRoutes, improvedOnce, drawn + [localSearch])
      ensures Workable(bestNeighbour.collectionRoutes) && RoutesAreas(bestNeighbour.collectionRoutes) == areas
      ensures |localSearches.activeSearches| == |old(localSearches.activeSearches)| - 1
    {
      localSearch := Draw(ops, areas, initialRoutes, start, bestRoutes, improvedOnce, drawn);
      ghost var moves;
      bestNeighbour, moves := localSearch.SearchLocalMinimum(bestRoutes, stepFuel);
      forall j | 0 <= j < |ops|
        ensures Ready(ops[j], areas)
      {
        if ops[j] != localSearch {
          assert old(Ready(ops[j], areas));
        }
      }
    }

    /**
     * One round: draw an active operator, run its descent from bestRoutes and adopt the result
     * if it is strictly faster, in which case the pool is reset. An adopted result counts as an
     * improvement; otherwise the operator drawn is no longer active.
     */
    method Round(ghost ops: seq<LocalSearch>, ghost areas: multiset<Node>, ghost initialRoutes: Routes,
                 ghost start: seq<LocalSearch>, bestRoutes: Routes, ghost improvedOnce: bool,
                 ghost drawn: seq<LocalSearch>, stepFuel: nat)
      returns (improved: bool, next: Routes, ghost localSearch: LocalSearch)
      requires localSearches.activeSearches != []
      requires Between(ops, areas, initialRoutes, start, bestRoutes, improvedOnce, drawn)
      modifies localSearches, localSearches.rng, ops
      ensures Between(ops, areas, initialRoutes, start, next, improvedOnce || improved, drawn + [localSearch])
      ensures improved ==> CollectionTime(next.collectionRoutes) < CollectionTime(bestRoutes.collectionRoutes)
      ensures !improved ==> next == bestRoutes
      ensures !improved ==> |localSearches.activeSearches| == |old(localSearches.activeSearches)| - 1
    {
      var drawnSearch, bestNeighbour := DrawAndDescend(ops, areas, initialRoutes, start, bestRoutes, improvedOnce, drawn, stepFuel);
      localSearch := drawnSearch;
      var bestTime := GetCollectionTime(bestRoutes);
      var neighbourTime := GetCollectionTime(bestNeighbour);
      improved := bestTime > neighbourTime;
      if improved {
        next := bestNeighbour;
        localSearches.Reset();
      } else {
        next := bestRoutes;
      }
    }

    /**
     * One pass of the descent's loop: a round, then the count of improvements still allowed,
     * then whether any operator is still active. Either the fuel ran out on an improvement, or
     * fewer improvements are left, or as many and fewer operators are active.
     */
    method Step(ghost ops: seq<LocalSearch>, ghost areas: multiset<Node>, ghost initialRoutes: Routes,
                ghost start: seq<LocalSearch>, bestRoutes: Routes, ghost improvedOnce: bool,
                ghost drawn: seq<LocalSearch>, steps: nat, stepFuel: nat)
      returns (improved: bool, next: Routes, ghost localSearch: LocalSearch, left: nat, exhausted: bool, empty: bool)
      requires localSearches.activeSearches != []
      requires Between(ops, areas, initialRoutes, start, bestRoutes, improvedOnce, drawn)
      modifies localSearches, localSearches.rng, ops
      ensures Between(ops, areas, initialRoutes, start, next, improvedOnce || improved, drawn + [localSearch])
      ensures empty <==> localSearches.activeSearches == []
      ensures exhausted ==> improved
      ensures exhausted || left < steps || (left == steps && |localSearches.activeSearches| < |old(localSearches.activeSearches)|)
    {
      improved, next, localSearch := Round(ops, areas, initialRoutes, start, bestRoutes, improvedOnce, drawn, stepFuel);
      left := steps;
      exhausted := false;
      if improved {
        if steps == 0 {
          exhausted := true;
        } else {
          left := steps - 1;
        }
      }
      empty := localSearches.IsEmpty();
    }

    /**
     * The descent. The result is the start or strictly faster and serves the same areas with
     * workable routes; afterwards every operator of the pool is active again and still ready.
     * When nothing improves, drawn (the operators in the order they were drawn) holds every
     * operator that was active at the start, each once. At most fuel + 1 improvements are
     * adopted, and each operator's own descent gets stepFuel.
     */
    method Search(initialRoutes: Routes, fuel: nat, stepFuel: nat) returns (bestRoutes: Routes, ghost drawn: seq<LocalSearch>)
      requires AllReady(localSearches.activeSearches + localSearches.inactiveSearches, RoutesAreas(initialRoutes.collectionRoutes))
      requires Workable(initialRoutes.collectionRoutes)
      modifies localSearches, localSearches.rng, localSearches.activeSearches, localSearches.inactiveSearches
      ensures AllReady(old(localSearches.activeSearches + localSearches.inactiveSearches), RoutesAreas(initialRoutes.collectionRoutes))
      ensures localSearches.inactiveSearches == [] && localSearches.Pool() == old(localSearches.Pool())
      ensures Workable(bestRoutes.collectionRoutes)
      ensures RoutesAreas(bestRoutes.collectionRoutes) == RoutesAreas(initialRoutes.collectionRoutes)
      ensures bestRoutes == initialRoutes
           || CollectionTime(bestRoutes.collectionRoutes) < CollectionTime(initialRoutes.collectionRoutes)
      ensures bestRoutes == initialRoutes ==> multiset(drawn) == multiset(old(localSearches.activeSearches))
    {
      ghost var areas := RoutesAreas(initialRoutes.collectionRoutes);
      ghost var ops := localSearches.activeSearches + localSearches.inactiveSearches;
      ghost var start := localSearches.activeSearches;
      ghost var improvedOnce := false;
      bestRoutes := initialRoutes;
      drawn := [];
      var steps := fuel;
      var exhausted := false;
      var empty := localSearches.IsEmpty();
      while !empty && !exhausted
        invariant empty <==> localSearches.activeSearches == []
        invariant Between(ops, areas, initialRoutes, start, bestRoutes, improvedOnce, drawn)
        invariant exhausted ==> improvedOnce
        decreases if exhausted then 0 else 1, steps, |localSearches.activeSearches|
      {
        var improved, next;
        ghost var localSearch;
        improved, next, localSearch, steps, exhausted, empty :=
          Step(ops, areas, initialRoutes, start, bestRoutes, improvedOnce, drawn, steps, stepFuel);
        drawn := drawn + [localSearch];
        bestRoutes := next;
        improvedOnce := improvedOnce || improved;
      }
      Finish(ops, areas, initialRoutes, start, bestRoutes, improvedOnce, drawn);
    }

    /**
     * The end of the descent: every operator is made active again. The pool is unchanged and
     * still ready, and the result is the start, with every operator active at the start drawn,
     * or strictly faster.
     */
    method Finish(ghost ops: seq<LocalSearch>, ghost areas: multiset<Node>, ghost initialRoutes: Routes,
                  ghost start: seq<LocalSearch>, ghost bestRoutes: Routes, ghost improvedOnce: bool,
                  ghost drawn: seq<LocalSearch>)
      requires Between(ops, areas, initialRoutes, start, bestRoutes, improvedOnce, drawn)
      requires !improvedOnce ==> localSearches.activeSearches == []
      modifies localSearches
      ensures localSearches.inactiveSearches == [] && localSearches.Pool() == multiset(ops)
      ensures AllReady(ops, areas)
      ensures Workable(bestRoutes.collectionRoutes) && RoutesAreas(bestRoutes.collectionRoutes) == areas
      ensures bestRoutes == initialRoutes
           || CollectionTime(bestRoutes.collectionRoutes) < CollectionTime(initialRoutes.collectionRoutes)
      ensures bestRoutes == initialRoutes ==> multiset(drawn) == multiset(start)
    {
      localSearches.ResetAll();
    }
  }
}
