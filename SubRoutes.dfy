/**
 * Sub-routes of a collection route: the runs of collection areas between two stops that are
 * not areas (the depot or a transfer station). The local searches check the capacity of the
 * sub-route a move touched; the lemmas here relate that check to the capacity of the route.
 */
module SubRoutes {
  import opened Graph
  import opened Routing

  /** Sum of the demands of r[i..j]. */
  function Load(r: seq<Node>, i: nat, j: nat): int
    requires i <= j <= |r|
    decreases j - i
  {
    if i == j then 0 else Load(r, i, j - 1) + Demand(r[j - 1])
  }

  /** The first position at or after i that is not a collection area (|r| if there is none). */
  function RunEnd(r: seq<Node>, i: nat): (e: nat)
    requires i <= |r|
    ensures i <= e <= |r|
    ensures forall k :: i <= k < e ==> IsArea(r[k])
    ensures e < |r| ==> !IsArea(r[e])
    decreases |r| - i
  {
    if i == |r| || !IsArea(r[i]) then i else RunEnd(r, i + 1)
  }

  /** Some position at or before p is not a collection area. */
  ghost predicate StopBefore(r: seq<Node>, p: nat)
  {
    exists j :: 0 <= j <= p && j < |r| && !IsArea(r[j])
  }

  lemma StopBeforeStart(r: seq<Node>, p: nat)
    requires p < |r| && !IsArea(r[0])
    ensures StopBefore(r, p)
  {
  }

  /** The last position at or before p that is not a collection area: where p's sub-route starts. */
  function SubRouteStart(r: seq<Node>, p: nat): (s: nat)
    requires p < |r| && StopBefore(r, p)
    ensures s <= p && !IsArea(r[s])
    ensures forall k :: s < k <= p ==> IsArea(r[k])
    decreases p
  {
    if !IsArea(r[p]) then p
    else
      assert StopBefore(r, p - 1) by {
        var j :| 0 <= j <= p && j < |r| && !IsArea(r[j]);
        assert j < p;
      }
      SubRouteStart(r, p - 1)
  }

  /** Every running load of the run of areas after position s stays within cap. */
  ghost predicate SubRouteFits(r: seq<Node>, s: nat, cap: int)
    requires s < |r|
  {
    RunFits(r, s + 1, cap)
  }

  /** Every running load of the run of areas starting at position i stays within cap. */
  ghost predicate RunFits(r: seq<Node>, i: nat, cap: int)
    requires i <= |r|
  {
    forall n :: i < n <= RunEnd(r, i) ==> Load(r, i, n) <= cap
  }

  /** The start of the sub-route holding currentPosition, walking back over collection areas. */
  method GetStartSubRouteIndex(route: seq<Node>, currentPosition: nat) returns (start: nat)
    requires currentPosition < |route| && StopBefore(route, currentPosition)
    ensures start == SubRouteStart(route, currentPosition)
  {
    start := currentPosition;
    while IsArea(route[start])
      invariant start <= currentPosition && StopBefore(route, start)
      invariant SubRouteStart(route, start) == SubRouteStart(route, currentPosition)
      decreases start
    {
      start := start - 1;
    }
  }

  /**
   * Whether the sub-route holding changedPosition stays within the capacity: the truck's free
   * capacity, reduced by each area of the run in turn, never drops below zero.
   */
  method IsFactibleCapacity(route: seq<Node>, changedPosition: nat, capacity: int) returns (fits: bool)
    requires changedPosition < |route| - 1 && StopBefore(route, changedPosition)
    requires !IsArea(route[|route| - 1])
    ensures fits <==> SubRouteFits(route, SubRouteStart(route, changedPosition), capacity)
  {
    var s := GetStartSubRouteIndex(route, changedPosition);
    var truckCapacity := capacity;
    var position := s + 1;
    ghost var i := s + 1;
    ghost var e := RunEnd(route, i);
    while IsArea(route[position])
      invariant i <= position <= e < |route|
      invariant truckCapacity == capacity - Load(route, i, position)
      invariant forall n :: i < n <= position ==> Load(route, i, n) <= capacity
      decreases |route| - position
    {
      truckCapacity := truckCapacity - Demand(route[position]);
      if truckCapacity < 0 {
        assert Load(route, i, position + 1) > capacity;
        return false;
      }
      position := position + 1;
    }
    fits := true;
  }

  /** Whether the whole route stays within the capacity: the waste on board after each area. */
  method RouteWithinCapacity(route: seq<Node>, capacity: int) returns (fits: bool)
    ensures fits <==> CapacityRespected(route, capacity)
  {
    var waste := 0;
    var i := 0;
    while i < |route|
      invariant 0 <= i <= |route|
      invariant waste == Waste(route[..i])
      invariant forall n :: 1 <= n <= i && IsArea(route[n - 1]) ==> Waste(route[..n]) <= capacity
    {
      assert route[..i + 1][..i] == route[..i];
      if IsTransferStation(route[i]) {
        waste := 0;
      } else {
        waste := waste + Demand(route[i]);
      }
      if IsArea(route[i]) && waste > capacity {
        return false;
      }
      i := i + 1;
    }
    assert route[..i] == route;
    fits := true;
  }

  /** Past a run of areas from i through p, the run ends after p. */
  lemma {:induction false} RunEndBeyond(r: seq<Node>, i: nat, p: nat)
    requires i <= p < |r|
    requires forall k :: i <= k <= p ==> IsArea(r[k])
    ensures p < RunEnd(r, i)
    decreases p - i
  {
    if i < p {
      RunEndBeyond(r, i + 1, p);
    }
  }

  /**
   * In a well-formed route the waste on board inside a sub-route is the load of the sub-route
   * so far: the stop it starts at is the depot, where nothing is on board, or a transfer station,
   * where the truck unloads.
   */
  lemma {:induction false} WasteIsLoad(r: seq<Node>, s: nat, n: nat)
    requires WellFormedRoute(r)
    requires s < |r| - 1 && !IsArea(r[s])
    requires s < n <= RunEnd(r, s + 1)
    ensures Waste(r[..n]) == Load(r, s + 1, n)
    decreases n
  {
    if n == s + 1 {
      if !IsTransferStation(r[s]) {
        assert s == 0;
        assert r[..n] == [r[0]] && [r[0]][..0] == [];
      }
    } else {
      WasteIsLoad(r, s, n - 1);
      assert r[..n][..n - 1] == r[..n - 1];
    }
  }

  /**
   * A well-formed route respects the capacity exactly when the sub-route of every position
   * passes the capacity check: checking the touched sub-routes is checking the route.
   */
  lemma CapacityBySubRoutes(r: seq<Node>, cap: int)
    requires WellFormedRoute(r)
    ensures StopsBefore(r)
    ensures CapacityRespected(r, cap) <==> AllSubRoutesFit(r, cap)
  {
    StopsBeforeWellFormed(r);
    if CapacityRespected(r, cap) {
      CapacityGivesSubRoutes(r, cap);
    }
    if AllSubRoutesFit(r, cap) {
      SubRoutesGiveCapacity(r, cap);
    }
  }

  /** The sub-route of every position before the last passes the capacity check. */
  ghost predicate AllSubRoutesFit(r: seq<Node>, cap: int)
    requires StopsBefore(r)
  {
    forall p :: 0 <= p < |r| - 1 ==> SubRouteFits(r, SubRouteStart(r, p), cap)
  }

  lemma CapacityGivesSubRoutes(r: seq<Node>, cap: int)
    requires WellFormedRoute(r) && StopsBefore(r) && CapacityRespected(r, cap)
    ensures AllSubRoutesFit(r, cap)
  {
    forall p | 0 <= p < |r| - 1
      ensures SubRouteFits(r, SubRouteStart(r, p), cap)
    {
      var s := SubRouteStart(r, p);
      var i := s + 1;
      forall n | i < n <= RunEnd(r, i)
        ensures Load(r, i, n) <= cap
      {
        WasteIsLoad(r, s, n);
        assert IsArea(r[n - 1]);
      }
    }
  }

  lemma SubRoutesGiveCapacity(r: seq<Node>, cap: int)
    requires WellFormedRoute(r) && StopsBefore(r) && AllSubRoutesFit(r, cap)
    ensures CapacityRespected(r, cap)
  {
    forall n | 1 <= n <= |r| && IsArea(r[n - 1])
      ensures Waste(r[..n]) <= cap
    {
      var p := n - 1;
      var s := SubRouteStart(r, p);
      assert SubRouteFits(r, s, cap);
      RunEndBeyond(r, s + 1, p);
      WasteIsLoad(r, s, n);
    }
  }

  /** Every position of r has a stop at or before it. */
  ghost predicate StopsBefore(r: seq<Node>)
  {
    forall p :: 0 <= p < |r| ==> StopBefore(r, p)
  }

  lemma StopsBeforeWellFormed(r: seq<Node>)
    requires WellFormedRoute(r)
    ensures StopsBefore(r)
  {
    forall p | 0 <= p < |r|
      ensures StopBefore(r, p)
    {
      assert !IsArea(r[0]);
    }
  }
}
