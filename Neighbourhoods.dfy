/**
 * What every local search shares: the routes it can work on, the shape of a neighbouring
 * solution (changed routes taken out of the list and appended at its end) and the removal of a
 * stop that has become redundant next to another stop.
 */
module Neighbourhoods {
  import opened Wrappers
  import opened Graph
  import opened Lists
  import opened Routing
  import opened Solutions

  /**
   * A route the local searches work on: it starts and ends at the depot, visits only areas and
   * transfer stations in between, and visits a transfer station (or nothing) just before it
   * returns, so that every sub-route is emptied.
   */
  ghost predicate SearchRoute(r: seq<Node>)
  {
    WellFormedRoute(r) && !IsArea(r[|r| - 2])
  }

  /** Every route of the list is one the local searches work on. */
  ghost predicate Workable(rs: seq<CollectionRoute>)
  {
    forall k :: 0 <= k < |rs| ==> SearchRoute(rs[k].route)
  }

  lemma WorkableRemoveAt(rs: seq<CollectionRoute>, k: nat)
    requires k < |rs| && Workable(rs)
    ensures Workable(RemoveAt(rs, k))
  {
    var r := RemoveAt(rs, k);
    forall i | 0 <= i < |r|
      ensures SearchRoute(r[i].route)
    {
      if i < k { assert r[i] == rs[i]; } else { assert r[i] == rs[i + 1]; }
    }
  }

  lemma WorkableConcat(a: seq<CollectionRoute>, b: seq<CollectionRoute>)
    requires Workable(a) && Workable(b)
    ensures Workable(a + b)
  {
    forall i | 0 <= i < |a + b|
      ensures SearchRoute((a + b)[i].route)
    {
      if i < |a| { assert (a + b)[i] == a[i]; } else { assert (a + b)[i] == b[i - |a|]; }
    }
  }

  /** n serves exactly the areas of routes with workable routes, and carries no transport plan. */
  ghost predicate SoundNeighbour(routes: Routes, n: Routes)
  {
    && Workable(n.collectionRoutes)
    && RoutesAreas(n.collectionRoutes) == RoutesAreas(routes.collectionRoutes)
    && n.transportTrucks == []
  }

  /** Every one of ns is a sound neighbour of routes. */
  ghost predicate AllSound(routes: Routes, ns: seq<Routes>)
  {
    forall i :: 0 <= i < |ns| ==> SoundNeighbour(routes, ns[i])
  }

  lemma AllSoundConcat(routes: Routes, a: seq<Routes>, b: seq<Routes>)
    ensures AllSound(routes, a) && AllSound(routes, b) ==> AllSound(routes, a + b)
  {
    if AllSound(routes, a) && AllSound(routes, b) {
      forall i | 0 <= i < |a + b|
        ensures SoundNeighbour(routes, (a + b)[i])
      {
        if i < |a| { assert (a + b)[i] == a[i]; } else { assert (a + b)[i] == b[i - |a|]; }
      }
    }
  }

  /** Two routes with the same nodes and the same two ends have the same nodes in between. */
  lemma MiddlePermutation(r: seq<Node>, v: seq<Node>)
    requires |r| >= 2 && |v| == |r| && multiset(v) == multiset(r)
    requires v[0] == r[0] && v[|v| - 1] == r[|r| - 1]
    ensures multiset(v[1..|v| - 1]) == multiset(r[1..|r| - 1])
  {
    var n := |r|;
    var mr, mv := r[1..n - 1], v[1..n - 1];
    var ends := multiset{r[0], r[n - 1]};
    assert r == [r[0]] + mr + [r[n - 1]];
    assert v == [r[0]] + mv + [r[n - 1]];
    calc {
      multiset(mv);
      multiset(v) - ends;
      multiset(r) - ends;
      multiset(mr);
    }
  }

  /**
   * A route list whose nodes are those of a workable route, in another order, with the same
   * two ends and a stop just before the depot, is workable and serves the same areas.
   */
  lemma PermutedSearchRoute(r: seq<Node>, v: seq<Node>)
    requires SearchRoute(r) && |v| == |r| && multiset(v) == multiset(r)
    requires v[0] == r[0] && v[|v| - 1] == r[|r| - 1] && !IsArea(v[|v| - 2])
    ensures SearchRoute(v) && Areas(v) == Areas(r)
  {
    AreasPermutation(v, r);
    MiddlePermutation(r, v);
    var n := |r|;
    var mr, mv := r[1..n - 1], v[1..n - 1];
    forall i | 0 < i < n - 1
      ensures IsArea(v[i]) || IsTransferStation(v[i])
    {
      assert v[i] == mv[i - 1];
      assert v[i] in multiset(mr);
      var j :| 0 <= j < n - 2 && mr[j] == v[i];
      assert r[j + 1] == v[i];
    }
  }

  /** The capacity walk over r starts and stops at a node that is not an area. */
  predicate EndsAtStops(r: seq<Node>)
  {
    |r| >= 2 && !IsArea(r[0]) && !IsArea(r[|r| - 1])
  }

  /** The pieces f(0), ..., f(n - 1), one after the other: what a scan over 0 .. n - 1 records. */
  ghost function Gather(f: nat -> seq<Routes>, n: nat): seq<Routes>
  {
    if n == 0 then [] else Gather(f, n - 1) + f(n - 1)
  }

  /** A scan one index on: what it gathered, then what it records at that index; soundness carries over. */
  lemma GatherNext(routes: Routes, f: nat -> seq<Routes>, n: nat, gathered: seq<Routes>, added: seq<Routes>)
    requires gathered == Gather(f, n) && AllSound(routes, gathered)
    requires added == f(n) && AllSound(routes, added)
    ensures gathered + added == Gather(f, n + 1) && AllSound(routes, gathered + added)
  {
    AllSoundConcat(routes, gathered, added);
  }

  /** Whatever the scan records at a scanned index is in what it gathers. */
  lemma {:induction false} GatherComplete(f: nat -> seq<Routes>, n: nat, k: nat, x: Routes)
    requires k < n && x in f(k)
    ensures x in Gather(f, n)
    decreases n
  {
    if k < n - 1 {
      GatherComplete(f, n - 1, k, x);
    }
  }

  /** A scan that records nothing below n gathers nothing. */
  lemma {:induction false} GatherNone(f: nat -> seq<Routes>, n: nat)
    requires forall q: nat :: q < n ==> f(q) == []
    ensures Gather(f, n) == []
    decreases n
  {
    if n > 0 {
      GatherNone(f, n - 1);
    }
  }

  /** Indices from n up to N that record nothing add nothing to what is gathered. */
  lemma {:induction false} GatherSkip(f: nat -> seq<Routes>, n: nat, bound: nat)
    requires n <= bound
    requires forall q: nat :: n <= q < bound ==> f(q) == []
    ensures Gather(f, bound) == Gather(f, n)
    decreases bound
  {
    if n < bound {
      GatherSkip(f, n, bound - 1);
    }
  }

  /** Every route of the list has at least its two ends. */
  predicate Spanned(rs: seq<CollectionRoute>)
  {
    forall k :: 0 <= k < |rs| ==> |rs[k].route| >= 2
  }

  lemma SearchRouteEndsAtStops(r: seq<Node>)
    requires SearchRoute(r)
    ensures EndsAtStops(r)
  {
  }

  /** The route list with route k replaced by x, appended at the end. */
  function ReplaceRoute(rs: seq<CollectionRoute>, k: nat, x: CollectionRoute): (r: seq<CollectionRoute>)
    requires k < |rs|
    ensures |r| == |rs|
  {
    RemoveAt(rs, k) + [x]
  }

  /**
   * Replacing a workable route by a workable route that serves the same areas keeps the list
   * workable and serving the same areas; its total time changes by the change of that route.
   */
  lemma ReplaceRouteSound(routes: Routes, k: nat, x: CollectionRoute)
    requires k < |routes.collectionRoutes| && Workable(routes.collectionRoutes)
    requires SearchRoute(x.route) && Areas(x.route) == Areas(routes.collectionRoutes[k].route)
    ensures Workable(ReplaceRoute(routes.collectionRoutes, k, x))
    ensures RoutesAreas(ReplaceRoute(routes.collectionRoutes, k, x)) == RoutesAreas(routes.collectionRoutes)
    ensures CollectionTime(ReplaceRoute(routes.collectionRoutes, k, x))
      == CollectionTime(routes.collectionRoutes) - routes.collectionRoutes[k].routeTime + x.routeTime
  {
    var rs := routes.collectionRoutes;
    var rest := RemoveAt(rs, k);
    RoutesAreasRemoveAt(rs, k);
    RoutesAreasAppend(rest, x);
    CollectionTimeRemoveAt(rs, k);
    CollectionTimeAppend(rest, x);
    WorkableRemoveAt(rs, k);
    assert Workable([x]);
    WorkableConcat(rest, [x]);
  }

  /** What the search records for a move on route k: nothing, or the solution with the new route. */
  function Recorded(routes: Routes, k: nat, n: Option<CollectionRoute>): seq<Routes>
    requires k < |routes.collectionRoutes|
  {
    match n
    case None => []
    case Some(x) => [Routes(ReplaceRoute(routes.collectionRoutes, k, x), [])]
  }

  /** What is recorded for a workable route serving the areas of route k of a workable list is sound. */
  lemma RecordedSound(routes: Routes, k: nat, n: Option<CollectionRoute>)
    requires k < |routes.collectionRoutes| && Workable(routes.collectionRoutes)
    requires n.Some? ==> SearchRoute(n.value.route) && Areas(n.value.route) == Areas(routes.collectionRoutes[k].route)
    ensures AllSound(routes, Recorded(routes, k, n))
  {
    if n.Some? {
      ReplaceRouteSound(routes, k, n.value);
    }
  }

  /** The route list with routes i and j (i != j) taken out and xs appended at the end. */
  function ReplacePair(rs: seq<CollectionRoute>, i: nat, j: nat, xs: seq<CollectionRoute>): (r: seq<CollectionRoute>)
    requires i < |rs| && j < |rs| && i != j
    ensures |r| == |rs| - 2 + |xs|
  {
    var hi, lo := if i < j then j else i, if i < j then i else j;
    RemoveAt(RemoveAt(rs, hi), lo) + xs
  }

  /**
   * Replacing two workable routes by workable routes serving the same areas between them keeps
   * the list workable and serving the same areas; its total time changes by the change of those
   * routes.
   */
  lemma ReplacePairSound(routes: Routes, i: nat, j: nat, xs: seq<CollectionRoute>)
    requires i < |routes.collectionRoutes| && j < |routes.collectionRoutes| && i != j
    requires Workable(routes.collectionRoutes) && Workable(xs)
    requires RoutesAreas(xs) == Areas(routes.collectionRoutes[i].route) + Areas(routes.collectionRoutes[j].route)
    ensures Workable(ReplacePair(routes.collectionRoutes, i, j, xs))
    ensures RoutesAreas(ReplacePair(routes.collectionRoutes, i, j, xs)) == RoutesAreas(routes.collectionRoutes)
    ensures CollectionTime(ReplacePair(routes.collectionRoutes, i, j, xs))
      == CollectionTime(routes.collectionRoutes) - routes.collectionRoutes[i].routeTime
         - routes.collectionRoutes[j].routeTime + CollectionTime(xs)
  {
    var rs := routes.collectionRoutes;
    var hi, lo := if i < j then j else i, if i < j then i else j;
    var rest := RemoveAt(RemoveAt(rs, hi), lo);
    assert ReplacePair(rs, i, j, xs) == rest + xs;
    assert Workable(rest + xs) by {
      RemovePairWorkable(rs, hi, lo);
      WorkableConcat(rest, xs);
    }
    assert RoutesAreas(rest + xs) == RoutesAreas(rs) by {
      RemovePairTotals(rs, hi, lo);
      RoutesAreasConcat(rest, xs);
      assert Areas(rs[hi].route) + Areas(rs[lo].route) == RoutesAreas(xs);
    }
    assert CollectionTime(rest + xs) == CollectionTime(rs) - rs[i].routeTime - rs[j].routeTime + CollectionTime(xs) by {
      RemovePairTotals(rs, hi, lo);
      CollectionTimeConcat(rest, xs);
    }
  }

  lemma RemovePairWorkable(rs: seq<CollectionRoute>, hi: nat, lo: nat)
    requires lo < hi < |rs| && Workable(rs)
    ensures Workable(RemoveAt(RemoveAt(rs, hi), lo))
  {
    WorkableRemoveAt(rs, hi);
    WorkableRemoveAt(RemoveAt(rs, hi), lo);
  }

  /** Taking routes hi and then lo < hi out of a list takes out their areas and times. */
  lemma RemovePairTotals(rs: seq<CollectionRoute>, hi: nat, lo: nat)
    requires lo < hi < |rs|
    ensures RoutesAreas(rs) == RoutesAreas(RemoveAt(RemoveAt(rs, hi), lo)) + (Areas(rs[hi].route) + Areas(rs[lo].route))
    ensures CollectionTime(RemoveAt(RemoveAt(rs, hi), lo)) == CollectionTime(rs) - rs[hi].routeTime - rs[lo].routeTime
  {
    var once := RemoveAt(rs, hi);
    assert once[lo] == rs[lo];
    RoutesAreasRemoveAt(rs, hi);
    RoutesAreasRemoveAt(once, lo);
    CollectionTimeRemoveAt(rs, hi);
    CollectionTimeRemoveAt(once, lo);
  }

  /** Two routes serve the areas of both; two workable routes make a workable list. */
  lemma TwoRoutes(a: CollectionRoute, b: CollectionRoute)
    ensures RoutesAreas([a, b]) == Areas(a.route) + Areas(b.route)
    ensures SearchRoute(a.route) && SearchRoute(b.route) ==> Workable([a, b])
  {
    assert [a, b] == [a] + [b] && [a] == [] + [a];
    RoutesAreasAppend([a], b);
    RoutesAreasAppend([], a);
  }

  /** Drops the stop at k and corrects the time by the three edges involved. */
  function DropStop(m: Metric, t: Truck, r: seq<Node>, k: nat, time: real): (seq<Node>, real)
    requires 1 <= k <= |r| - 2
  {
    (RemoveAt(r, k),
     time - TravelTime(m, t, r[k - 1], r[k]) - TravelTime(m, t, r[k], r[k + 1])
          + TravelTime(m, t, r[k - 1], r[k + 1]))
  }

  /**
   * Dropping a stop that directly follows another stop serves the same areas, changes the time
   * by exactly the change in cost, keeps a workable route workable, and with distances obeying
   * the triangle inequality never lengthens the route.
   */
  lemma DropStopSound(m: Metric, t: Truck, r: seq<Node>, k: nat, time: real)
    requires 1 <= k <= |r| - 2 && !IsArea(r[k]) && !IsArea(r[k - 1])
    ensures Areas(DropStop(m, t, r, k, time).0) == Areas(r)
    ensures DropStop(m, t, r, k, time).1 - time == RouteCost(m, t, DropStop(m, t, r, k, time).0) - RouteCost(m, t, r)
    ensures SearchRoute(r) ==> SearchRoute(DropStop(m, t, r, k, time).0)
    ensures TriangleInequality(m) ==> DropStop(m, t, r, k, time).1 <= time
  {
    TravelRemoveAt(m, t, r, k);
    AreasRemoveNonArea(r, k);
    if TriangleInequality(m) {
      TravelTimeTriangle(m, t, r[k - 1], r[k], r[k + 1]);
    }
  }

  /**
   * Dropping a transfer station that directly follows another stop leaves the waste on board
   * after every later node unchanged: the truck arrives there empty either way.
   */
  lemma {:induction false} WasteAfterDrop(r: seq<Node>, k: nat, n: nat)
    requires WellFormedRoute(r) && 1 <= k <= |r| - 2 && !IsArea(r[k]) && !IsArea(r[k - 1])
    requires k <= n <= |r| - 1
    ensures Waste(RemoveAt(r, k)[..n]) == Waste(r[..n + 1])
    decreases n
  {
    var s := RemoveAt(r, k);
    if n == k {
      WasteAtDrop(r, k);
    } else {
      WasteAfterDrop(r, k, n - 1);
      assert s[n - 1] == r[n];
      WastePrefix(s, n - 1);
      WastePrefix(r, n);
      calc {
        Waste(s[..n]);
        if IsTransferStation(r[n]) then 0 else Waste(s[..n - 1]) + Demand(r[n]);
        if IsTransferStation(r[n]) then 0 else Waste(r[..n]) + Demand(r[n]);
        Waste(r[..n + 1]);
      }
    }
  }

  /** The truck is empty on reaching the dropped station, and on reaching the node before it once it is dropped. */
  lemma WasteAtDrop(r: seq<Node>, k: nat)
    requires WellFormedRoute(r) && 1 <= k <= |r| - 2 && !IsArea(r[k]) && !IsArea(r[k - 1])
    ensures Waste(RemoveAt(r, k)[..k]) == 0 && Waste(r[..k + 1]) == 0
  {
    assert RemoveAt(r, k)[..k] == r[..k];
    assert IsTransferStation(r[k]);
    WastePrefix(r, k);
    WastePrefix(r, k - 1);
    if !IsTransferStation(r[k - 1]) {
      assert r[..k - 1] == [];
    }
  }

  /** Dropping a stop that directly follows another stop keeps a route within the capacity. */
  lemma DropStopCapacity(m: Metric, t: Truck, r: seq<Node>, k: nat, time: real, cap: int)
    requires WellFormedRoute(r) && 1 <= k <= |r| - 2 && !IsArea(r[k]) && !IsArea(r[k - 1])
    requires CapacityRespected(r, cap)
    ensures CapacityRespected(DropStop(m, t, r, k, time).0, cap)
  {
    var s := RemoveAt(r, k);
    forall n | 1 <= n <= |s| && IsArea(s[n - 1])
      ensures Waste(s[..n]) <= cap
    {
      if n <= k {
        assert s[..n] == r[..n];
      } else {
        WasteAfterDrop(r, k, n);
      }
    }
  }
}
