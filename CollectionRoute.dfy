/**
 * A collection route: the sequence of nodes a collection vehicle visits (depot, areas,
 * transfer stations, depot), the positions of its transfer-station visits and the route
 * time the engine stores with it. The cost functions here are the reference the cached
 * route times and the local-search time updates are measured against.
 */
module Routing {
  import opened Graph
  import opened Lists

  /**
   * The stored route. The engine keeps the route time it computed while building the route;
   * it is read, never recomputed. subRoutes holds positions of transfer stations in the route.
   */
  datatype CollectionRoute = CollectionRoute(route: seq<Node>, subRoutes: seq<int>, routeTime: real)

  /** Driving minutes along consecutive nodes of r. */
  function Travel(m: Metric, t: Truck, r: seq<Node>): real
    decreases |r|
  {
    if |r| < 2 then 0.0 else TravelTime(m, t, r[0], r[1]) + Travel(m, t, r[1..])
  }

  /** Service minutes of the collection areas of r. */
  function Processing(r: seq<Node>): real
    decreases |r|
  {
    if r == [] then 0.0 else ProcessingTime(r[0]) + Processing(r[1..])
  }

  /** Driving plus service minutes of a route: what a route's time measures. */
  function RouteCost(m: Metric, t: Truck, r: seq<Node>): real
  {
    Travel(m, t, r) + Processing(r)
  }

  /**
   * A route as every route of the engine looks: at least two nodes, a depot at both ends,
   * and only collection areas and transfer stations in between.
   */
  predicate WellFormedRoute(r: seq<Node>)
  {
    && |r| >= 2
    && IsDepot(r[0])
    && IsDepot(r[|r| - 1])
    && forall k :: 0 < k < |r| - 1 ==> IsArea(r[k]) || IsTransferStation(r[k])
  }

  /** The collection areas of r, in visiting order. */
  function AreaNodes(r: seq<Node>): (a: seq<Node>)
    ensures |a| <= |r|
    ensures forall k :: 0 <= k < |a| ==> IsArea(a[k])
    decreases |r|
  {
    if r == [] then [] else (if IsArea(r[0]) then [r[0]] else []) + AreaNodes(r[1..])
  }

  /** The collection areas of r, counted with multiplicity. */
  function Areas(r: seq<Node>): multiset<Node>
  {
    multiset(AreaNodes(r))
  }

  lemma {:induction false} TravelConcat(m: Metric, t: Truck, a: seq<Node>, b: seq<Node>)
    requires |a| >= 1 && |b| >= 1
    ensures Travel(m, t, a + b) == Travel(m, t, a) + TravelTime(m, t, a[|a| - 1], b[0]) + Travel(m, t, b)
    decreases |a|
  {
    if |a| == 1 {
      assert (a + b)[1..] == b;
    } else {
      assert (a + b)[1..] == a[1..] + b;
      TravelConcat(m, t, a[1..], b);
    }
  }

  lemma {:induction false} ProcessingConcat(a: seq<Node>, b: seq<Node>)
    ensures Processing(a + b) == Processing(a) + Processing(b)
    decreases |a|
  {
    if a == [] {
      assert a + b == b;
    } else {
      assert (a + b)[1..] == a[1..] + b;
      ProcessingConcat(a[1..], b);
    }
  }

  /** Dropping the node at k replaces its two edges by the edge between its neighbours. */
  lemma TravelRemoveAt(m: Metric, t: Truck, r: seq<Node>, k: nat)
    requires 1 <= k <= |r| - 2
    ensures Travel(m, t, RemoveAt(r, k)) == Travel(m, t, r)
      - TravelTime(m, t, r[k - 1], r[k]) - TravelTime(m, t, r[k], r[k + 1])
      + TravelTime(m, t, r[k - 1], r[k + 1])
    ensures Processing(RemoveAt(r, k)) == Processing(r) - ProcessingTime(r[k])
  {
    var a, b := r[..k], r[k + 1..];
    assert r == a + ([r[k]] + b);
    TravelConcat(m, t, a, [r[k]] + b);
    TravelConcat(m, t, [r[k]], b);
    TravelConcat(m, t, a, b);
    ProcessingConcat(a, [r[k]] + b);
    ProcessingConcat([r[k]], b);
    ProcessingConcat(a, b);
  }

  /** Placing x at k (between positions k - 1 and k) replaces one edge by two. */
  lemma TravelInsert(m: Metric, t: Truck, s: seq<Node>, k: nat, x: Node)
    requires 1 <= k <= |s| - 1
    ensures Travel(m, t, Insert(s, k, x)) == Travel(m, t, s)
      - TravelTime(m, t, s[k - 1], s[k]) + TravelTime(m, t, s[k - 1], x) + TravelTime(m, t, x, s[k])
    ensures Processing(Insert(s, k, x)) == Processing(s) + ProcessingTime(x)
  {
    var a, b := s[..k], s[k..];
    assert s == a + b;
    assert Insert(s, k, x) == a + ([x] + b);
    TravelConcat(m, t, a, [x] + b);
    TravelConcat(m, t, [x], b);
    TravelConcat(m, t, a, b);
    ProcessingConcat(a, [x] + b);
    ProcessingConcat([x], b);
    ProcessingConcat(a, b);
  }

  /** Replacing the node at k by y changes exactly the two edges at k. */
  lemma TravelReplace(m: Metric, t: Truck, r: seq<Node>, k: nat, y: Node)
    requires 1 <= k <= |r| - 2
    ensures Travel(m, t, r[k := y]) == Travel(m, t, r)
      - TravelTime(m, t, r[k - 1], r[k]) - TravelTime(m, t, r[k], r[k + 1])
      + TravelTime(m, t, r[k - 1], y) + TravelTime(m, t, y, r[k + 1])
    ensures Processing(r[k := y]) == Processing(r) - ProcessingTime(r[k]) + ProcessingTime(y)
  {
    var a, b := r[..k], r[k + 1..];
    assert r == a + ([r[k]] + b);
    assert r[k := y] == a + ([y] + b);
    TravelConcat(m, t, a, [r[k]] + b);
    TravelConcat(m, t, [r[k]], b);
    TravelConcat(m, t, a, [y] + b);
    TravelConcat(m, t, [y], b);
    ProcessingConcat(a, [r[k]] + b);
    ProcessingConcat([r[k]], b);
    ProcessingConcat(a, [y] + b);
    ProcessingConcat([y], b);
  }

  /** With a symmetric distance a path costs the same in both directions. */
  lemma {:induction false} TravelReversed(m: Metric, t: Truck, s: seq<Node>)
    requires Symmetric(m)
    ensures Travel(m, t, Reversed(s)) == Travel(m, t, s)
    ensures Processing(Reversed(s)) == Processing(s)
    decreases |s|
  {
    if |s| >= 2 {
      TravelReversed(m, t, s[1..]);
      TravelConcat(m, t, Reversed(s[1..]), [s[0]]);
      ProcessingConcat(Reversed(s[1..]), [s[0]]);
      TravelTimeSymmetric(m, t, s[1], s[0]);
    } else if |s| == 1 {
      assert Reversed(s) == s;
    }
  }

  /**
   * Reversing positions lo..hi (0 < lo <= hi < |r| - 1) changes only the two edges at the
   * ends of the reversed stretch.
   */
  lemma TravelReverseRange(m: Metric, t: Truck, r: seq<Node>, lo: nat, hi: nat)
    requires Symmetric(m)
    requires 1 <= lo <= hi <= |r| - 2
    ensures Travel(m, t, ReverseRange(r, lo, hi - lo + 1)) == Travel(m, t, r)
      - TravelTime(m, t, r[lo - 1], r[lo]) - TravelTime(m, t, r[hi], r[hi + 1])
      + TravelTime(m, t, r[lo - 1], r[hi]) + TravelTime(m, t, r[lo], r[hi + 1])
    ensures Processing(ReverseRange(r, lo, hi - lo + 1)) == Processing(r)
  {
    var a, s, b := r[..lo], r[lo..hi + 1], r[hi + 1..];
    var rs := Reversed(s);
    assert r == a + (s + b);
    assert ReverseRange(r, lo, hi - lo + 1) == a + (rs + b);
    TravelConcat(m, t, a, s + b);
    TravelConcat(m, t, s, b);
    TravelConcat(m, t, a, rs + b);
    TravelConcat(m, t, rs, b);
    TravelReversed(m, t, s);
    ProcessingConcat(a, s + b);
    ProcessingConcat(s, b);
    ProcessingConcat(a, rs + b);
    ProcessingConcat(rs, b);
  }

  lemma {:induction false} AreaNodesConcat(a: seq<Node>, b: seq<Node>)
    ensures AreaNodes(a + b) == AreaNodes(a) + AreaNodes(b)
    decreases |a|
  {
    if a == [] {
      assert a + b == b;
    } else {
      assert (a + b)[1..] == a[1..] + b;
      AreaNodesConcat(a[1..], b);
    }
  }

  /** How often x occurs among the areas of r: as often as in r if x is an area, else never. */
  lemma {:induction false} AreasCount(r: seq<Node>, x: Node)
    ensures Areas(r)[x] == if IsArea(x) then multiset(r)[x] else 0
    decreases |r|
  {
    if r != [] {
      AreasCount(r[1..], x);
      assert r == [r[0]] + r[1..];
      AreaNodesConcat([r[0]], r[1..]);
    }
  }

  /** Rearranging a route's nodes keeps its areas. */
  lemma AreasPermutation(r: seq<Node>, s: seq<Node>)
    requires multiset(r) == multiset(s)
    ensures Areas(r) == Areas(s)
  {
    forall x: Node
      ensures Areas(r)[x] == Areas(s)[x]
    {
      AreasCount(r, x);
      AreasCount(s, x);
    }
  }

  /** Dropping a node that is not an area keeps the route's areas. */
  lemma AreasRemoveNonArea(r: seq<Node>, k: nat)
    requires k < |r| && !IsArea(r[k])
    ensures Areas(RemoveAt(r, k)) == Areas(r)
  {
    assert r == r[..k] + ([r[k]] + r[k + 1..]);
    AreaNodesConcat(r[..k], [r[k]] + r[k + 1..]);
    AreaNodesConcat([r[k]], r[k + 1..]);
    AreaNodesConcat(r[..k], r[k + 1..]);
  }

  /** Dropping an area removes exactly that area. */
  lemma AreasRemoveArea(r: seq<Node>, k: nat)
    requires k < |r| && IsArea(r[k])
    ensures Areas(RemoveAt(r, k)) == Areas(r) - multiset{r[k]}
  {
    assert r == r[..k] + ([r[k]] + r[k + 1..]);
    AreaNodesConcat(r[..k], [r[k]] + r[k + 1..]);
    AreaNodesConcat([r[k]], r[k + 1..]);
    AreaNodesConcat(r[..k], r[k + 1..]);
  }

  /** Inserting an area adds exactly that area. */
  lemma AreasInsertArea(s: seq<Node>, k: nat, x: Node)
    requires k <= |s| && IsArea(x)
    ensures Areas(Insert(s, k, x)) == Areas(s) + multiset{x}
  {
    assert s == s[..k] + s[k..];
    assert Insert(s, k, x) == s[..k] + ([x] + s[k..]);
    AreaNodesConcat(s[..k], [x] + s[k..]);
    AreaNodesConcat([x], s[k..]);
    AreaNodesConcat(s[..k], s[k..]);
  }

  /** The waste on board after the nodes of p: the demands collected since the last transfer station. */
  function Waste(p: seq<Node>): int
    decreases |p|
  {
    if p == [] then 0
    else if IsTransferStation(p[|p| - 1]) then 0
    else Waste(p[..|p| - 1]) + Demand(p[|p| - 1])
  }

  /** After every collection area of r the waste on board is at most cap. */
  ghost predicate CapacityRespected(r: seq<Node>, cap: int)
  {
    forall n :: 1 <= n <= |r| && IsArea(r[n - 1]) ==> Waste(r[..n]) <= cap
  }

  /** The positions of r holding transfer stations, in increasing order. */
  function StationPositions(r: seq<Node>): seq<int>
    decreases |r|
  {
    if r == [] then []
    else StationPositions(r[..|r| - 1]) + (if IsTransferStation(r[|r| - 1]) then [|r| - 1] else [])
  }

  /** Extending a route by one node adds the edge to it and its service time. */
  lemma RouteCostAppend(m: Metric, t: Truck, r: seq<Node>, x: Node)
    requires |r| >= 1
    ensures Travel(m, t, r + [x]) == Travel(m, t, r) + TravelTime(m, t, r[|r| - 1], x)
    ensures Processing(r + [x]) == Processing(r) + ProcessingTime(x)
    ensures RouteCost(m, t, r + [x]) == RouteCost(m, t, r) + TravelTime(m, t, r[|r| - 1], x) + ProcessingTime(x)
  {
    TravelConcat(m, t, r, [x]);
    ProcessingConcat(r, [x]);
  }

  lemma WasteAppend(r: seq<Node>, x: Node)
    ensures Waste(r + [x]) == if IsTransferStation(x) then 0 else Waste(r) + Demand(x)
    ensures StationPositions(r + [x]) == StationPositions(r) + (if IsTransferStation(x) then [|r|] else [])
  {
    assert (r + [x])[..|r|] == r;
  }

  /** The waste on board after the first n + 1 nodes, from the waste after the first n. */
  lemma WastePrefix(r: seq<Node>, n: nat)
    requires n < |r|
    ensures Waste(r[..n + 1]) == if IsTransferStation(r[n]) then 0 else Waste(r[..n]) + Demand(r[n])
  {
    assert r[..n + 1][..n] == r[..n];
  }

  lemma AreaNodesAppend(r: seq<Node>, x: Node)
    ensures AreaNodes(r + [x]) == AreaNodes(r) + (if IsArea(x) then [x] else [])
    ensures Areas(r + [x]) == Areas(r) + (if IsArea(x) then multiset{x} else multiset{})
  {
    AreaNodesConcat(r, [x]);
    assert [x][1..] == [];
    assert AreaNodes([x]) == (if IsArea(x) then [x] else []);
  }

  lemma CapacityRespectedAppend(r: seq<Node>, x: Node, cap: int)
    requires CapacityRespected(r, cap)
    requires IsArea(x) ==> Waste(r + [x]) <= cap
    ensures CapacityRespected(r + [x], cap)
  {
    var s := r + [x];
    forall n | 1 <= n <= |s| && IsArea(s[n - 1])
      ensures Waste(s[..n]) <= cap
    {
      if n <= |r| {
        assert s[..n] == r[..n];
      } else {
        assert s[..n] == s;
      }
    }
  }
}
