/** A solution: the collection routes and the transport vehicles, with their total times. */
module Solutions {
  import opened Graph
  import opened Lists
  import opened Routing
  import opened Transport

  datatype Routes = Routes(collectionRoutes: seq<CollectionRoute>, transportTrucks: seq<TransportTruck>)

  /** Sum of the stored route times. */
  function CollectionTime(rs: seq<CollectionRoute>): real
    decreases |rs|
  {
    if rs == [] then 0.0 else CollectionTime(rs[..|rs| - 1]) + rs[|rs| - 1].routeTime
  }

  /** Sum of the minutes worked by the transport vehicles. */
  function TransportTime(ts: seq<TransportTruck>): real
    decreases |ts|
  {
    if ts == [] then 0.0 else TransportTime(ts[..|ts| - 1]) + ts[|ts| - 1].timeWorked
  }

  /** All collection areas of a list of routes, counted with multiplicity. */
  function RoutesAreas(rs: seq<CollectionRoute>): multiset<Node>
    decreases |rs|
  {
    if rs == [] then multiset{} else RoutesAreas(rs[..|rs| - 1]) + Areas(rs[|rs| - 1].route)
  }

  /** The total collection time: the route times added up in list order. */
  method GetCollectionTime(routes: Routes) returns (total: real)
    ensures total == CollectionTime(routes.collectionRoutes)
  {
    var rs := routes.collectionRoutes;
    total := 0.0;
    var i := 0;
    while i < |rs|
      invariant 0 <= i <= |rs|
      invariant total == CollectionTime(rs[..i])
    {
      assert rs[..i + 1][..i] == rs[..i];
      total := total + rs[i].routeTime;
      i := i + 1;
    }
    assert rs[..i] == rs;
  }

  /** The total transport time: the minutes worked added up in list order. */
  method GetTransportTime(routes: Routes) returns (total: real)
    ensures total == TransportTime(routes.transportTrucks)
  {
    var ts := routes.transportTrucks;
    total := 0.0;
    var i := 0;
    while i < |ts|
      invariant 0 <= i <= |ts|
      invariant total == TransportTime(ts[..i])
    {
      assert ts[..i + 1][..i] == ts[..i];
      total := total + ts[i].timeWorked;
      i := i + 1;
    }
    assert ts[..i] == ts;
  }

  lemma {:induction false} CollectionTimeConcat(a: seq<CollectionRoute>, b: seq<CollectionRoute>)
    ensures CollectionTime(a + b) == CollectionTime(a) + CollectionTime(b)
    decreases |b|
  {
    if b == [] {
      assert a + b == a;
    } else {
      var b' := b[..|b| - 1];
      assert (a + b)[..|a + b| - 1] == a + b';
      CollectionTimeConcat(a, b');
    }
  }

  /** Taking route k out of the list takes its time out of the total. */
  lemma CollectionTimeRemoveAt(rs: seq<CollectionRoute>, k: nat)
    requires k < |rs|
    ensures CollectionTime(RemoveAt(rs, k)) == CollectionTime(rs) - rs[k].routeTime
  {
    SplitAt(rs, k);
    CollectionTimeConcat(rs[..k] + [rs[k]], rs[k + 1..]);
    CollectionTimeConcat(rs[..k], [rs[k]]);
    CollectionTimeConcat(rs[..k], rs[k + 1..]);
    assert CollectionTime([rs[k]]) == rs[k].routeTime by {
      assert [rs[k]][..0] == [];
    }
  }

  /** Appending one route adds its time. */
  lemma CollectionTimeAppend(rs: seq<CollectionRoute>, x: CollectionRoute)
    ensures CollectionTime(rs + [x]) == CollectionTime(rs) + x.routeTime
  {
    assert (rs + [x])[..|rs|] == rs;
  }

  lemma {:induction false} RoutesAreasConcat(a: seq<CollectionRoute>, b: seq<CollectionRoute>)
    ensures RoutesAreas(a + b) == RoutesAreas(a) + RoutesAreas(b)
    decreases |b|
  {
    if b == [] {
      assert a + b == a;
    } else {
      var b' := b[..|b| - 1];
      assert (a + b)[..|a + b| - 1] == a + b';
      RoutesAreasConcat(a, b');
    }
  }

  /** Taking route k out of the list takes its areas out of the collection. */
  lemma RoutesAreasRemoveAt(rs: seq<CollectionRoute>, k: nat)
    requires k < |rs|
    ensures RoutesAreas(rs) == RoutesAreas(RemoveAt(rs, k)) + Areas(rs[k].route)
  {
    var a, b := rs[..k], rs[k + 1..];
    SplitAt(rs, k);
    RoutesAreasConcat(a + [rs[k]], b);
    RoutesAreasAppend(a, rs[k]);
    RoutesAreasConcat(a, b);
  }

  lemma RoutesAreasAppend(rs: seq<CollectionRoute>, x: CollectionRoute)
    ensures RoutesAreas(rs + [x]) == RoutesAreas(rs) + Areas(x.route)
  {
    assert (rs + [x])[..|rs|] == rs;
  }
}
