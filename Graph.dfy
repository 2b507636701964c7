/**
 * Nodes of the problem graph (depot, dumpsite, transfer stations and collection areas),
 * the distance between nodes and the truck profiles that turn distances into minutes.
 */
module Graph {
  /** Integer coordinates of a node on the plane. */
  datatype Point = Point(x: int, y: int)

  /**
   * What a node is. The engine tells the kinds apart by the node's identifier
   * (an identifier starting with "TS" is a transfer station, "Dumpsite" is the dumpsite)
   * and by whether the object is a collection area; here the kind is explicit.
   */
  datatype NodeKind =
    | DepotNode
    | DumpsiteNode
    | TransferStation
    | CollectionArea(demand: int, processingTime: real)

  datatype Node = Node(id: string, coordinates: Point, kind: NodeKind)

  predicate IsArea(n: Node) { n.kind.CollectionArea? }

  predicate IsTransferStation(n: Node) { n.kind.TransferStation? }

  predicate IsDepot(n: Node) { n.kind.DepotNode? }

  predicate IsDumpsite(n: Node) { n.kind.DumpsiteNode? }

  /** Demand of a collection area; other nodes carry no waste. */
  function Demand(n: Node): int
  {
    if IsArea(n) then n.kind.demand else 0
  }

  /** Minutes spent serving a collection area; other nodes take no service time. */
  function ProcessingTime(n: Node): real
  {
    if IsArea(n) then n.kind.processingTime else 0.0
  }

  /**
   * The distance between two points. The engine computes the Euclidean distance with
   * floating point square roots; the model keeps the distance as a parameter of the
   * instance and states the properties it relies on as predicates below.
   */
  type Metric = (Point, Point) -> real

  function DistanceBetween(m: Metric, a: Node, b: Node): real
  {
    m(a.coordinates, b.coordinates)
  }

  ghost predicate Symmetric(m: Metric)
  {
    forall p: Point, q: Point :: m(p, q) == m(q, p)
  }

  ghost predicate NonNegative(m: Metric)
  {
    forall p: Point, q: Point :: m(p, q) >= 0.0
  }

  ghost predicate TriangleInequality(m: Metric)
  {
    forall p: Point, q: Point, r: Point :: m(p, r) <= m(p, q) + m(q, r)
  }

  /** A truck's speed; every travel time divides by it. */
  type Speed = s: int | s > 0 witness 1

  /** A truck profile: capacity, length of the working day in minutes, speed. */
  datatype Truck = Truck(capacity: int, workDuration: int, speed: Speed)

  /** Minutes t needs to drive the given distance: the distance divided by the speed, times 60. */
  function Minutes(t: Truck, distance: real): real
  {
    distance / (t.speed as real) * 60.0
  }

  /** Driving two distances one after the other takes the sum of their minutes. */
  lemma MinutesAdd(t: Truck, x: real, y: real)
    ensures Minutes(t, x + y) == Minutes(t, x) + Minutes(t, y)
  {
    var s := t.speed as real;
    assert (x + y) / s == x / s + y / s;
  }

  /** Minutes needed to drive from a to b. */
  function TravelTime(m: Metric, t: Truck, a: Node, b: Node): (r: real)
    ensures NonNegative(m) ==> r >= 0.0
  {
    Minutes(t, DistanceBetween(m, a, b))
  }

  lemma TravelTimeSymmetric(m: Metric, t: Truck, a: Node, b: Node)
    requires Symmetric(m)
    ensures TravelTime(m, t, a, b) == TravelTime(m, t, b, a)
  {
    assert m(a.coordinates, b.coordinates) == m(b.coordinates, a.coordinates);
  }

  lemma TravelTimeTriangle(m: Metric, t: Truck, a: Node, b: Node, c: Node)
    requires TriangleInequality(m)
    ensures TravelTime(m, t, a, c) <= TravelTime(m, t, a, b) + TravelTime(m, t, b, c)
  {
    var s := t.speed as real;
    assert m(a.coordinates, c.coordinates) <= m(a.coordinates, b.coordinates) + m(b.coordinates, c.coordinates);
    assert DistanceBetween(m, a, c) / s <= DistanceBetween(m, a, b) / s + DistanceBetween(m, b, c) / s;
  }
}
