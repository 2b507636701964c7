/** The greedy neighbour choice: always the nearest candidate. */
module Greedy {
  import opened Graph

  /**
   * The candidate nearest to current, its distance and its position in the list. Ties go
   * to the earliest candidate, because only a strictly smaller distance replaces the choice.
   */
  method GetClosestNeighbour(m: Metric, current: Node, neighbours: seq<Node>)
      returns (closest: Node, minDistance: real, index: nat)
    requires |neighbours| > 0
    ensures index < |neighbours| && closest == neighbours[index]
    ensures minDistance == DistanceBetween(m, current, closest)
    ensures forall i :: 0 <= i < |neighbours| ==> minDistance <= DistanceBetween(m, current, neighbours[i])
    ensures forall i :: 0 <= i < index ==> DistanceBetween(m, current, neighbours[i]) > minDistance
  {
    index := 0;
    minDistance := DistanceBetween(m, current, neighbours[0]);
    var i := 1;
    while i < |neighbours|
      invariant 1 <= i <= |neighbours|
      invariant index < i
      invariant minDistance == DistanceBetween(m, current, neighbours[index])
      invariant forall k :: 0 <= k < i ==> minDistance <= DistanceBetween(m, current, neighbours[k])
      invariant forall k :: 0 <= k < index ==> DistanceBetween(m, current, neighbours[k]) > minDistance
    {
      var distance := DistanceBetween(m, current, neighbours[i]);
      if distance < minDistance {
        index := i;
        minDistance := distance;
      }
      i := i + 1;
    }
    closest := neighbours[index];
  }
}
