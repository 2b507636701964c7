/** A problem instance: fleet profiles, the fixed nodes, and the lists of stations and areas. */
module Instance {
  import opened Graph

  class VrptSwtsInstance {
    const numberVehicles: int
    const collectionTruck: Truck
    const transportTruck: Truck
    const depot: Node
    const dumpsite: Node
    /** The distance between node coordinates used by every travel time of this instance. */
    const distance: Metric
    /** Public lists: the collection heuristic removes the areas it has routed. */
    var transferStations: seq<Node>
    var collectionAreas: seq<Node>

    constructor (numberVehicles: int, collectionTruck: Truck, transportTruck: Truck,
                 depot: Node, dumpsite: Node, distance: Metric,
                 transferStations: seq<Node>, collectionAreas: seq<Node>)
      ensures this.numberVehicles == numberVehicles
      ensures this.collectionTruck == collectionTruck && this.transportTruck == transportTruck
      ensures this.depot == depot && this.dumpsite == dumpsite && this.distance == distance
      ensures this.transferStations == transferStations && this.collectionAreas == collectionAreas
    {
      this.numberVehicles := numberVehicles;
      this.collectionTruck := collectionTruck;
      this.transportTruck := transportTruck;
      this.depot := depot;
      this.dumpsite := dumpsite;
      this.distance := distance;
      this.transferStations := transferStations;
      this.collectionAreas := collectionAreas;
    }

    /**
     * A new instance with the same vehicles and fixed nodes and its own copies of the two
     * lists, so that removing areas from the copy leaves this instance untouched.
     */
    method Clone() returns (c: VrptSwtsInstance)
      ensures fresh(c)
      ensures c.numberVehicles == numberVehicles
      ensures c.collectionTruck == collectionTruck && c.transportTruck == transportTruck
      ensures c.depot == depot && c.dumpsite == dumpsite && c.distance == distance
      ensures c.transferStations == transferStations && c.collectionAreas == collectionAreas
    {
      c := new VrptSwtsInstance(numberVehicles, collectionTruck, transportTruck, depot, dumpsite,
                                distance, transferStations, collectionAreas);
    }
  }
}
