/** Transfer-station unloads and the transport vehicles that carry them to the dumpsite. */
module Transport {
  import opened Graph

  /**
   * One unload: a collection vehicle leaves unloadedQuantity at transferStation at
   * arrivalTime (minutes since the start of its route). Tasks at the dumpsite have quantity 0.
   */
  datatype TransportTask = TransportTask(unloadedQuantity: int, transferStation: Node, arrivalTime: real)

  /**
   * A transport vehicle: its free capacity, the minutes left in its working day, the tasks
   * it serves in order, and the minutes it worked (set once its route is complete).
   */
  datatype TransportTruck = TransportTruck(
    currentCapacity: int,
    remainingTime: real,
    transportTasks: seq<TransportTask>,
    timeWorked: real)
}
