/**
 * The assignment loop of transport planning: unloads in arrival order, each given to a
 * vehicle, then every vehicle closed.
 */
module TransportAssignment {
  import opened Graph
  import opened Wrappers
  import opened Transport
  import opened TransportPlanning
  import opened TransportInvariants

  /**
   * A transport plan for the unloads tasks: taken in order of arrival, each goes to the
   * cheapest open vehicle that can serve it or to a new vehicle (see AssignTask), and at the
   * end every vehicle returns to the dumpsite and has its time worked set. With no unloads
   * the smallest unload quantity is undefined and planning fails.
   */
  method PlanTransport(tasks: seq<TransportTask>, profile: Truck, dumpsite: Node, m: Metric)
      returns (result: Result<seq<TransportTruck>>)
    requires IsDumpsite(dumpsite)
    ensures result.Failure? <==> tasks == []
    ensures result.Success? ==> TransportPlan(result.value, tasks, profile, dumpsite, m)
  {
    if |tasks| == 0 {
      return Failure("no transport tasks: their minimum quantity is undefined");
    }
    var sorted := SortByArrival(tasks);
    var minimumWaste := MinimumWaste(tasks);
    ghost var servable := Servable(tasks, profile, dumpsite, m);
    var trucks;
    ghost var time;
    trucks, time := AssignAll(sorted, profile, dumpsite, m, minimumWaste, servable, tasks);
    assert AllStarted(trucks);
    var closed := CloseTransportRoutes(trucks, profile, dumpsite, m);
    ClosePlan(trucks, sorted, time, tasks, closed, profile, dumpsite, m);
    result := Success(closed);
  }

  /** The unloads of sorted, in that order, each assigned by AssignTask. */
  method AssignAll(sorted: seq<TransportTask>, profile: Truck, dumpsite: Node, m: Metric, minimumWaste: int,
                   ghost servable: bool, ghost tasks: seq<TransportTask>)
      returns (trucks: seq<TransportTruck>, ghost time: real)
    requires IsDumpsite(dumpsite) && |sorted| > 0
    requires SortedByArrival(sorted) && multiset(sorted) == multiset(tasks)
    requires servable ==> Servable(tasks, profile, dumpsite, m)
    ensures Assigning(trucks, sorted, time, profile, dumpsite, m, servable)
  {
    trucks := [];
    time := sorted[0].arrivalTime;
    ghost var done: seq<TransportTask> := [];
    var i := 0;
    while i < |sorted|
      invariant 0 <= i <= |sorted| && done == sorted[..i]
      invariant Assigning(trucks, done, time, profile, dumpsite, m, servable)
      invariant i < |sorted| ==> time <= sorted[i].arrivalTime
    {
      var nextTask := sorted[i];
      if servable {
        assert nextTask in multiset(sorted);
        ServableMember(tasks, nextTask, profile, dumpsite, m);
      }
      trucks := AssignNext(trucks, done, time, nextTask, profile, dumpsite, m, minimumWaste, servable);
      assert sorted[..i] + [nextTask] == sorted[..i + 1];
      done := done + [nextTask];
      time := nextTask.arrivalTime;
      i := i + 1;
    }
    assert done == sorted;
  }

  /** One step of AssignAll: the next unload, arriving no earlier than those before it, assigned by AssignTask. */
  method AssignNext(trucks: seq<TransportTruck>, ghost done: seq<TransportTask>, ghost time: real, next: TransportTask,
                    profile: Truck, dumpsite: Node, m: Metric, minimumWaste: int, ghost servable: bool)
      returns (updated: seq<TransportTruck>)
    requires Assigning(trucks, done, time, profile, dumpsite, m, servable)
    requires IsDumpsite(dumpsite) && time <= next.arrivalTime
    requires servable ==> Servable([next], profile, dumpsite, m)
    ensures Assigning(updated, done + [next], next.arrivalTime, profile, dumpsite, m, servable)
  {
    ghost var isNew, j;
    updated, isNew, j := AssignTask(trucks, next, profile, dumpsite, m, minimumWaste);
    AssignStep(trucks, done, time, next, profile, dumpsite, m, minimumWaste, servable, updated, isNew, j);
  }
}
