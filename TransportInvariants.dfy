/**
 * What a transport plan guarantees: every vehicle starts and ends at the dumpsite, serves its
 * unloads in arrival order, never carries more than its capacity between dumpsite visits and,
 * when every station can be reached from the dumpsite and back within a day, finishes its
 * day within the work duration.
 */
module TransportInvariants {
  import opened Graph
  import opened Transport
  import opened TransportPlanning

  /** The unloads a vehicle serves: its tasks other than the dumpsite visits. */
  function Served(tasks: seq<TransportTask>): seq<TransportTask>
    decreases |tasks|
  {
    if tasks == [] then []
    else
      var last := tasks[|tasks| - 1];
      Served(tasks[..|tasks| - 1]) + (if IsDumpsite(last.transferStation) then [] else [last])
  }

  /** All unloads the vehicles serve, counted with multiplicity. */
  function ServedMultiset(trucks: seq<TransportTruck>): multiset<TransportTask>
    decreases |trucks|
  {
    if trucks == [] then multiset{}
    else ServedMultiset(trucks[..|trucks| - 1]) + multiset(Served(trucks[|trucks| - 1].transportTasks))
  }

  /** The quantity on board since the last dumpsite visit. */
  function LoadSinceDumpsite(tasks: seq<TransportTask>): int
    decreases |tasks|
  {
    if tasks == [] then 0
    else
      var last := tasks[|tasks| - 1];
      if IsDumpsite(last.transferStation) then 0
      else LoadSinceDumpsite(tasks[..|tasks| - 1]) + last.unloadedQuantity
  }

  /** At no point of the task list is more than cap on board. */
  ghost predicate LoadsFit(tasks: seq<TransportTask>, cap: int)
  {
    forall n :: 0 <= n <= |tasks| ==> LoadSinceDumpsite(tasks[..n]) <= cap
  }

  predicate StartsAtDumpsite(t: TransportTruck, dumpsite: Node)
  {
    |t.transportTasks| > 0 && t.transportTasks[0] == TransportTask(0, dumpsite, 0.0)
  }

  predicate EndsAtDumpsite(t: TransportTruck)
  {
    |t.transportTasks| > 0 && IsDumpsite(LastTask(t).transferStation)
  }

  /** The remaining time covers the drive back to the dumpsite. */
  predicate HasTimeReserve(t: TransportTruck, profile: Truck, dumpsite: Node, m: Metric)
    requires |t.transportTasks| > 0
  {
    t.remainingTime >= if IsDumpsite(LastTask(t).transferStation) then 0.0
                       else TravelTime(m, profile, LastTask(t).transferStation, dumpsite)
  }

  /** Unloads every vehicle can handle: not at the dumpsite, within capacity, and reachable from the dumpsite and back in a day. */
  ghost predicate Servable(tasks: seq<TransportTask>, profile: Truck, dumpsite: Node, m: Metric)
  {
    forall k :: 0 <= k < |tasks| ==>
      && !IsDumpsite(tasks[k].transferStation)
      && 0 <= tasks[k].unloadedQuantity <= profile.capacity
      && TravelTime(m, profile, dumpsite, tasks[k].transferStation)
         + TravelTime(m, profile, tasks[k].transferStation, dumpsite) <= profile.workDuration as real
  }

  /** A vehicle in the middle of the assignment. */
  ghost predicate OpenInvariant(t: TransportTruck, profile: Truck, dumpsite: Node, m: Metric, servable: bool)
  {
    && StartsAtDumpsite(t, dumpsite)
    && SortedByArrival(Served(t.transportTasks))
    && (servable ==>
          && t.currentCapacity == profile.capacity - LoadSinceDumpsite(t.transportTasks)
          && LoadsFit(t.transportTasks, profile.capacity)
          && HasTimeReserve(t, profile, dumpsite, m))
  }

  /** A vehicle whose day is complete. */
  ghost predicate ClosedInvariant(t: TransportTruck, profile: Truck, dumpsite: Node, m: Metric, servable: bool)
  {
    && StartsAtDumpsite(t, dumpsite)
    && EndsAtDumpsite(t)
    && SortedByArrival(Served(t.transportTasks))
    && t.timeWorked == profile.workDuration as real - t.remainingTime
    && (servable ==>
          && LoadsFit(t.transportTasks, profile.capacity)
          && t.remainingTime >= 0.0
          && t.timeWorked <= profile.workDuration as real)
  }

  /** Every unload served by t arrives no later than time. */
  ghost predicate ArrivedBy(t: TransportTruck, time: real)
  {
    forall q :: 0 <= q < |Served(t.transportTasks)| ==> Served(t.transportTasks)[q].arrivalTime <= time
  }

  /** No unload takes place at the dumpsite itself. */
  ghost predicate AtStations(tasks: seq<TransportTask>)
  {
    forall k :: 0 <= k < |tasks| ==> !IsDumpsite(tasks[k].transferStation)
  }

  /** An open vehicle that has served only unloads arriving by time. */
  ghost predicate OpenBy(t: TransportTruck, time: real, profile: Truck, dumpsite: Node, m: Metric, servable: bool)
  {
    OpenInvariant(t, profile, dumpsite, m, servable) && ArrivedBy(t, time)
  }

  /** Every vehicle of the list is OpenBy time. */
  ghost predicate AllOpen(trucks: seq<TransportTruck>, time: real, profile: Truck, dumpsite: Node, m: Metric, servable: bool)
    decreases |trucks|
  {
    trucks != [] ==>
      && AllOpen(trucks[..|trucks| - 1], time, profile, dumpsite, m, servable)
      && OpenBy(trucks[|trucks| - 1], time, profile, dumpsite, m, servable)
  }

  /**
   * The assignment after the unloads done (in arrival order, the last arriving at time):
   * every vehicle is open and has served only unloads arriving by then, the vehicles serve
   * exactly those unloads, and no more vehicles are open than unloads were assigned.
   */
  ghost predicate Assigning(trucks: seq<TransportTruck>, done: seq<TransportTask>, time: real,
                            profile: Truck, dumpsite: Node, m: Metric, servable: bool)
  {
    && AllOpen(trucks, time, profile, dumpsite, m, servable)
    && AllStarted(trucks)
    && (AtStations(done) ==> ServedMultiset(trucks) == multiset(done))
    && |trucks| <= |done|
    && (|done| > 0 ==> |trucks| > 0)
  }

  lemma {:induction false} AllOpenAt(trucks: seq<TransportTruck>, time: real, profile: Truck, dumpsite: Node, m: Metric,
                                     servable: bool, k: nat)
    requires AllOpen(trucks, time, profile, dumpsite, m, servable) && k < |trucks|
    ensures OpenBy(trucks[k], time, profile, dumpsite, m, servable)
    decreases |trucks|
  {
    var n := |trucks| - 1;
    if k < n {
      AllOpenAt(trucks[..n], time, profile, dumpsite, m, servable, k);
      assert trucks[..n][k] == trucks[k];
    }
  }

  lemma {:induction false} AllOpenIntro(trucks: seq<TransportTruck>, time: real, profile: Truck, dumpsite: Node, m: Metric,
                                        servable: bool)
    requires forall k :: 0 <= k < |trucks| ==> OpenBy(trucks[k], time, profile, dumpsite, m, servable)
    ensures AllOpen(trucks, time, profile, dumpsite, m, servable)
    decreases |trucks|
  {
    if trucks != [] {
      var n := |trucks| - 1;
      forall k | 0 <= k < n
        ensures OpenBy(trucks[..n][k], time, profile, dumpsite, m, servable)
      {
        assert trucks[..n][k] == trucks[k];
      }
      AllOpenIntro(trucks[..n], time, profile, dumpsite, m, servable);
    }
  }

  /**
   * A finished transport plan for the unloads tasks: at least one vehicle and no more than
   * there are unloads, every vehicle's day complete, and every unload served exactly once.
   */
  ghost predicate TransportPlan(trucks: seq<TransportTruck>, tasks: seq<TransportTask>, profile: Truck, dumpsite: Node, m: Metric)
  {
    && 0 < |trucks| <= |tasks|
    && (forall k :: 0 <= k < |trucks| ==> ClosedInvariant(trucks[k], profile, dumpsite, m, Servable(tasks, profile, dumpsite, m)))
    && (AtStations(tasks) ==> ServedMultiset(trucks) == multiset(tasks))
  }

  lemma ServedAppend(tasks: seq<TransportTask>, x: TransportTask)
    ensures Served(tasks + [x]) == Served(tasks) + (if IsDumpsite(x.transferStation) then [] else [x])
  {
    assert (tasks + [x])[..|tasks|] == tasks;
  }

  lemma LoadAppend(tasks: seq<TransportTask>, x: TransportTask)
    ensures LoadSinceDumpsite(tasks + [x])
      == if IsDumpsite(x.transferStation) then 0 else LoadSinceDumpsite(tasks) + x.unloadedQuantity
  {
    assert (tasks + [x])[..|tasks|] == tasks;
  }

  lemma LoadsFitAppend(tasks: seq<TransportTask>, x: TransportTask, cap: int)
    requires LoadsFit(tasks, cap)
    requires LoadSinceDumpsite(tasks + [x]) <= cap
    ensures LoadsFit(tasks + [x], cap)
  {
    var r := tasks + [x];
    forall n | 0 <= n <= |r|
      ensures LoadSinceDumpsite(r[..n]) <= cap
    {
      if n <= |tasks| {
        assert r[..n] == tasks[..n];
      } else {
        assert r[..n] == r;
      }
    }
  }

  lemma SortedAppend(s: seq<TransportTask>, x: TransportTask)
    requires SortedByArrival(s)
    requires forall k :: 0 <= k < |s| ==> s[k].arrivalTime <= x.arrivalTime
    ensures SortedByArrival(s + [x])
  {
  }

  /** A vehicle opened for an unload satisfies the invariant of open vehicles. */
  lemma OpenTruckInvariant(next: TransportTask, profile: Truck, dumpsite: Node, m: Metric, servable: bool)
    requires servable ==> Servable([next], profile, dumpsite, m)
    requires IsDumpsite(dumpsite)
    ensures OpenInvariant(OpenTruck(next, profile, dumpsite, m), profile, dumpsite, m, servable)
    ensures Served(OpenTruck(next, profile, dumpsite, m).transportTasks) == if IsDumpsite(next.transferStation) then [] else [next]
  {
    var start := TransportTask(0, dumpsite, 0.0);
    var tasks := [start, next];
    ServedAppend([], start);
    ServedAppend([start], next);
    assert [start] == [] + [start] && tasks == [start] + [next];
    LoadAppend([], start);
    LoadAppend([start], next);
    if servable {
      assert [next][0] == next;
      var none: seq<TransportTask> := [];
      assert LoadsFit(none, profile.capacity) by {
        assert forall n :: 0 <= n <= 0 ==> none[..n] == none;
      }
      LoadsFitAppend(none, start, profile.capacity);
      LoadsFitAppend([start], next, profile.capacity);
    }
  }

  /** Serving an unload that arrives no earlier than the ones already served keeps the invariant. */
  lemma ServeInvariant(t: TransportTruck, next: TransportTask, profile: Truck, dumpsite: Node, m: Metric,
                       minimumWaste: int, servable: bool)
    requires OpenInvariant(t, profile, dumpsite, m, servable)
    requires CanServe(t, next, profile, dumpsite, m)
    requires servable ==> Servable([next], profile, dumpsite, m)
    requires IsDumpsite(dumpsite)
    requires ArrivedBy(t, next.arrivalTime)
    ensures OpenInvariant(Serve(t, next, profile, dumpsite, m, minimumWaste), profile, dumpsite, m, servable)
    ensures Served(Serve(t, next, profile, dumpsite, m, minimumWaste).transportTasks)
         == Served(t.transportTasks) + if IsDumpsite(next.transferStation) then [] else [next]
  {
    var u := Serve(t, next, profile, dumpsite, m, minimumWaste);
    var tasks := t.transportTasks;
    var capacity := t.currentCapacity - next.unloadedQuantity;
    ServedAppend(tasks, next);
    LoadAppend(tasks, next);
    if !IsDumpsite(next.transferStation) {
      SortedAppend(Served(tasks), next);
    }
    if servable {
      assert [next][0] == next;
      LoadsFitAppend(tasks, next, profile.capacity);
    }
    if capacity < minimumWaste {
      var back := TransportTask(0, dumpsite, next.arrivalTime + TravelTime(m, profile, next.transferStation, dumpsite));
      assert u.transportTasks == (tasks + [next]) + [back];
      ServedAppend(tasks + [next], back);
      LoadAppend(tasks + [next], back);
      if servable {
        LoadsFitAppend(tasks + [next], back, profile.capacity);
      }
      assert u.transportTasks[0] == tasks[0];
    } else {
      assert u.transportTasks == tasks + [next];
      assert u.transportTasks[0] == tasks[0];
    }
  }

  /** Serving adds the unload to those served, unless it takes place at the dumpsite. */
  lemma ServeServed(t: TransportTruck, next: TransportTask, profile: Truck, dumpsite: Node, m: Metric, minimumWaste: int)
    requires |t.transportTasks| > 0 && IsDumpsite(dumpsite)
    ensures Served(Serve(t, next, profile, dumpsite, m, minimumWaste).transportTasks)
         == Served(t.transportTasks) + if IsDumpsite(next.transferStation) then [] else [next]
  {
    var tasks := t.transportTasks;
    ServedAppend(tasks, next);
    if t.currentCapacity - next.unloadedQuantity < minimumWaste {
      var back := TransportTask(0, dumpsite, next.arrivalTime + TravelTime(m, profile, next.transferStation, dumpsite));
      assert Serve(t, next, profile, dumpsite, m, minimumWaste).transportTasks == (tasks + [next]) + [back];
      ServedAppend(tasks + [next], back);
    }
  }

  /** Closing a vehicle completes its day at the dumpsite. */
  lemma CloseInvariant(t: TransportTruck, profile: Truck, dumpsite: Node, m: Metric, servable: bool)
    requires OpenInvariant(t, profile, dumpsite, m, servable)
    requires IsDumpsite(dumpsite)
    ensures ClosedInvariant(Close(t, profile, dumpsite, m), profile, dumpsite, m, servable)
    ensures Served(Close(t, profile, dumpsite, m).transportTasks) == Served(t.transportTasks)
  {
    var c := Close(t, profile, dumpsite, m);
    var back := TransportTask(0, dumpsite, 0.0);
    if !IsDumpsite(LastTask(t).transferStation) {
      assert c.transportTasks == t.transportTasks + [back];
      ServedAppend(t.transportTasks, back);
      LoadAppend(t.transportTasks, back);
      if servable {
        assert t.transportTasks[..0] == [];
        assert LoadSinceDumpsite(t.transportTasks[..0]) <= profile.capacity;
        LoadsFitAppend(t.transportTasks, back, profile.capacity);
      }
    }
  }

  lemma ServedMultisetAppend(trucks: seq<TransportTruck>, x: TransportTruck)
    ensures ServedMultiset(trucks + [x]) == ServedMultiset(trucks) + multiset(Served(x.transportTasks))
  {
    assert (trucks + [x])[..|trucks|] == trucks;
  }

  lemma {:induction false} ServedMultisetConcat(a: seq<TransportTruck>, b: seq<TransportTruck>)
    ensures ServedMultiset(a + b) == ServedMultiset(a) + ServedMultiset(b)
    decreases |b|
  {
    if b == [] {
      assert a + b == a;
    } else {
      var b' := b[..|b| - 1];
      assert (a + b)[..|a + b| - 1] == a + b';
      ServedMultisetConcat(a, b');
    }
  }

  /** The unloads served by a, then t, then b are those of a, of t and of b. */
  lemma ServedMultisetMiddle(a: seq<TransportTruck>, t: TransportTruck, b: seq<TransportTruck>)
    ensures ServedMultiset(a + [t] + b) == ServedMultiset(a) + multiset(Served(t.transportTasks)) + ServedMultiset(b)
  {
    ServedMultisetConcat(a + [t], b);
    ServedMultisetAppend(a, t);
  }

  /** Replacing vehicle j by one that serves one more unload y adds y to all unloads served. */
  lemma ServedMultisetUpdate(trucks: seq<TransportTruck>, j: nat, x: TransportTruck, y: TransportTask)
    requires j < |trucks|
    requires Served(x.transportTasks) == Served(trucks[j].transportTasks) + [y]
    ensures ServedMultiset(trucks[j := x]) == ServedMultiset(trucks) + multiset{y}
  {
    var a, b := trucks[..j], trucks[j + 1..];
    assert trucks == a + [trucks[j]] + b;
    assert trucks[j := x] == a + [x] + b;
    ServedMultisetMiddle(a, trucks[j], b);
    ServedMultisetMiddle(a, x, b);
  }

  lemma {:induction false} ServedMultisetContains(trucks: seq<TransportTruck>, j: nat)
    requires j < |trucks|
    ensures multiset(Served(trucks[j].transportTasks)) <= ServedMultiset(trucks)
    decreases |trucks|
  {
    if j < |trucks| - 1 {
      ServedMultisetContains(trucks[..|trucks| - 1], j);
    }
  }

  lemma ArrivedByLater(t: TransportTruck, time: real, later: real)
    requires ArrivedBy(t, time) && time <= later
    ensures ArrivedBy(t, later)
  {
  }

  /** An unload of a servable list is servable on its own. */
  lemma ServableMember(tasks: seq<TransportTask>, x: TransportTask, profile: Truck, dumpsite: Node, m: Metric)
    requires Servable(tasks, profile, dumpsite, m) && x in multiset(tasks)
    ensures Servable([x], profile, dumpsite, m)
  {
    assert x in tasks;
    var k :| 0 <= k < |tasks| && tasks[k] == x;
    assert [x][0] == tasks[k];
  }

  /** Whether every unload is at a station does not depend on their order. */
  lemma AtStationsPermutation(s: seq<TransportTask>, t: seq<TransportTask>)
    requires multiset(s) == multiset(t) && AtStations(s)
    ensures AtStations(t)
  {
    forall k | 0 <= k < |t|
      ensures !IsDumpsite(t[k].transferStation)
    {
      assert t[k] in multiset(s);
      var i :| 0 <= i < |s| && s[i] == t[k];
    }
  }

  lemma AtStationsPrefix(s: seq<TransportTask>, x: TransportTask)
    requires AtStations(s + [x])
    ensures AtStations(s) && !IsDumpsite(x.transferStation)
  {
    assert (s + [x])[|s|] == x;
    forall k | 0 <= k < |s|
      ensures !IsDumpsite(s[k].transferStation)
    {
      assert (s + [x])[k] == s[k];
    }
  }

  /**
   * Assigning the next unload, arriving no earlier than those assigned before it, to a new
   * vehicle or to the first cheapest one that can serve it keeps the assignment invariant.
   */
  lemma AssignStep(trucks: seq<TransportTruck>, done: seq<TransportTask>, time: real, next: TransportTask,
                   profile: Truck, dumpsite: Node, m: Metric, minimumWaste: int, servable: bool,
                   updated: seq<TransportTruck>, isNew: bool, j: nat)
    requires Assigning(trucks, done, time, profile, dumpsite, m, servable)
    requires AllStarted(trucks)
    requires IsDumpsite(dumpsite) && time <= next.arrivalTime
    requires servable ==> Servable([next], profile, dumpsite, m)
    requires isNew ==> updated == trucks + [OpenTruck(next, profile, dumpsite, m)]
    requires !isNew ==> (IsFirstCheapest(trucks, next, profile, dumpsite, m, j)
                         && updated == trucks[j := Serve(trucks[j], next, profile, dumpsite, m, minimumWaste)])
    ensures Assigning(updated, done + [next], next.arrivalTime, profile, dumpsite, m, servable)
  {
    if isNew {
      AssignOpen(trucks, done, time, next, profile, dumpsite, m, servable);
    } else {
      assert CalculateTransportCost(trucks[j], next, profile, dumpsite, m).Some?;
      AssignServe(trucks, done, time, next, profile, dumpsite, m, minimumWaste, servable, j);
    }
  }

  lemma AssignOpen(trucks: seq<TransportTruck>, done: seq<TransportTask>, time: real, next: TransportTask,
                   profile: Truck, dumpsite: Node, m: Metric, servable: bool)
    requires Assigning(trucks, done, time, profile, dumpsite, m, servable)
    requires IsDumpsite(dumpsite) && time <= next.arrivalTime
    requires servable ==> Servable([next], profile, dumpsite, m)
    ensures Assigning(trucks + [OpenTruck(next, profile, dumpsite, m)], done + [next], next.arrivalTime, profile, dumpsite, m, servable)
  {
    var o := OpenTruck(next, profile, dumpsite, m);
    forall k | 0 <= k < |trucks|
      ensures OpenBy(trucks[k], time, profile, dumpsite, m, servable)
    {
      AllOpenAt(trucks, time, profile, dumpsite, m, servable, k);
    }
    OpenKeepsOpen(trucks, time, next, profile, dumpsite, m, servable);
    AllOpenIntro(trucks + [o], next.arrivalTime, profile, dumpsite, m, servable);
    if AtStations(done + [next]) {
      AtStationsPrefix(done, next);
      OpenTruckInvariant(next, profile, dumpsite, m, servable);
      ServedMultisetAppend(trucks, o);
    }
  }

  lemma OpenKeepsOpen(trucks: seq<TransportTruck>, time: real, next: TransportTask,
                      profile: Truck, dumpsite: Node, m: Metric, servable: bool)
    requires forall k :: 0 <= k < |trucks| ==> OpenBy(trucks[k], time, profile, dumpsite, m, servable)
    requires IsDumpsite(dumpsite) && time <= next.arrivalTime
    requires servable ==> Servable([next], profile, dumpsite, m)
    ensures var updated := trucks + [OpenTruck(next, profile, dumpsite, m)];
      forall k :: 0 <= k < |updated| ==> OpenBy(updated[k], next.arrivalTime, profile, dumpsite, m, servable)
  {
    var o := OpenTruck(next, profile, dumpsite, m);
    var updated := trucks + [o];
    forall k | 0 <= k < |updated|
      ensures OpenBy(updated[k], next.arrivalTime, profile, dumpsite, m, servable)
    {
      if k < |trucks| {
        assert updated[k] == trucks[k];
        OpenByLater(trucks[k], time, next.arrivalTime, profile, dumpsite, m, servable);
      } else {
        assert updated[k] == o;
        OpenTruckOpenBy(next, profile, dumpsite, m, servable);
      }
    }
  }

  /** A vehicle open by some time is open by any later time. */
  lemma OpenByLater(t: TransportTruck, time: real, later: real, profile: Truck, dumpsite: Node, m: Metric, servable: bool)
    requires OpenBy(t, time, profile, dumpsite, m, servable) && time <= later
    ensures OpenBy(t, later, profile, dumpsite, m, servable)
  {
    ArrivedByLater(t, time, later);
  }

  /** A vehicle opened for an unload is open by that unload's arrival. */
  lemma OpenTruckOpenBy(next: TransportTask, profile: Truck, dumpsite: Node, m: Metric, servable: bool)
    requires servable ==> Servable([next], profile, dumpsite, m)
    requires IsDumpsite(dumpsite)
    ensures OpenBy(OpenTruck(next, profile, dumpsite, m), next.arrivalTime, profile, dumpsite, m, servable)
  {
    var o := OpenTruck(next, profile, dumpsite, m);
    OpenTruckInvariant(next, profile, dumpsite, m, servable);
    assert ArrivedBy(o, next.arrivalTime) by {
      var served := Served(o.transportTasks);
      assert served == [] || served == [next];
      forall q | 0 <= q < |served|
        ensures served[q].arrivalTime <= next.arrivalTime
      {
        assert served[q] == next;
      }
    }
  }

  lemma AssignServe(trucks: seq<TransportTruck>, done: seq<TransportTask>, time: real, next: TransportTask,
                    profile: Truck, dumpsite: Node, m: Metric, minimumWaste: int, servable: bool, j: nat)
    requires Assigning(trucks, done, time, profile, dumpsite, m, servable)
    requires IsDumpsite(dumpsite) && time <= next.arrivalTime
    requires servable ==> Servable([next], profile, dumpsite, m)
    requires j < |trucks| && CanServe(trucks[j], next, profile, dumpsite, m)
    ensures Assigning(trucks[j := Serve(trucks[j], next, profile, dumpsite, m, minimumWaste)], done + [next],
                      next.arrivalTime, profile, dumpsite, m, servable)
  {
    var u := Serve(trucks[j], next, profile, dumpsite, m, minimumWaste);
    forall k | 0 <= k < |trucks|
      ensures OpenBy(trucks[k], time, profile, dumpsite, m, servable)
    {
      AllOpenAt(trucks, time, profile, dumpsite, m, servable, k);
    }
    ServeKeepsOpen(trucks, time, next, profile, dumpsite, m, minimumWaste, servable, j);
    AllOpenIntro(trucks[j := u], next.arrivalTime, profile, dumpsite, m, servable);
    if AtStations(done + [next]) {
      AtStationsPrefix(done, next);
      ServeServedMultiset(trucks, done, next, profile, dumpsite, m, minimumWaste, j);
    }
  }

  lemma ServeKeepsOpen(trucks: seq<TransportTruck>, time: real, next: TransportTask,
                       profile: Truck, dumpsite: Node, m: Metric, minimumWaste: int, servable: bool, j: nat)
    requires forall k :: 0 <= k < |trucks| ==> OpenBy(trucks[k], time, profile, dumpsite, m, servable)
    requires IsDumpsite(dumpsite) && time <= next.arrivalTime
    requires servable ==> Servable([next], profile, dumpsite, m)
    requires j < |trucks| && |trucks[j].transportTasks| > 0 && CanServe(trucks[j], next, profile, dumpsite, m)
    ensures var updated := trucks[j := Serve(trucks[j], next, profile, dumpsite, m, minimumWaste)];
      forall k :: 0 <= k < |updated| ==> OpenBy(updated[k], next.arrivalTime, profile, dumpsite, m, servable)
  {
    var t := trucks[j];
    var u := Serve(t, next, profile, dumpsite, m, minimumWaste);
    var updated := trucks[j := u];
    ArrivedByLater(t, time, next.arrivalTime);
    ServeInvariant(t, next, profile, dumpsite, m, minimumWaste, servable);
    forall k | 0 <= k < |updated|
      ensures OpenBy(updated[k], next.arrivalTime, profile, dumpsite, m, servable)
    {
      if k != j {
        assert updated[k] == trucks[k];
        ArrivedByLater(trucks[k], time, next.arrivalTime);
      }
    }
  }

  lemma ServeServedMultiset(trucks: seq<TransportTruck>, done: seq<TransportTask>, next: TransportTask,
                            profile: Truck, dumpsite: Node, m: Metric, minimumWaste: int, j: nat)
    requires ServedMultiset(trucks) == multiset(done)
    requires !IsDumpsite(next.transferStation) && IsDumpsite(dumpsite)
    requires j < |trucks| && |trucks[j].transportTasks| > 0
    ensures ServedMultiset(trucks[j := Serve(trucks[j], next, profile, dumpsite, m, minimumWaste)]) == multiset(done + [next])
  {
    var t := trucks[j];
    var u := Serve(t, next, profile, dumpsite, m, minimumWaste);
    ServeServed(t, next, profile, dumpsite, m, minimumWaste);
    ServedMultisetUpdate(trucks, j, u, next);
  }

  lemma {:induction false} ServedMultisetPointwise(a: seq<TransportTruck>, b: seq<TransportTruck>)
    requires |a| == |b|
    requires forall k :: 0 <= k < |a| ==> Served(a[k].transportTasks) == Served(b[k].transportTasks)
    ensures ServedMultiset(a) == ServedMultiset(b)
    decreases |a|
  {
    if a != [] {
      var n := |a| - 1;
      ServedMultisetPointwise(a[..n], b[..n]);
    }
  }

  /** Closing every vehicle of a complete assignment gives a finished transport plan. */
  lemma ClosePlan(trucks: seq<TransportTruck>, sorted: seq<TransportTask>, time: real, tasks: seq<TransportTask>,
                  closed: seq<TransportTruck>, profile: Truck, dumpsite: Node, m: Metric)
    requires Assigning(trucks, sorted, time, profile, dumpsite, m, Servable(tasks, profile, dumpsite, m))
    requires multiset(sorted) == multiset(tasks) && |tasks| > 0
    requires IsDumpsite(dumpsite)
    requires |closed| == |trucks| && forall k :: 0 <= k < |trucks| ==> closed[k] == Close(trucks[k], profile, dumpsite, m)
    ensures TransportPlan(closed, tasks, profile, dumpsite, m)
  {
    var servable := Servable(tasks, profile, dumpsite, m);
    assert |multiset(sorted)| == |multiset(tasks)|;
    forall k | 0 <= k < |trucks|
      ensures ClosedInvariant(closed[k], profile, dumpsite, m, servable)
      ensures Served(closed[k].transportTasks) == Served(trucks[k].transportTasks)
    {
      AllOpenAt(trucks, time, profile, dumpsite, m, servable, k);
      CloseInvariant(trucks[k], profile, dumpsite, m, servable);
    }
    ServedMultisetPointwise(closed, trucks);
    if AtStations(tasks) {
      AtStationsPermutation(tasks, sorted);
    }
  }
}
