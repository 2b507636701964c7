/**
 * Assignment of transfer-station unloads to transport vehicles: each unload, in order of
 * arrival, goes to the open vehicle that can take it at the lowest insertion cost, or to a
 * new vehicle that starts at the dumpsite.
 */
module TransportPlanning {
  import opened Graph
  import opened Transport
  import opened Wrappers

  predicate SortedByArrival(s: seq<TransportTask>)
  {
    forall p, q :: 0 <= p < q < |s| ==> s[p].arrivalTime <= s[q].arrivalTime
  }

  /** The position at which x goes so that it follows every task arriving no later than it. */
  function ArrivalSlot(s: seq<TransportTask>, x: TransportTask): (k: nat)
    ensures k <= |s|
    ensures SortedByArrival(s) ==> forall p :: 0 <= p < k ==> s[p].arrivalTime <= x.arrivalTime
    ensures forall p :: k <= p < |s| ==> s[p].arrivalTime > x.arrivalTime
    decreases |s|
  {
    if s == [] || s[|s| - 1].arrivalTime <= x.arrivalTime then |s|
    else
      var init := s[..|s| - 1];
      assert SortedByArrival(s) ==> SortedByArrival(init);
      ArrivalSlot(init, x)
  }

  /**
   * The tasks ordered by arrival time. Tasks with equal arrival times keep their order
   * (each task is placed after all earlier tasks that do not arrive later): SortByArrivalStable.
   */
  function SortByArrival(tasks: seq<TransportTask>): (s: seq<TransportTask>)
    ensures |s| == |tasks|
    ensures multiset(s) == multiset(tasks)
    ensures SortedByArrival(s)
    decreases |tasks|
  {
    if tasks == [] then []
    else
      var x := tasks[|tasks| - 1];
      var rest := SortByArrival(tasks[..|tasks| - 1]);
      var k := ArrivalSlot(rest, x);
      SortStep(tasks, rest, k);
      rest[..k] + [x] + rest[k..]
  }

  /** Inserting the last task into the sorted others at its slot sorts all the tasks. */
  lemma SortStep(tasks: seq<TransportTask>, rest: seq<TransportTask>, k: nat)
    requires tasks != [] && |rest| == |tasks| - 1
    requires multiset(rest) == multiset(tasks[..|tasks| - 1]) && SortedByArrival(rest)
    requires k == ArrivalSlot(rest, tasks[|tasks| - 1])
    ensures var s := rest[..k] + [tasks[|tasks| - 1]] + rest[k..];
      |s| == |tasks| && multiset(s) == multiset(tasks) && SortedByArrival(s)
  {
    assert tasks == tasks[..|tasks| - 1] + [tasks[|tasks| - 1]];
    InsertInArrivalOrder(rest, tasks[|tasks| - 1], k);
  }

  /** Inserting x anywhere adds it to the tasks and keeps all others. */
  lemma InsertAddsTask(s: seq<TransportTask>, x: TransportTask, k: nat)
    requires k <= |s|
    ensures multiset(s[..k] + [x] + s[k..]) == multiset(s) + multiset{x}
  {
    assert s == s[..k] + s[k..];
  }

  lemma InsertInArrivalOrder(s: seq<TransportTask>, x: TransportTask, k: nat)
    requires SortedByArrival(s) && k == ArrivalSlot(s, x)
    ensures SortedByArrival(s[..k] + [x] + s[k..])
    ensures multiset(s[..k] + [x] + s[k..]) == multiset(s) + multiset{x}
  {
    InsertAddsTask(s, x, k);
    var r := s[..k] + [x] + s[k..];
    forall p, q | 0 <= p < q < |r|
      ensures r[p].arrivalTime <= r[q].arrivalTime
    {
      if q < k {
        assert r[p] == s[p] && r[q] == s[q];
      } else if q == k {
        assert r[p] == s[p];
      } else if p < k {
        assert r[p] == s[p] && r[q] == s[q - 1];
      } else if p == k {
        assert r[q] == s[q - 1];
      } else {
        assert r[p] == s[p - 1] && r[q] == s[q - 1];
      }
    }
  }

  /** The tasks of s that arrive at time v, in their order in s. */
  function WithArrival(s: seq<TransportTask>, v: real): seq<TransportTask>
    decreases |s|
  {
    if s == [] then []
    else WithArrival(s[..|s| - 1], v) + if s[|s| - 1].arrivalTime == v then [s[|s| - 1]] else []
  }

  lemma {:induction false} WithArrivalConcat(a: seq<TransportTask>, b: seq<TransportTask>, v: real)
    ensures WithArrival(a + b, v) == WithArrival(a, v) + WithArrival(b, v)
    decreases |b|
  {
    if b == [] {
      assert a + b == a;
    } else {
      var c := b[..|b| - 1];
      assert (a + b)[..|a + b| - 1] == a + c;
      WithArrivalConcat(a, c, v);
    }
  }

  /** No task of s arrives at v, so none is kept. */
  lemma {:induction false} WithArrivalNone(s: seq<TransportTask>, v: real)
    requires forall p :: 0 <= p < |s| ==> s[p].arrivalTime != v
    ensures WithArrival(s, v) == []
    decreases |s|
  {
    if s != [] {
      WithArrivalNone(s[..|s| - 1], v);
    }
  }

  /** Inserting x at its arrival slot puts it after every kept task of rest that arrives with it. */
  lemma InsertStable(rest: seq<TransportTask>, x: TransportTask, k: nat, v: real)
    requires k == ArrivalSlot(rest, x)
    ensures WithArrival(rest[..k] + [x] + rest[k..], v) == WithArrival(rest, v) + if x.arrivalTime == v then [x] else []
  {
    var a, b := rest[..k], rest[k..];
    var wa, wb := WithArrival(a, v), WithArrival(b, v);
    var wx := if x.arrivalTime == v then [x] else [];
    assert rest[..k] + [x] + rest[k..] == (a + [x]) + b;
    assert a + b == rest;
    calc {
      WithArrival(rest[..k] + [x] + rest[k..], v);
      { WithArrivalConcat(a + [x], b, v); }
      WithArrival(a + [x], v) + wb;
      { WithArrivalConcat(a, [x], v); WithArrivalSingle(x, v); }
      wa + wx + wb;
      { if x.arrivalTime == v { ArrivalsAfterSlot(rest, x, k); WithArrivalNone(b, v); } }
      wa + wb + wx;
      { WithArrivalConcat(a, b, v); }
      WithArrival(rest, v) + wx;
    }
  }

  /** The tasks after x's arrival slot all arrive later than x. */
  lemma ArrivalsAfterSlot(rest: seq<TransportTask>, x: TransportTask, k: nat)
    requires k == ArrivalSlot(rest, x)
    ensures forall p :: 0 <= p < |rest[k..]| ==> rest[k..][p].arrivalTime != x.arrivalTime
  {
    forall p | 0 <= p < |rest[k..]|
      ensures rest[k..][p].arrivalTime != x.arrivalTime
    {
      assert rest[k..][p] == rest[k + p];
    }
  }

  lemma WithArrivalSingle(x: TransportTask, v: real)
    ensures WithArrival([x], v) == if x.arrivalTime == v then [x] else []
  {
    assert [x][..0] == [];
  }

  /**
   * Sorting by arrival is stable: for every arrival time, the tasks arriving then appear in the
   * sorted list in the order they had in the input.
   */
  lemma {:induction false} SortByArrivalStable(tasks: seq<TransportTask>, v: real)
    ensures WithArrival(SortByArrival(tasks), v) == WithArrival(tasks, v)
    decreases |tasks|
  {
    if tasks != [] {
      var x := tasks[|tasks| - 1];
      var front := tasks[..|tasks| - 1];
      var rest := SortByArrival(front);
      var k := ArrivalSlot(rest, x);
      assert SortByArrival(tasks) == rest[..k] + [x] + rest[k..];
      SortByArrivalStable(front, v);
      InsertStable(rest, x, k, v);
    }
  }

  /** The smallest unloaded quantity among the tasks. */
  function MinimumWaste(tasks: seq<TransportTask>): (w: int)
    requires |tasks| > 0
    ensures forall k :: 0 <= k < |tasks| ==> w <= tasks[k].unloadedQuantity
    ensures exists k :: 0 <= k < |tasks| && w == tasks[k].unloadedQuantity
    decreases |tasks|
  {
    if |tasks| == 1 then tasks[0].unloadedQuantity
    else
      var w := MinimumWaste(tasks[1..]);
      assert forall k :: 1 <= k < |tasks| ==> tasks[k] == tasks[1..][k - 1];
      if tasks[0].unloadedQuantity < w then tasks[0].unloadedQuantity else w
  }

  function LastTask(t: TransportTruck): TransportTask
    requires |t.transportTasks| > 0
  {
    t.transportTasks[|t.transportTasks| - 1]
  }

  /**
   * Whether a vehicle can take the next unload: it reaches the station before the unload
   * arrives, it has room for the quantity, and its remaining time still covers the wait
   * and the drive from that station to the dumpsite.
   */
  predicate CanServe(t: TransportTruck, next: TransportTask, profile: Truck, dumpsite: Node, m: Metric)
    requires |t.transportTasks| > 0
  {
    var last := LastTask(t);
    var gap := next.arrivalTime - last.arrivalTime;
    && TravelTime(m, profile, last.transferStation, next.transferStation) <= gap
    && t.currentCapacity >= next.unloadedQuantity
    && t.remainingTime >= gap + TravelTime(m, profile, next.transferStation, dumpsite)
  }

  /**
   * The insertion cost of the next unload on a vehicle: None (an infinite cost) when the
   * vehicle cannot serve it, otherwise the drive from its last station plus the time gap.
   */
  function CalculateTransportCost(t: TransportTruck, next: TransportTask, profile: Truck, dumpsite: Node, m: Metric): (cost: Option<real>)
    requires |t.transportTasks| > 0
    ensures cost.Some? <==> CanServe(t, next, profile, dumpsite, m)
    ensures cost.Some? ==> cost.value == TravelTime(m, profile, LastTask(t).transferStation, next.transferStation)
                                        + (next.arrivalTime - LastTask(t).arrivalTime)
  {
    var last := LastTask(t);
    var timeBetweenNodes := TravelTime(m, profile, last.transferStation, next.transferStation);
    if timeBetweenNodes > next.arrivalTime - last.arrivalTime then None
    else if t.currentCapacity - next.unloadedQuantity < 0 then None
    else
      var saveTime := next.arrivalTime - last.arrivalTime + TravelTime(m, profile, next.transferStation, dumpsite);
      if t.remainingTime - saveTime < 0.0 then None
      else Some(timeBetweenNodes + (next.arrivalTime - last.arrivalTime))
  }

  predicate AllStarted(trucks: seq<TransportTruck>)
  {
    forall k :: 0 <= k < |trucks| ==> |trucks[k].transportTasks| > 0
  }

  /** Vehicle j can serve the unload, no vehicle serves it cheaper, and every earlier one costs more or cannot serve it. */
  ghost predicate IsFirstCheapest(trucks: seq<TransportTruck>, next: TransportTask, profile: Truck, dumpsite: Node, m: Metric, j: nat)
    requires AllStarted(trucks)
  {
    && j < |trucks|
    && CalculateTransportCost(trucks[j], next, profile, dumpsite, m).Some?
    && (forall k :: 0 <= k < |trucks| && CalculateTransportCost(trucks[k], next, profile, dumpsite, m).Some? ==>
          CalculateTransportCost(trucks[j], next, profile, dumpsite, m).value
          <= CalculateTransportCost(trucks[k], next, profile, dumpsite, m).value)
    && (forall k :: 0 <= k < j && CalculateTransportCost(trucks[k], next, profile, dumpsite, m).Some? ==>
          CalculateTransportCost(trucks[j], next, profile, dumpsite, m).value
          < CalculateTransportCost(trucks[k], next, profile, dumpsite, m).value)
  }

  /** The vehicle with the lowest finite insertion cost (the first one on ties), or None when none can serve the unload. */
  method BestTransportTruck(trucks: seq<TransportTruck>, next: TransportTask, profile: Truck, dumpsite: Node, m: Metric)
      returns (chosen: Option<nat>)
    requires AllStarted(trucks)
    ensures chosen.None? <==> forall k :: 0 <= k < |trucks| ==> CalculateTransportCost(trucks[k], next, profile, dumpsite, m).None?
    ensures chosen.Some? ==> IsFirstCheapest(trucks, next, profile, dumpsite, m, chosen.value)
  {
    chosen := None;
    var bestInsertionCost: Option<real> := None;
    var i := 0;
    while i < |trucks|
      invariant 0 <= i <= |trucks|
      invariant chosen.None? <==> bestInsertionCost.None?
      invariant chosen.None? ==> forall k :: 0 <= k < i ==> CalculateTransportCost(trucks[k], next, profile, dumpsite, m).None?
      invariant chosen.Some? ==> chosen.value < i
      invariant chosen.Some? ==> CalculateTransportCost(trucks[chosen.value], next, profile, dumpsite, m) == bestInsertionCost
      invariant chosen.Some? ==>
        forall k :: 0 <= k < i && CalculateTransportCost(trucks[k], next, profile, dumpsite, m).Some? ==>
          bestInsertionCost.value <= CalculateTransportCost(trucks[k], next, profile, dumpsite, m).value
      invariant chosen.Some? ==>
        forall k :: 0 <= k < chosen.value && CalculateTransportCost(trucks[k], next, profile, dumpsite, m).Some? ==>
          bestInsertionCost.value < CalculateTransportCost(trucks[k], next, profile, dumpsite, m).value
    {
      var cost := CalculateTransportCost(trucks[i], next, profile, dumpsite, m);
      if cost.Some? && (bestInsertionCost.None? || cost.value < bestInsertionCost.value) {
        chosen := Some(i);
        bestInsertionCost := cost;
      }
      i := i + 1;
    }
  }

  /** The vehicle opened for an unload no open vehicle can serve: it leaves the dumpsite at time 0 and drives to the station. */
  function OpenTruck(next: TransportTask, profile: Truck, dumpsite: Node, m: Metric): TransportTruck
  {
    TransportTruck(
      profile.capacity - next.unloadedQuantity,
      profile.workDuration as real - TravelTime(m, profile, dumpsite, next.transferStation),
      [TransportTask(0, dumpsite, 0.0), next],
      0.0)
  }

  /**
   * A vehicle after taking the next unload: capacity and remaining time shrink by the
   * quantity and the time gap; when the free capacity falls below the smallest unload of
   * the day, it drives to the dumpsite and empties.
   */
  function Serve(t: TransportTruck, next: TransportTask, profile: Truck, dumpsite: Node, m: Metric, minimumWaste: int): TransportTruck
    requires |t.transportTasks| > 0
  {
    var capacity := t.currentCapacity - next.unloadedQuantity;
    var remaining := t.remainingTime - (next.arrivalTime - LastTask(t).arrivalTime);
    if capacity < minimumWaste then
      var timeToDumpsite := TravelTime(m, profile, next.transferStation, dumpsite);
      TransportTruck(profile.capacity, remaining - timeToDumpsite,
        t.transportTasks + [next, TransportTask(0, dumpsite, next.arrivalTime + timeToDumpsite)], t.timeWorked)
    else
      TransportTruck(capacity, remaining, t.transportTasks + [next], t.timeWorked)
  }

  /**
   * One step of the assignment: the next unload goes to the cheapest vehicle that can serve
   * it (the first on ties), whose index is j, or, when none can, to a new vehicle appended
   * at the end (isNew).
   */
  method AssignTask(trucks: seq<TransportTruck>, next: TransportTask, profile: Truck, dumpsite: Node, m: Metric, minimumWaste: int)
      returns (updated: seq<TransportTruck>, ghost isNew: bool, ghost j: nat)
    requires AllStarted(trucks)
    ensures isNew <==> forall k :: 0 <= k < |trucks| ==> CalculateTransportCost(trucks[k], next, profile, dumpsite, m).None?
    ensures isNew ==> updated == trucks + [OpenTruck(next, profile, dumpsite, m)]
    ensures !isNew ==> (IsFirstCheapest(trucks, next, profile, dumpsite, m, j)
                        && updated == trucks[j := Serve(trucks[j], next, profile, dumpsite, m, minimumWaste)])
  {
    var chosen := BestTransportTruck(trucks, next, profile, dumpsite, m);
    if chosen.None? {
      updated, isNew, j := trucks + [OpenTruck(next, profile, dumpsite, m)], true, 0;
    } else {
      var best := chosen.value;
      updated, isNew, j := trucks[best := Serve(trucks[best], next, profile, dumpsite, m, minimumWaste)], false, best;
    }
  }

  /** A vehicle at the end of the day: it returns to the dumpsite unless it is there, and its time worked is set. */
  function Close(t: TransportTruck, profile: Truck, dumpsite: Node, m: Metric): (c: TransportTruck)
    requires |t.transportTasks| > 0
  {
    var lastNode := LastTask(t).transferStation;
    var remaining :=
      if !IsDumpsite(lastNode) then t.remainingTime - TravelTime(m, profile, lastNode, dumpsite) else t.remainingTime;
    var tasks := if !IsDumpsite(lastNode) then t.transportTasks + [TransportTask(0, dumpsite, 0.0)] else t.transportTasks;
    TransportTruck(t.currentCapacity, remaining, tasks, profile.workDuration as real - remaining)
  }

  /** Closes every vehicle, in list order. */
  method CloseTransportRoutes(trucks: seq<TransportTruck>, profile: Truck, dumpsite: Node, m: Metric)
      returns (closed: seq<TransportTruck>)
    requires AllStarted(trucks)
    ensures |closed| == |trucks|
    ensures forall k :: 0 <= k < |trucks| ==> closed[k] == Close(trucks[k], profile, dumpsite, m)
  {
    closed := trucks;
    var i := 0;
    while i < |trucks|
      invariant 0 <= i <= |trucks|
      invariant |closed| == |trucks|
      invariant forall k :: 0 <= k < i ==> closed[k] == Close(trucks[k], profile, dumpsite, m)
      invariant forall k :: i <= k < |trucks| ==> closed[k] == trucks[k]
    {
      closed := closed[i := Close(trucks[i], profile, dumpsite, m)];
      i := i + 1;
    }
  }
}

